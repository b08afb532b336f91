/**
  * Changing the server list: `update_addrs` decides whether this client reconnects and with
  * which odds, so that the expected load is even again.
  */
module Rebalance {
  import opened AddrVec

  // ---------------------------------------------------------------------
  // The decision
  // ---------------------------------------------------------------------

  /** The resolved servers that were already in the list. */
  function Staying(old_: seq<Addr>, resolved: seq<Addr>): seq<Addr> {
    if resolved == [] then []
    else (if Contains(old_, resolved[0]) then [resolved[0]] else []) + Staying(old_, resolved[1..])
  }

  /** The resolved servers that were not. */
  function Joining(old_: seq<Addr>, resolved: seq<Addr>): seq<Addr> {
    if resolved == [] then []
    else (if Contains(old_, resolved[0]) then [] else [resolved[0]]) + Joining(old_, resolved[1..])
  }

  /** A double as far as its special values matter; finite ones are exact. */
  datatype Double = Finite(r: real) | Infinity | MinusInfinity | NaN

  function Divide(a: nat, b: nat): Double {
    if b != 0 then Finite(a as real / b as real) else if a != 0 then Infinity else NaN
  }

  function OneMinus(d: Double): Double {
    match d
    case Finite(r) => Finite(1.0 - r)
    case Infinity => MinusInfinity
    case MinusInfinity => Infinity
    case NaN => NaN
  }

  /** `draw <= d`; no comparison with NaN holds. */
  predicate Within(draw: real, d: Double) {
    (d.Finite? && draw <= d.r) || d == Infinity
  }

  datatype Decision = Stay | Move(pNew: Double, pOld: Double)

  /** Sizes of address vectors are unsigned 32-bit integers. */
  const MAX_COUNT: nat := 0x1_0000_0000

  /** Unsigned 32-bit multiplication. */
  function Mul32(a: nat, b: nat): nat {
    (a * b) % 0x1_0000_0000
  }

  /** The odds of an old server for a client whose server left a list of s, given o staying and n joining. */
  function OddsOld(s: nat, o: nat, n: nat): Double
    requires o + n <= s
  {
    Divide(Mul32(o, s - (o + n)), Mul32(o + n, s - o))
  }

  /** What `update_addrs` decides from the counts, whether our server stays, and a random draw. */
  function Decide(s: nat, o: nat, n: nat, found: bool, draw: real): Decision {
    if o + n > s then
      if found then
        if draw <= 1.0 - s as real / (o + n) as real then Move(Finite(1.0), Finite(0.0)) else Stay
      else Move(Finite(1.0), Finite(0.0))
    else if found then Stay
    else Move(OneMinus(OddsOld(s, o, n)), OddsOld(s, o, n))
  }

  class ServerList {
    var addrs: Vec
    var addrsOld: Vec
    var addrsNew: Vec
    var addrCur: Addr
    var reconfig: bool
    var pOld: Double
    var pNew: Double
    var connected: bool

    ghost predicate Valid()
      reads this
    {
      addrs != addrsOld && addrs != addrsNew && addrsOld != addrsNew
    }

    constructor ()
      ensures Valid() && fresh(addrs) && fresh(addrsOld) && fresh(addrsNew)
      ensures addrs.data == [] && !reconfig && !connected && addrCur == NO_ADDR
    {
      addrs := new Vec([]);
      addrsOld := new Vec([]);
      addrsNew := new Vec([]);
      addrCur, reconfig, pOld, pNew, connected := NO_ADDR, false, Finite(0.0), Finite(0.0), false;
    }

    /** Divides the resolved servers into those already in the list and the others. */
    method Split(resolved: Vec)
      requires Valid() && resolved != addrsOld && resolved != addrsNew
      modifies addrsOld, addrsNew
      ensures addrsOld.data == Staying(addrs.data, resolved.data) && addrsOld.next == 0
      ensures addrsNew.data == Joining(addrs.data, resolved.data) && addrsNew.next == 0
    {
      addrsOld.Clear();
      addrsNew.Clear();
      ghost var was := addrs.data;
      var i := 0;
      while i < |resolved.data|
        modifies addrsOld`data, addrsNew`data
        invariant 0 <= i <= |resolved.data|
        invariant addrsOld.data + Staying(was, resolved.data[i..]) == Staying(was, resolved.data)
        invariant addrsNew.data + Joining(was, resolved.data[i..]) == Joining(was, resolved.data)
      {
        SplitStep(was, resolved.data, i, addrsOld.data, addrsNew.data);
        var inOld := addrs.ContainsAddr(resolved.data[i]);
        if inOld {
          addrsOld.Append(resolved.data[i]);
        } else {
          addrsNew.Append(resolved.data[i]);
        }
        i := i + 1;
      }
    }

    /** Sets the odds, or gives up the reconfiguration. */
    method Choose(foundCurrent: bool, draw: real)
      requires reconfig
      modifies this`reconfig, this`pNew, this`pOld
      ensures var d := Decide(|addrs.data|, |addrsOld.data|, |addrsNew.data|, foundCurrent, draw);
              && reconfig == d.Move?
              && (if d.Move? then pNew == d.pNew && pOld == d.pOld else pNew == old(pNew) && pOld == old(pOld))
    {
      var numOld, numNew, count := |addrsOld.data|, |addrsNew.data|, |addrs.data|;
      if numOld + numNew > count {
        if foundCurrent {
          if draw <= 1.0 - count as real / (numOld + numNew) as real {
            pNew, pOld := Finite(1.0), Finite(0.0);
          } else {
            reconfig := false;
          }
        } else {
          pNew, pOld := Finite(1.0), Finite(0.0);
        }
      } else {
        if foundCurrent {
          reconfig := false;
        } else {
          pOld := Divide(Mul32(numOld, count - (numOld + numNew)), Mul32(numOld + numNew, count - numOld));
          pNew := OneMinus(pOld);
        }
      }
    }

    /** Splits the resolved list and decides. */
    method UpdateAddrs(resolved: Vec, draw: real) returns (changed: bool)
      requires Valid() && resolved != addrs && resolved != addrsOld && resolved != addrsNew
      requires |addrs.data| < MAX_COUNT && |resolved.data| < MAX_COUNT
      modifies this, addrsOld, addrsNew
      ensures Valid() && addrsOld == old(addrsOld) && addrsNew == old(addrsNew)
      ensures changed <==> !SameServers(old(addrs.data), resolved.data)
      ensures !changed ==> unchanged(this) && unchanged(addrsOld) && unchanged(addrsNew)
      ensures changed ==>
                var was := old(addrs.data);
                var o, n := Staying(was, resolved.data), Joining(was, resolved.data);
                var found := Contains(resolved.data, old(addrCur));
                && addrs == resolved && addrCur == old(addrCur)
                && addrsOld.data == o && addrsOld.next == 0 && addrsNew.data == n && addrsNew.next == 0
                && var d := Decide(|was|, |o|, |n|, found, draw);
                && reconfig == d.Move?
                && (if d.Move? then pNew == d.pNew && pOld == d.pOld else pNew == old(pNew) && pOld == old(pOld))
                && connected == (old(connected) && d.Stay?)
    {
      var same := addrs.Equals(resolved);
      if same {
        return false;
      }
      var foundCurrent := resolved.ContainsAddr(addrCur);
      reconfig := true;
      ghost var was := addrs.data;
      Split(resolved);
      Choose(foundCurrent, draw);
      addrs := resolved;
      if reconfig && connected {
        connected := false;
      }
      changed := true;
    }
  }

  lemma SplitStep(was: seq<Addr>, r: seq<Addr>, i: nat, o: seq<Addr>, n: seq<Addr>)
    requires i < |r|
    ensures var kept := Contains(was, r[i]);
            && o + Staying(was, r[i..]) == (if kept then o + [r[i]] else o) + Staying(was, r[i + 1..])
            && n + Joining(was, r[i..]) == (if kept then n else n + [r[i]]) + Joining(was, r[i + 1..])
  {
    assert r[i..][0] == r[i] && r[i..][1..] == r[i + 1..];
  }

  lemma {:induction false} SplitCounts(was: seq<Addr>, r: seq<Addr>)
    ensures |Staying(was, r)| + |Joining(was, r)| == |r|
    ensures multiset(Staying(was, r)) + multiset(Joining(was, r)) == multiset(r)
  {
    if r != [] {
      SplitCounts(was, r[1..]);
      assert r == [r[0]] + r[1..];
    }
  }

  // ---------------------------------------------------------------------
  // Pigeonhole
  // ---------------------------------------------------------------------

  /** What makes two internet addresses the same host. */
  function Host(a: Addr): (int, nat) {
    (a.family, a.ip)
  }

  ghost function Hosts(v: seq<Addr>): set<(int, nat)> {
    set a | a in v :: Host(a)
  }

  lemma ContainsIsHost(v: seq<Addr>, a: Addr)
    requires IsInet(a)
    ensures Contains(v, a) <==> Host(a) in Hosts(v)
  {
    if Host(a) in Hosts(v) {
      var b :| b in v && Host(b) == Host(a);
      var i :| 0 <= i < |v| && v[i] == b;
      assert SameHost(v[i], a);
    }
    if Contains(v, a) {
      var i :| 0 <= i < |v| && SameHost(v[i], a);
      assert v[i] in v;
    }
  }

  lemma DistinctTail(v: seq<Addr>)
    requires v != [] && Distinct(v)
    ensures Distinct(v[1..]) && !Contains(v[1..], v[0])
  {
    forall i | 0 <= i < |v| - 1 ensures !SameHost(v[1..][i], v[0]) {
      assert !SameHost(v[0], v[i + 1]);
    }
  }

  lemma HostsCons(v: seq<Addr>)
    requires v != []
    ensures Hosts(v) == {Host(v[0])} + Hosts(v[1..])
  {
    assert v == [v[0]] + v[1..];
  }

  lemma {:induction false} DistinctCount(v: seq<Addr>)
    requires Distinct(v)
    ensures |Hosts(v)| == |v|
  {
    if v != [] {
      DistinctTail(v);
      DistinctCount(v[1..]);
      HostsCons(v);
      ContainsIsHost(v[1..], v[0]);
    }
  }

  lemma {:induction false} StayingMember(was: seq<Addr>, r: seq<Addr>, a: Addr)
    ensures a in Staying(was, r) <==> a in r && Contains(was, a)
  {
    if r != [] {
      StayingMember(was, r[1..], a);
      assert r == [r[0]] + r[1..];
    }
  }

  lemma {:induction false} StayingDistinct(was: seq<Addr>, r: seq<Addr>)
    requires Distinct(r)
    ensures Distinct(Staying(was, r))
  {
    if r != [] {
      var rest, st := r[1..], Staying(was, r[1..]);
      StayingDistinct(was, rest);
      if Contains(was, r[0]) {
        forall i | 0 <= i < |st| ensures !SameHost(r[0], st[i]) {
          StayingMember(was, rest, st[i]);
          var j :| 0 <= j < |rest| && rest[j] == st[i];
          assert !SameHost(r[0], r[j + 1]);
        }
      }
    }
  }

  /** The staying servers have exactly the hosts common to both lists. */
  lemma StayingHosts(was: seq<Addr>, r: seq<Addr>)
    requires Distinct(r)
    ensures Hosts(Staying(was, r)) == Hosts(was) * Hosts(r)
    ensures |Staying(was, r)| == |Hosts(was) * Hosts(r)|
  {
    forall h ensures h in Hosts(Staying(was, r)) <==> h in Hosts(was) * Hosts(r) {
      if h in Hosts(Staying(was, r)) {
        var a :| a in Staying(was, r) && Host(a) == h;
        StayingMember(was, r, a);
        ContainsIsHost(was, a);
      } else if h in Hosts(was) * Hosts(r) {
        var a :| a in r && Host(a) == h;
        StayingMember(was, r, a);
        ContainsIsHost(was, a);
      }
    }
    StayingDistinct(was, r);
    DistinctCount(Staying(was, r));
  }

  /** As many old servers stay as new servers were there before. */
  lemma StayingSymmetric(was: seq<Addr>, r: seq<Addr>)
    requires Distinct(was) && Distinct(r)
    ensures |Staying(was, r)| == |Staying(r, was)| <= |was|
  {
    StayingHosts(was, r);
    StayingHosts(r, was);
    assert Hosts(was) * Hosts(r) == Hosts(r) * Hosts(was);
    SplitCounts(r, was);
  }

  /** If every old server stayed and the list did not grow, it did not change. */
  lemma AllStayingIsSame(was: seq<Addr>, r: seq<Addr>)
    requires Distinct(was) && Distinct(r) && |r| <= |was| && |Staying(was, r)| == |was|
    ensures SameServers(was, r)
  {
    StayingHosts(was, r);
    DistinctCount(was);
    SplitCounts(was, r);
    var both := Hosts(was) * Hosts(r);
    assert |Hosts(was) - both| == 0 by { assert Hosts(was) == both + (Hosts(was) - both); }
    forall i | 0 <= i < |was| ensures Contains(r, was[i]) {
      assert Host(was[i]) in Hosts(was);
      assert Host(was[i]) in both;
      ContainsIsHost(r, was[i]);
    }
  }

  /** A changed list that did not grow has lost a server: neither factor of the odds' divisor is zero. */
  lemma LeaversExist(was: seq<Addr>, r: seq<Addr>)
    requires Distinct(was) && Distinct(r) && r != [] && !SameServers(was, r)
    ensures |r| <= |was| ==> |Staying(was, r)| < |was|
  {
    if |r| <= |was| {
      StayingSymmetric(was, r);
      if |Staying(was, r)| == |was| {
        AllStayingIsSame(was, r);
      }
    }
  }

  lemma MulPositive(a: nat, b: nat)
    requires a > 0 && b > 0
    ensures a * b > 0
  {
  }

  // ---------------------------------------------------------------------
  // Fairness
  // ---------------------------------------------------------------------

  /** The chance that a number drawn uniformly from [0, 1) is at most d. */
  function Below(d: Double): (chance: real)
    ensures 0.0 <= chance <= 1.0
  {
    match d
    case Finite(p) => if p < 0.0 then 0.0 else if p > 1.0 then 1.0 else p
    case Infinity => 1.0
    case _ => 0.0
  }

  /** The largest draw on which a client reconnects; negative when none does. */
  function MoveThreshold(s: nat, o: nat, n: nat, found: bool): real {
    if !found then 1.0
    else if o + n > s then 1.0 - s as real / (o + n) as real
    else -1.0
  }

  /** The odds of a joining server for a client that reconnects. */
  function OddsNew(s: nat, o: nat, n: nat): Double {
    if o + n > s then Finite(1.0) else OneMinus(OddsOld(s, o, n))
  }

  /** The chance that a client that reconnects takes a joining server: the odds decide only between two non-empty lists. */
  function ToNew(s: nat, o: nat, n: nat): real {
    if n == 0 then 0.0 else if o == 0 then 1.0 else Below(OddsNew(s, o, n))
  }

  /** The decision is a comparison of the draw with the threshold. */
  lemma DecideByThreshold(s: nat, o: nat, n: nat, found: bool, draw: real)
    requires 0.0 <= draw < 1.0
    ensures var d := Decide(s, o, n, found, draw);
            && (d.Move? <==> draw <= MoveThreshold(s, o, n, found))
            && (d.Move? ==> d.pNew == OddsNew(s, o, n) && d.pOld == OneMinus(d.pNew))
  {
  }

  /** The list changes from `was` to `r`, both of pairwise different hosts. */
  ghost predicate Change(was: seq<Addr>, r: seq<Addr>) {
    && Distinct(was) && Distinct(r) && r != [] && !SameServers(was, r)
    && |was| < MAX_COUNT && |r| < MAX_COUNT
  }

  /** The chance that a client reconnects, by whether its server stays. */
  function MoveChance(was: seq<Addr>, r: seq<Addr>, found: bool): real
  {
    Below(Finite(MoveThreshold(|was|, |Staying(was, r)|, |Joining(was, r)|, found)))
  }

  /** The chance that a client that reconnects does so to x, each list being in random order. */
  ghost function Share(was: seq<Addr>, r: seq<Addr>, x: Addr): real
    requires Change(was, r) && Contains(r, x)
  {
    ListedCounts(was, r, x);
    var s, o, n := |was|, |Staying(was, r)|, |Joining(was, r)|;
    ShareOf(ToNew(s, o, n), o, n, Contains(was, x))
  }

  /** The chance that a client of old server c is at server x of the new list after one choice. */
  ghost function Chance(was: seq<Addr>, r: seq<Addr>, c: Addr, x: Addr): real
    requires Change(was, r) && Contains(r, x)
  {
    Weigh(MoveChance(was, r, Contains(r, c)), Share(was, r, x), SameHost(c, x))
  }

  /** A client moves with the given chance, and then reaches the server with the given share. */
  function Weigh(move: real, share: real, same: bool): real {
    (if same then 1.0 - move else 0.0) + move * share
  }

  lemma ListedCounts(was: seq<Addr>, r: seq<Addr>, x: Addr)
    requires Contains(r, x)
    ensures Contains(was, x) ==> |Staying(was, r)| > 0
    ensures !Contains(was, x) ==> |Joining(was, r)| > 0
    decreases |r|
  {
    if SameHost(r[0], x) {
      assert Contains(was, r[0]) <==> Contains(was, x) by {
        if Contains(was, x) { var i :| 0 <= i < |was| && SameHost(was[i], x); assert SameHost(was[i], r[0]); }
        if Contains(was, r[0]) { var i :| 0 <= i < |was| && SameHost(was[i], r[0]); assert SameHost(was[i], x); }
      }
    } else {
      var i :| 0 <= i < |r| && SameHost(r[i], x);
      assert r[1..][i - 1] == r[i];
      ListedCounts(was, r[1..], x);
    }
  }

  /** The expected number of the given clients, one per entry, that end at x. */
  ghost function Expected(was: seq<Addr>, r: seq<Addr>, clients: seq<Addr>, x: Addr): real
    requires Change(was, r) && Contains(r, x)
  {
    if clients == [] then 0.0
    else Chance(was, r, clients[0], x) + Expected(was, r, clients[1..], x)
  }

  function CountHost(v: seq<Addr>, x: Addr): nat {
    if v == [] then 0 else (if SameHost(v[0], x) then 1 else 0) + CountHost(v[1..], x)
  }

  lemma {:induction false} CountHostOnce(v: seq<Addr>, x: Addr)
    requires Distinct(v)
    ensures CountHost(v, x) == if Contains(v, x) then 1 else 0
  {
    if v != [] {
      DistinctTail(v);
      CountHostOnce(v[1..], x);
      if SameHost(v[0], x) {
        forall i | 0 <= i < |v| - 1 ensures !SameHost(v[1..][i], x) {
          assert !SameHost(v[1..][i], v[0]);
        }
      }
      if Contains(v, x) && !SameHost(v[0], x) {
        var i :| 0 <= i < |v| && SameHost(v[i], x);
        assert v[1..][i - 1] == v[i];
      }
    }
  }

  /** One client of x itself stays with the rest of m, st of the movers with m, jo always. */
  function LoadForm(m: real, share: real, k: nat, st: nat, jo: nat): real {
    (1.0 - m) * k as real + (m * share) * st as real + share * jo as real
  }

  lemma LoadFormStep(m: real, share: real, k: nat, st: nat, jo: nat, stays: bool, same: bool)
    requires same ==> stays
    ensures Weigh(if stays then m else 1.0, share, same) + LoadForm(m, share, k, st, jo) ==
            LoadForm(m, share, if same then k + 1 else k, if stays then st + 1 else st, if stays then jo else jo + 1)
  {
    AddOne(1.0 - m, k);
    AddOne(m * share, st);
    AddOne(share, jo);
  }

  lemma {:induction false} ExpectedSplit(was: seq<Addr>, r: seq<Addr>, clients: seq<Addr>, x: Addr)
    requires Change(was, r) && Contains(r, x)
    ensures Expected(was, r, clients, x) ==
            LoadForm(MoveChance(was, r, true), Share(was, r, x),
                     CountHost(clients, x), |Staying(r, clients)|, |Joining(r, clients)|)
  {
    if clients != [] {
      var c, rest := clients[0], clients[1..];
      ExpectedSplit(was, r, rest, x);
      if SameHost(c, x) {
        var i :| 0 <= i < |r| && SameHost(r[i], x);
        assert SameHost(r[i], c);
      }
      LoadFormStep(MoveChance(was, r, true), Share(was, r, x), CountHost(rest, x),
                   |Staying(r, rest)|, |Joining(r, rest)|, Contains(r, c), SameHost(c, x));
    }
  }

  lemma AddOne(a: real, k: nat)
    ensures a * (k + 1) as real == a * k as real + a
  {
    assert (k + 1) as real == k as real + 1.0;
  }

  // The algebra, for a list that grows and one that does not.

  lemma DivMul(a: real, b: real)
    requires b != 0.0
    ensures (a / b) * b == a
  {
  }

  lemma Cancel(x: real, y: real, c: real)
    requires c != 0.0 && x * c == y * c
    ensures x == y
  {
    assert (x - y) * c == 0.0;
  }

  lemma Swap3(a: real, b: real, c: real)
    ensures (a * b) * c == (a * c) * b == a * (b * c) == a * (c * b)
  {
  }

  lemma IsQuotient(x: real, a: real, b: real)
    requires b != 0.0 && x * b == a
    ensures x == a / b
  {
    DivMul(a, b);
    Cancel(x, a / b, b);
  }

  /** a * (b / c) cleared of its denominator. */
  lemma ClearShare(a: real, b: real, c: real)
    requires c != 0.0
    ensures ((b / c) * a) * c == b * a
  {
    Swap3(b / c, a, c);
    DivMul(b, c);
  }

  lemma GrowingShare(s: real, o: real, n: real, m: real)
    requires s > 0.0 && o >= 0.0 && n > 0.0 && o + n > s && m == 1.0 - s / (o + n)
    ensures 0.0 <= m <= 1.0
    ensures m * (1.0 / n) * o + (1.0 / n) * (s - o) == s / (o + n)
  {
    var t, u := o + n, 1.0 / n;
    DivMul(s, t);
    assert (s / t) * t == s && m * t == t - s;
    assert 0.0 <= s / t <= 1.0;
    DivMul(1.0, n);
    Swap3(m, u, o);
    Swap3(m * o, u, n);
    Swap3(s - o, u, n);
    var lhs := m * u * o + u * (s - o);
    assert lhs * n == m * o + (s - o);
    Swap3(m, o, t);
    assert (lhs * n) * t == (t - s) * o + (s - o) * t;
    assert (t - s) * o + (s - o) * t == s * n;
    Swap3(lhs, n, t);
    Cancel(lhs * t, s, n);
    IsQuotient(lhs, s, t);
  }

  lemma Positive(a: real, b: real)
    requires a > 0.0 && b > 0.0
    ensures a * b > 0.0
  {
  }

  /**
    * The 32-bit products in the odds stand in the same ratio as the true ones. A caller can
    * compute this from the three counts.
    */
  predicate OddsExact(s: nat, o: nat, n: nat)
    requires o + n <= s
  {
    && Mul32(o + n, s - o) != 0
    && Mul32(o, s - (o + n)) * ((o + n) * (s - o)) == (o * (s - (o + n))) * Mul32(o + n, s - o)
  }

  /** The list grows, or the odds do not matter as no server joins or none stays, or they are exact. */
  predicate Balances(s: nat, o: nat, n: nat) {
    o + n > s || n == 0 || o == 0 || OddsExact(s, o, n)
  }

  /**
    * If every old server carries the same expected load, a server of the new list carries its
    * equal share after the change, 1 / |r| of all clients, if and only if the odds are exact
    * wherever they matter.
    */
  lemma RebalancingIsFairIff(was: seq<Addr>, r: seq<Addr>, x: Addr)
    requires Change(was, r) && was != [] && Contains(r, x)
    ensures Expected(was, r, was, x) / |was| as real == 1.0 / |r| as real <==>
            Balances(|was|, |Staying(was, r)|, |Joining(was, r)|)
  {
    ExpectedLoadIff(was, r, x);
    SameQuotient(Expected(was, r, was, x), |was| as real, |r| as real);
  }

  lemma ExpectedLoadIff(was: seq<Addr>, r: seq<Addr>, x: Addr)
    requires Change(was, r) && was != [] && Contains(r, x)
    ensures EvenLoad(Expected(was, r, was, x), |was|, |r|) <==>
            Balances(|was|, |Staying(was, r)|, |Joining(was, r)|)
  {
    ExpectedCounts(was, r, x);
    var s, o, n := |was|, |Staying(was, r)|, |Joining(was, r)|;
    LeaversExist(was, r);
    ListedCounts(was, r, x);
    LoadValue(s, o, n, Contains(was, x), Share(was, r, x));
  }

  /** The larger product fits 32 bits, as it does for all lists of fewer than 65536 servers. */
  predicate ProductsFit(s: nat, o: nat, n: nat) {
    o + n <= s ==> (o + n) * (s - o) < 0x1_0000_0000
  }

  lemma ShortListsFit(s: nat, o: nat, n: nat)
    requires s < 65536
    ensures ProductsFit(s, o, n)
  {
    if o + n <= s {
      MulMonotone(o + n, 65535, s - o, 65535);
    }
  }

  lemma FittingBalances(s: nat, o: nat, n: nat)
    requires 0 < o + n && (o + n <= s ==> o < s) && ProductsFit(s, o, n)
    ensures Balances(s, o, n)
  {
    if o + n <= s {
      FittingProducts(s, o, n);
    }
  }

  /** The odds are a probability: the divisor is positive and the quotient between 0 and 1. */
  lemma OddsAreAProbability(s: nat, o: nat, n: nat)
    requires 0 < o + n <= s && o < s && ProductsFit(s, o, n)
    ensures Mul32(o + n, s - o) > 0
    ensures IsProbability(OddsOld(s, o, n)) && IsProbability(OneMinus(OddsOld(s, o, n)))
  {
    FittingProducts(s, o, n);
    ProperFraction(Mul32(o, s - (o + n)), Mul32(o + n, s - o));
  }

  predicate IsProbability(d: Double) {
    d.Finite? && 0.0 <= d.r <= 1.0
  }

  lemma ProperFraction(a: nat, b: nat)
    requires a <= b && b > 0
    ensures IsProbability(Divide(a, b))
  {
    var x := a as real / b as real;
    assert x * b as real == a as real;
    assert x > 1.0 ==> (x - 1.0) * b as real > 0.0;
  }

  lemma FittingProducts(s: nat, o: nat, n: nat)
    requires 0 < o + n <= s && o < s && ProductsFit(s, o, n)
    ensures Mul32(o, s - (o + n)) == o * (s - (o + n)) && Mul32(o + n, s - o) == (o + n) * (s - o)
    ensures Mul32(o, s - (o + n)) <= Mul32(o + n, s - o) && Mul32(o + n, s - o) > 0
  {
    MulPositive(o + n, s - o);
    MulMonotone(o, o + n, s - (o + n), s - o);
    FitsIn32(o, s - (o + n));
    FitsIn32(o + n, s - o);
  }

  lemma FitsIn32(a: nat, b: nat)
    requires a * b < 0x1_0000_0000
    ensures Mul32(a, b) == a * b
  {
  }

  /** In particular whenever the products fit. */
  lemma FairWhenProductsFit(was: seq<Addr>, r: seq<Addr>, x: Addr)
    requires Change(was, r) && was != [] && Contains(r, x)
    requires ProductsFit(|was|, |Staying(was, r)|, |Joining(was, r)|)
    ensures Expected(was, r, was, x) / |was| as real == 1.0 / |r| as real
  {
    SplitCounts(was, r);
    LeaversExist(was, r);
    FittingBalances(|was|, |Staying(was, r)|, |Joining(was, r)|);
    RebalancingIsFairIff(was, r, x);
  }

  lemma MulMonotone(a: nat, b: nat, c: nat, d: nat)
    requires a <= b && c <= d
    ensures a * c <= b * d
  {
    assert (b - a) * c >= 0 && b * (d - c) >= 0;
  }

  // An input on which the products wrap.

  /** Servers with consecutive addresses from `first` on. */
  function Range(first: nat, count: nat): (v: seq<Addr>)
    ensures |v| == count && forall i :: 0 <= i < count ==> v[i] == Addr(AF_INET, first + i, 2181)
  {
    seq(count, i requires 0 <= i < count => Addr(AF_INET, first + i, 2181))
  }

  lemma {:induction false} AllStay(was: seq<Addr>, r: seq<Addr>)
    requires forall i :: 0 <= i < |r| ==> Contains(was, r[i])
    ensures Staying(was, r) == r
  {
    if r != [] {
      assert Contains(was, r[0]);
      forall i | 0 <= i < |r| - 1 ensures Contains(was, r[1..][i]) { assert r[1..][i] == r[i + 1]; }
      AllStay(was, r[1..]);
    }
  }

  lemma {:induction false} StayingSnoc(was: seq<Addr>, r: seq<Addr>, a: Addr)
    requires !Contains(was, a)
    ensures Staying(was, r + [a]) == Staying(was, r)
  {
    if r == [] {
      assert r + [a] == [a] && [a][1..] == [];
    } else {
      assert (r + [a])[0] == r[0] && (r + [a])[1..] == r[1..] + [a];
      StayingSnoc(was, r[1..], a);
    }
  }

  lemma RangeDistinct(count: nat, keep: nat)
    requires keep <= count
    ensures Distinct(Range(0, count)) && Distinct(Range(0, keep) + [Addr(AF_INET, count, 2181)])
    ensures !Contains(Range(0, count), Addr(AF_INET, count, 2181))
  {
  }

  /** A list of `keep` old servers and a new one. */
  lemma KeepAndJoin(count: nat, keep: nat)
    requires keep <= count
    ensures var was, r := Range(0, count), Range(0, keep) + [Addr(AF_INET, count, 2181)];
            && Distinct(was) && Distinct(r) && |Staying(was, r)| == keep && |Joining(was, r)| == 1
  {
    var was, kept, a := Range(0, count), Range(0, keep), Addr(AF_INET, count, 2181);
    RangeDistinct(count, keep);
    forall i | 0 <= i < keep ensures Contains(was, kept[i]) { assert SameHost(was[i], kept[i]); }
    AllStay(was, kept);
    StayingSnoc(was, kept, a);
    SplitCounts(was, kept + [a]);
  }

  /**
    * When 131072 servers shrink to 65535 of them and a new one, both products wrap: the odds of
    * an old server come out as 65535, so no client ever prefers the new one and it is left idle.
    */
  lemma WrappedOddsAreUnfair()
    ensures var was, x := Range(0, 131072), Addr(AF_INET, 131072, 2181);
            var r := Range(0, 65535) + [x];
            && Change(was, r) && Contains(r, x)
            && OddsOld(131072, 65535, 1) == Finite(65535.0) && OddsNew(131072, 65535, 1) == Finite(-65534.0)
            && Expected(was, r, was, x) / |was| as real != 1.0 / |r| as real
  {
    var was, x := Range(0, 131072), Addr(AF_INET, 131072, 2181);
    var r := Range(0, 65535) + [x];
    KeepAndJoin(131072, 65535);
    assert SameHost(r[65535], x);
    assert Mul32(65535, 65536) == 4294901760 && Mul32(65536, 65537) == 65536;
    RebalancingIsFairIff(was, r, x);
  }

  lemma ExpectedCounts(was: seq<Addr>, r: seq<Addr>, x: Addr)
    requires Change(was, r) && Contains(r, x)
    ensures var o := |Staying(was, r)|;
            && o <= |was| && o + |Joining(was, r)| == |r|
            && Expected(was, r, was, x) ==
               LoadForm(MoveChance(was, r, true), Share(was, r, x), if Contains(was, x) then 1 else 0, o, |was| - o)
  {
    ExpectedSplit(was, r, was, x);
    CountHostOnce(was, x);
    StayingSymmetric(was, r);
    SplitCounts(r, was);
    SplitCounts(was, r);
  }

  lemma LoadValue(s: nat, o: nat, n: nat, listed: bool, share: real)
    requires 0 < s && 0 < o + n && o <= s && (listed ==> o > 0) && (!listed ==> n > 0) && (o + n <= s ==> o < s)
    requires share == ShareOf(ToNew(s, o, n), o, n, listed)
    ensures EvenLoad(LoadForm(Below(Finite(MoveThreshold(s, o, n, true))), share, if listed then 1 else 0, o, s - o), s, o + n)
       <==> Balances(s, o, n)
  {
    if o + n > s {
      GrowingCase(s, o, n, listed, share);
    } else {
      ShrinkingCase(s, o, n, listed, share);
    }
  }

  /** The share of one server, given the chance of a joining one. */
  function ShareOf(toNew: real, o: nat, n: nat, listed: bool): real
    requires (listed ==> o > 0) && (!listed ==> n > 0)
  {
    if listed then (1.0 - toNew) / o as real else toNew / n as real
  }

  lemma SameQuotient(e: real, s: real, t: real)
    requires s != 0.0 && t != 0.0
    ensures e / s == 1.0 / t <==> e == s / t
  {
    var q := e / s;
    DivMul(e, s);
    DivMul(s, t);
    DivMul(1.0, t);
    Swap3(q, s, t);
    if q == 1.0 / t {
      assert q * t == 1.0;
      assert e * t == s;
      IsQuotient(e, s, t);
    }
    if e == s / t {
      assert (q * t) * s == 1.0 * s;
      Cancel(q * t, 1.0, s);
      IsQuotient(q, 1.0, t);
    }
  }

  lemma GrowingCase(s: nat, o: nat, n: nat, listed: bool, share: real)
    requires 0 < s < o + n && o <= s && (listed ==> o > 0) && n > 0
    requires share == ShareOf(ToNew(s, o, n), o, n, listed)
    ensures LoadForm(Below(Finite(MoveThreshold(s, o, n, true))), share, if listed then 1 else 0, o, s - o)
         == s as real / (o + n) as real
  {
    var m := 1.0 - s as real / (o + n) as real;
    GrowingShare(s as real, o as real, n as real, m);
    assert ToNew(s, o, n) == 1.0 && Below(Finite(MoveThreshold(s, o, n, true))) == m;
    if listed {
      assert share == 0.0;
    } else {
      assert share == 1.0 / n as real;
    }
  }

  /** The chance of a joining server is the true one: 1 - toNew is the ratio o (s - t) : t (s - o). */
  predicate TrueOdds(toNew: real, s: nat, o: nat, n: nat)
    requires o + n <= s
  {
    (1.0 - toNew) * ((o + n) as real * (s - o) as real) == o as real * (s - (o + n)) as real
  }

  predicate EvenLoad(load: real, s: nat, t: nat)
    requires t > 0
  {
    load == s as real / t as real
  }

  lemma ShrinkingCase(s: nat, o: nat, n: nat, listed: bool, share: real)
    requires 0 < o + n <= s && o < s && (listed ==> o > 0) && (!listed ==> n > 0)
    requires share == ShareOf(ToNew(s, o, n), o, n, listed)
    ensures EvenLoad(LoadForm(Below(Finite(MoveThreshold(s, o, n, true))), share, if listed then 1 else 0, o, s - o), s, o + n)
       <==> Balances(s, o, n)
  {
    LoadIsEvenIff(s, o, n, ToNew(s, o, n), listed);
    OddsOldIff(s, o, n);
  }

  lemma LoadIsEvenIff(s: nat, o: nat, n: nat, toNew: real, listed: bool)
    requires 0 < o + n <= s && o < s && (listed ==> o > 0) && (!listed ==> n > 0)
    ensures EvenLoad(LoadForm(0.0, ShareOf(toNew, o, n, listed), if listed then 1 else 0, o, s - o), s, o + n)
       <==> TrueOdds(toNew, s, o, n)
  {
    StayersForm(ShareOf(toNew, o, n, listed), if listed then 1 else 0, o, s - o);
    RealCounts(s, o, n);
    ShareIsEvenIff(s as real, o as real, n as real, toNew, listed);
  }

  lemma RealCounts(s: nat, o: nat, n: nat)
    requires o + n <= s
    ensures (o + n) as real == o as real + n as real && (s - o) as real == s as real - o as real
    ensures (s - (o + n)) as real == s as real - (o as real + n as real)
  {
  }

  /** Cleared of denominators: even shares mean 1 - toNew is the true ratio o (s - t) : t (s - o). */
  lemma ShareIsEvenIff(s: real, o: real, n: real, toNew: real, listed: bool)
    requires 0.0 <= o < s && 0.0 <= n && 0.0 < o + n <= s && (listed ==> o > 0.0) && (!listed ==> n > 0.0)
    ensures (if listed then 1.0 + ((1.0 - toNew) / o) * (s - o) else (toNew / n) * (s - o)) == s / (o + n) <==>
            (1.0 - toNew) * ((o + n) * (s - o)) == o * (s - (o + n))
  {
    var t, l := o + n, s - o;
    assert t * l - o * (s - t) == s * n;
    if listed {
      var q := ((1.0 - toNew) / o) * l;
      SpreadIff(1.0 - toNew, o, l, t, s - t);
      QuotientIff(1.0 + q, s, t);
    } else {
      SpreadIff(toNew, n, l, t, s);
      QuotientIff((toNew / n) * l, s, t);
      assert toNew * (t * l) == t * l - (1.0 - toNew) * (t * l);
    }
  }

  lemma QuotientIff(x: real, a: real, b: real)
    requires b != 0.0
    ensures x == a / b <==> x * b == a
  {
    DivMul(a, b);
    if x * b == a {
      IsQuotient(x, a, b);
    }
  }

  /** ((p / c) d) t == w exactly when p (t d) == c w. */
  lemma SpreadIff(p: real, c: real, d: real, t: real, w: real)
    requires c != 0.0
    ensures ((p / c) * d) * t == w <==> p * (t * d) == c * w
  {
    var q := (p / c) * d;
    ClearShare(d, p, c);
    Swap3(p, t, d);
    Swap3(q, c, t);
    assert (q * c) * t == p * (t * d);
    assert (q * t) * c == p * (t * d);
    if p * (t * d) == c * w {
      assert (q * t) * c == w * c;
      Cancel(q * t, w, c);
    }
  }

  /** The chance of a joining server is the true one exactly when the odds do not matter or are exact. */
  lemma OddsOldIff(s: nat, o: nat, n: nat)
    requires 0 < o + n <= s && o < s
    ensures TrueOdds(ToNew(s, o, n), s, o, n) <==> Balances(s, o, n)
  {
    if n == 0 {
      NoneJoin(s, o);
    } else if o == 0 {
      assert o as real * (s - (o + n)) as real == 0.0;
    } else {
      BothListsIff(s, o, n);
    }
  }

  /** Without joining servers the ratio is 1. */
  lemma NoneJoin(s: nat, o: nat)
    requires o <= s
    ensures TrueOdds(0.0, s, o, 0)
  {
  }

  lemma BothListsIff(s: nat, o: nat, n: nat)
    requires o + n <= s && o > 0 && n > 0
    ensures TrueOdds(Below(OddsNew(s, o, n)), s, o, n) <==> OddsExact(s, o, n)
  {
    TrueRatio(s, o, n);
    ProductRatioIff(o, s - (o + n), o + n, s - o, Mul32(o, s - (o + n)), Mul32(o + n, s - o));
  }

  lemma ProductRatioIff(a: nat, b: nat, c: nat, d: nat, N': nat, D': nat)
    requires a * b < c * d
    ensures (1.0 - Below(OneMinus(Divide(N', D')))) * (c as real * d as real) == a as real * b as real <==>
            D' != 0 && N' * (c * d) == (a * b) * D'
  {
    RealMul(a, b);
    RealMul(c, d);
    QuotientRatioIff(a * b, c * d, N', D');
  }

  lemma QuotientRatioIff(N: nat, D: nat, N': nat, D': nat)
    requires N < D
    ensures (1.0 - Below(OneMinus(Divide(N', D')))) * D as real == N as real <==> D' != 0 && N' * D == N * D'
  {
    if D' != 0 {
      RatioIff(N' as real / D' as real, N, D, N', D');
    }
  }

  /** With joining servers the true ratio is less than 1. */
  lemma TrueRatio(s: nat, o: nat, n: nat)
    requires o + n <= s && n > 0
    ensures o * (s - (o + n)) < (o + n) * (s - o)
  {
    assert (o + n) * (s - o) - o * (s - (o + n)) == s * n;
    MulPositive(s, n);
  }

  /** A quotient of the computed products, capped at 1, against the true one. */
  lemma RatioIff(p: real, N: nat, D: nat, N': nat, D': nat)
    requires D' > 0 && N < D && p == N' as real / D' as real
    ensures (1.0 - Below(Finite(1.0 - p))) * D as real == N as real <==> N' * D == N * D'
  {
    if p <= 1.0 {
      UncappedIff(p, N, D, N', D');
    } else {
      Capped(p, N, D, N', D');
    }
  }

  lemma TimesIff(x: real, y: real, c: real)
    requires c != 0.0
    ensures x == y <==> x * c == y * c
  {
    if x * c == y * c {
      Cancel(x, y, c);
    }
  }

  lemma UncappedIff(p: real, N: nat, D: nat, N': nat, D': nat)
    requires D' > 0 && p == N' as real / D' as real
    ensures p * D as real == N as real <==> N' * D == N * D'
  {
    DivMul(N' as real, D' as real);
    RealMul(N', D);
    RealMul(N, D');
    Swap3(p, D as real, D' as real);
    TimesIff(p * D as real, N as real, D' as real);
  }

  lemma Capped(p: real, N: nat, D: nat, N': nat, D': nat)
    requires D' > 0 && D > 0 && N <= D && p == N' as real / D' as real && p > 1.0
    ensures N' > D' && N' * D > N * D'
  {
    DivMul(N' as real, D' as real);
    Positive(p - 1.0, D' as real);
    Dominates(N', D', N, D);
  }

  lemma Dominates(N': nat, D': nat, N: nat, D: nat)
    requires N' > D' > 0 && 0 < D && N <= D
    ensures N' * D > N * D'
  {
    MulMonotone(N, D, D', D');
    MulPositive(N' - D', D);
    assert N' * D == D' * D + (N' - D') * D;
  }

  lemma StayersForm(share: real, k: nat, st: nat, jo: nat)
    ensures LoadForm(0.0, share, k, st, jo) == k as real + share * jo as real
  {
    assert 0.0 * share == 0.0;
  }

  lemma {:induction false} RealMul(a: nat, b: nat)
    ensures (a * b) as real == a as real * b as real
  {
    if a > 0 {
      RealMul(a - 1, b);
      assert a * b == (a - 1) * b + b;
      assert a as real * b as real == (a - 1) as real * b as real + b as real;
    }
  }
}
