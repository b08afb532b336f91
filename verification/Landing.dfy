/**
  * Where a client ends up after a change of the server list, as a function of the random
  * choices made on the way, and how often it ends up at each server.
  */
module Landing {
  import opened Common
  import opened AddrVec
  import opened Rebalance
  import opened ServerCycle
  import opened Uniform

  /** The server after the decision of `update_addrs` with draw u and one choice with draw v. */
  function Lands(was: seq<Addr>, r: seq<Addr>, cur: Addr, u: real, v: real): Addr {
    var o, n := Staying(was, r), Joining(was, r);
    match Decide(|was|, |o|, |n|, Contains(r, cur), u)
    case Stay => cur
    case Move(pNew, _) => Cycle(Cursor(true, pNew, n, o, r, 0), v).server
  }

  // ---------------------------------------------------------------------
  // The order of the list does not change the odds
  // ---------------------------------------------------------------------

  lemma {:induction false} StayingCount(was: seq<Addr>, r: seq<Addr>, a: Addr)
    ensures multiset(Staying(was, r))[a] == if Contains(was, a) then multiset(r)[a] else 0
    ensures multiset(Joining(was, r))[a] == if Contains(was, a) then 0 else multiset(r)[a]
  {
    if r != [] {
      StayingCount(was, r[1..], a);
      assert r == [r[0]] + r[1..];
    }
  }

  lemma SplitOfPermutation(was: seq<Addr>, b: seq<Addr>, r: seq<Addr>)
    requires multiset(b) == multiset(r)
    ensures multiset(Staying(was, r)) == multiset(Staying(was, b)) && |Staying(was, r)| == |Staying(was, b)|
    ensures multiset(Joining(was, r)) == multiset(Joining(was, b)) && |Joining(was, r)| == |Joining(was, b)|
  {
    forall a
      ensures multiset(Staying(was, r))[a] == multiset(Staying(was, b))[a]
      ensures multiset(Joining(was, r))[a] == multiset(Joining(was, b))[a]
    {
      StayingCount(was, r, a);
      StayingCount(was, b, a);
    }
    assert |multiset(Staying(was, r))| == |Staying(was, r)| && |multiset(Staying(was, b))| == |Staying(was, b)|;
    assert |multiset(Joining(was, r))| == |Joining(was, r)| && |multiset(Joining(was, b))| == |Joining(was, b)|;
  }

  lemma ContainsOfPermutation(b: seq<Addr>, r: seq<Addr>, a: Addr)
    requires multiset(b) == multiset(r)
    ensures Contains(b, a) ==> Contains(r, a)
  {
    if Contains(b, a) {
      var i :| 0 <= i < |b| && SameHost(b[i], a);
      SameMembers(b, r);
      assert b[i] in b;
      var j :| 0 <= j < |r| && r[j] == b[i];
      assert SameHost(r[j], a);
    }
  }

  /** Where a client lands, given the counts and whether its server stays. */
  function Place(s: nat, o: seq<Addr>, n: seq<Addr>, found: bool, cur: Addr, u: real, v: real): Addr {
    if u > MoveThreshold(s, |o|, |n|, found) then cur
    else if n != [] && (o == [] || Within(v, OddsNew(s, |o|, |n|))) then n[0]
    else if o != [] then o[0] else NO_ADDR
  }

  lemma LandsIsPlace(was: seq<Addr>, r: seq<Addr>, cur: Addr, u: real, v: real)
    requires r != [] && 0.0 <= u < 1.0
    ensures Lands(was, r, cur, u, v) == Place(|was|, Staying(was, r), Joining(was, r), Contains(r, cur), cur, u, v)
  {
    var o, n := Staying(was, r), Joining(was, r);
    SplitCounts(was, r);
    DecideByThreshold(|was|, |o|, |n|, Contains(r, cur), u);
  }

  /**
    * For a list shuffled by any choices: the client stays when its draw is above the threshold,
    * and otherwise takes the first joining server or the first staying one, by the odds when
    * there are both. Neither the threshold nor the odds depend on the shuffle.
    */
  lemma LandingByDraws(was: seq<Addr>, b: seq<Addr>, d: seq<nat>, cur: Addr, u: real, v: real)
    requires |d| == |b| && IsDraws(d) && b != [] && 0.0 <= u < 1.0
    ensures var r := Shuffled(b, d);
            && |Staying(was, r)| == |Staying(was, b)| && |Joining(was, r)| == |Joining(was, b)|
            && Lands(was, r, cur, u, v) == Place(|was|, Staying(was, r), Joining(was, r), Contains(b, cur), cur, u, v)
  {
    var r := Shuffled(b, d);
    ShuffledIsPermutation(b, d);
    SplitOfPermutation(was, b, r);
    ContainsOfPermutation(b, r, cur);
    ContainsOfPermutation(r, b, cur);
    LandsIsPlace(was, r, cur, u, v);
  }

  // ---------------------------------------------------------------------
  // How often
  // ---------------------------------------------------------------------

  /** The shuffles after which x is the first joining server. */
  ghost function JoinsFirst(was: seq<Addr>, b: seq<Addr>, x: Addr): set<seq<nat>> {
    DrawsOfRightLength(|b|);
    set d | d in Draws(|b|) && Joining(was, Shuffled(b, d)) != [] && Joining(was, Shuffled(b, d))[0] == x
  }

  /** The shuffles after which x is the first staying server. */
  ghost function StaysFirst(was: seq<Addr>, b: seq<Addr>, x: Addr): set<seq<nat>> {
    DrawsOfRightLength(|b|);
    set d | d in Draws(|b|) && Staying(was, Shuffled(b, d)) != [] && Staying(was, Shuffled(b, d))[0] == x
  }

  /** The chance that a client that moves lands at x, over a uniform draw v and a uniform shuffle. */
  ghost function DrawnShare(was: seq<Addr>, b: seq<Addr>, x: Addr): real {
    DrawsExist(|b|);
    Mix(ToNew(|was|, |Staying(was, b)|, |Joining(was, b)|),
        |JoinsFirst(was, b, x)|, |StaysFirst(was, b, x)|, |Draws(|b|)|)
  }

  /** j of all shuffles with the chance toNew, st of them with the rest. */
  function Mix(toNew: real, j: nat, st: nat, all: nat): real
    requires all > 0
  {
    toNew * (j as real / all as real) + (1.0 - toNew) * (st as real / all as real)
  }

  /**
    * The chance to land at x over uniform draws u and v and a uniform shuffle, by the case
    * analysis of `LandingByDraws`.
    */
  ghost function DrawnChance(was: seq<Addr>, b: seq<Addr>, cur: Addr, x: Addr): real {
    Weigh(MoveChance(was, b, Contains(b, cur)), DrawnShare(was, b, x), SameHost(cur, x))
  }

  lemma {:induction false} JoiningMember(was: seq<Addr>, r: seq<Addr>, a: Addr)
    ensures a in Joining(was, r) <==> a in r && !Contains(was, a)
  {
    if r != [] {
      JoiningMember(was, r[1..], a);
      assert r == [r[0]] + r[1..];
    }
  }

  lemma DistinctHasNoDuplicates(v: seq<Addr>)
    requires Distinct(v)
    ensures NoDuplicates(v)
  {
    forall i, j | 0 <= i < j < |v| ensures v[i] != v[j] {
      assert !SameHost(v[i], v[j]) && IsInet(v[i]);
    }
  }

  lemma NoDuplicatesBySplit(was: seq<Addr>, b: seq<Addr>)
    requires NoDuplicates(b)
    ensures NoDuplicates(Staying(was, b)) && NoDuplicates(Joining(was, b))
  {
    forall a ensures multiset(Staying(was, b))[a] <= 1 && multiset(Joining(was, b))[a] <= 1 {
      StayingCount(was, b, a);
      OnceInNoDuplicates(b, a);
    }
    AtMostOnce(Staying(was, b));
    AtMostOnce(Joining(was, b));
  }

  lemma AtMostOnce(v: seq<Addr>)
    requires forall a :: multiset(v)[a] <= 1
    ensures NoDuplicates(v)
  {
    forall i, j | 0 <= i < j < |v| ensures v[i] != v[j] {
      if v[i] == v[j] {
        CountedTwice(v, i, j);
      }
    }
  }

  lemma CountedTwice(v: seq<Addr>, i: nat, j: nat)
    requires i < j < |v| && v[i] == v[j]
    ensures multiset(v)[v[i]] >= 2
  {
    var front, back := v[..j], v[j..];
    assert v == front + back;
    assert front[i] == v[i] && back[0] == v[j];
    assert v[i] in multiset(front) && v[i] in multiset(back);
  }

  lemma JoinsFirstFraction(was: seq<Addr>, b: seq<Addr>, x: Addr)
    requires Distinct(b) && x in b
    ensures Contains(was, x) ==> JoinsFirst(was, b, x) == {}
    ensures !Contains(was, x) ==> |Draws(|b|)| == |Joining(was, b)| * |JoinsFirst(was, b, x)|
  {
    var wanted := set a | a in b && !Contains(was, a);
    DistinctHasNoDuplicates(b);
    NoDuplicatesBySplit(was, b);
    DrawsOfRightLength(|b|);
    forall d | d in Draws(|b|)
      ensures Joining(was, Shuffled(b, d)) != [] && Joining(was, Shuffled(b, d))[0] == x <==>
              First(wanted, Shuffled(b, d)) == Some(x)
    {
      ShuffledIsPermutation(b, d);
      SameMembers(b, Shuffled(b, d));
      JoiningKeepsOrder(was, Shuffled(b, d), wanted);
    }
    assert JoinsFirst(was, b, x) == Favouring(b, wanted, x);
    if Contains(was, x) {
      NeverFirst(b, wanted, x);
    } else {
      forall a ensures a in Joining(was, b) <==> a in b && a in wanted { JoiningMember(was, b, a); }
      FavouringFraction(b, wanted, Joining(was, b), x);
    }
  }

  lemma StaysFirstFraction(was: seq<Addr>, b: seq<Addr>, x: Addr)
    requires Distinct(b) && x in b
    ensures !Contains(was, x) ==> StaysFirst(was, b, x) == {}
    ensures Contains(was, x) ==> |Draws(|b|)| == |Staying(was, b)| * |StaysFirst(was, b, x)|
  {
    var wanted := set a | a in b && Contains(was, a);
    DistinctHasNoDuplicates(b);
    NoDuplicatesBySplit(was, b);
    DrawsOfRightLength(|b|);
    forall d | d in Draws(|b|)
      ensures Staying(was, Shuffled(b, d)) != [] && Staying(was, Shuffled(b, d))[0] == x <==>
              First(wanted, Shuffled(b, d)) == Some(x)
    {
      ShuffledIsPermutation(b, d);
      SameMembers(b, Shuffled(b, d));
      StayingKeepsOrder(was, Shuffled(b, d), wanted);
    }
    assert StaysFirst(was, b, x) == Favouring(b, wanted, x);
    if !Contains(was, x) {
      NeverFirst(b, wanted, x);
    } else {
      forall a ensures a in Staying(was, b) <==> a in b && a in wanted { StayingMember(was, b, a); }
      FavouringFraction(b, wanted, Staying(was, b), x);
    }
  }

  lemma NeverFirst(b: seq<Addr>, wanted: set<Addr>, x: Addr)
    requires x !in wanted
    ensures Favouring(b, wanted, x) == {}
  {
    DrawsOfRightLength(|b|);
    forall d | d in Draws(|b|) ensures First(wanted, Shuffled(b, d)) != Some(x) {
      FirstFinds(wanted, Shuffled(b, d));
    }
  }

  lemma FractionOf(all: nat, parts: nat, each: nat)
    requires all == parts * each && all > 0
    ensures parts > 0 && each as real / all as real == 1.0 / parts as real
  {
    RealMul(parts, each);
    var p, e := parts as real, each as real;
    DivMul(1.0, p);
    Swap3(1.0 / p, p, e);
    QuotientIff(1.0 / p, e, p * e);
  }

  /** Counted over all choices, the chance of every server is the one the fairness theorem uses. */
  lemma DrawnChanceIs(was: seq<Addr>, b: seq<Addr>, cur: Addr, x: Addr)
    requires Change(was, b) && x in b && Contains(b, x)
    ensures DrawnChance(was, b, cur, x) == Chance(was, b, cur, x)
  {
    DrawnShareIs(was, b, x);
  }

  lemma DrawnShareIs(was: seq<Addr>, b: seq<Addr>, x: Addr)
    requires Change(was, b) && x in b && Contains(b, x)
    ensures DrawnShare(was, b, x) == Share(was, b, x)
  {
    DrawsExist(|b|);
    JoinsFirstFraction(was, b, x);
    StaysFirstFraction(was, b, x);
    MixIs(ToNew(|was|, |Staying(was, b)|, |Joining(was, b)|), |JoinsFirst(was, b, x)|, |StaysFirst(was, b, x)|,
          |Draws(|b|)|, |Staying(was, b)|, |Joining(was, b)|, Contains(was, x));
  }

  /** One of the two lists holds the server, each of its members coming first equally often. */
  lemma MixIs(toNew: real, j: nat, st: nat, all: nat, o: nat, n: nat, listed: bool)
    requires all > 0 && (listed ==> j == 0 && all == o * st) && (!listed ==> st == 0 && all == n * j)
    ensures (listed ==> o > 0) && (!listed ==> n > 0)
    ensures Mix(toNew, j, st, all) == ShareOf(toNew, o, n, listed)
  {
    if listed {
      FractionOf(all, o, st);
      OverOrTimes(1.0 - toNew, o as real);
      assert j as real / all as real == 0.0;
    } else {
      FractionOf(all, n, j);
      OverOrTimes(toNew, n as real);
      assert st as real / all as real == 0.0;
    }
  }

  lemma OverOrTimes(a: real, b: real)
    requires b != 0.0
    ensures a * (1.0 / b) == a / b
  {
    DivMul(1.0, b);
    Swap3(a, 1.0 / b, b);
    IsQuotient(a * (1.0 / b), a, b);
  }

  /** The expected number of clients at x, one client per given server. */
  ghost function DrawnLoad(was: seq<Addr>, b: seq<Addr>, clients: seq<Addr>, x: Addr): real
  {
    if clients == [] then 0.0 else DrawnChance(was, b, clients[0], x) + DrawnLoad(was, b, clients[1..], x)
  }

  lemma {:induction false} DrawnLoadIs(was: seq<Addr>, b: seq<Addr>, clients: seq<Addr>, x: Addr)
    requires Change(was, b) && x in b && Contains(b, x)
    ensures DrawnLoad(was, b, clients, x) == Expected(was, b, clients, x)
  {
    if clients != [] {
      DrawnChanceIs(was, b, clients[0], x);
      DrawnLoadIs(was, b, clients[1..], x);
    }
  }

  /**
    * Over all shuffles of the new list and all draws: starting from equal load, every server of
    * the new list carries 1 / |b| of the clients if and only if the odds do not matter or are exact.
    */
  lemma FairOverDrawsIff(was: seq<Addr>, b: seq<Addr>, x: Addr)
    requires Change(was, b) && was != [] && x in b
    ensures DrawnLoad(was, b, was, x) / |was| as real == 1.0 / |b| as real <==>
            Balances(|was|, |Staying(was, b)|, |Joining(was, b)|)
  {
    var i :| 0 <= i < |b| && b[i] == x;
    assert SameHost(b[i], x);
    DrawnLoadIs(was, b, was, x);
    RebalancingIsFairIff(was, b, x);
  }
}
