/**
  * Address vectors: membership, round robin and the in-place shuffle.
  */
module AddrVec {

  const AF_UNSPEC: int := 0
  const AF_INET: int := 2
  const AF_INET6: int := 10

  /** A socket address; `ip` stands for the address bytes of its family. */
  datatype Addr = Addr(family: int, ip: nat, port: nat)

  /** An address cleared with memset. */
  const NO_ADDR := Addr(AF_UNSPEC, 0, 0)

  predicate IsInet(a: Addr) {
    a.family == AF_INET || a.family == AF_INET6
  }

  /** What `addrvec_contains` compares: family and address bytes, never the port. */
  predicate SameHost(a: Addr, b: Addr) {
    a.family == b.family && IsInet(a) && a.ip == b.ip
  }

  predicate Contains(v: seq<Addr>, a: Addr) {
    exists i :: 0 <= i < |v| && SameHost(v[i], a)
  }

  /** A resolved server list: internet addresses, pairwise different hosts. */
  predicate Distinct(v: seq<Addr>) {
    && (forall i :: 0 <= i < |v| ==> IsInet(v[i]))
    && (forall i, j :: 0 <= i < j < |v| ==> !SameHost(v[i], v[j]))
  }

  /** Equal counts and every address of the first in the second. */
  predicate SameServers(v: seq<Addr>, w: seq<Addr>) {
    |v| == |w| && forall i :: 0 <= i < |v| ==> Contains(w, v[i])
  }

  class Vec {
    var data: seq<Addr>
    var next: nat

    constructor (addrs: seq<Addr>)
      ensures data == addrs && next == 0
    {
      data, next := addrs, 0;
    }

    method Clear()
      modifies this
      ensures data == [] && next == 0
    {
      data, next := [], 0;
    }

    method Append(a: Addr)
      modifies this`data
      ensures data == old(data) + [a]
    {
      data := data + [a];
    }

    method ContainsAddr(a: Addr) returns (found: bool)
      ensures found <==> Contains(data, a)
    {
      var i := 0;
      while i < |data|
        invariant 0 <= i <= |data|
        invariant forall j :: 0 <= j < i ==> !SameHost(data[j], a)
      {
        if data[i].family == a.family {
          if (a.family == AF_INET || a.family == AF_INET6) && data[i].ip == a.ip {
            return true;
          }
        }
        i := i + 1;
      }
      return false;
    }

    method Equals(other: Vec) returns (same: bool)
      ensures same <==> SameServers(data, other.data)
    {
      if |data| != |other.data| {
        return false;
      }
      var i := 0;
      while i < |data|
        invariant 0 <= i <= |data|
        invariant forall j :: 0 <= j < i ==> Contains(other.data, data[j])
      {
        var found := other.ContainsAddr(data[i]);
        if !found {
          return false;
        }
        i := i + 1;
      }
      return true;
    }

    predicate HasNext()
      reads this
    {
      |data| > 0 && next < |data|
    }

    predicate AtEnd()
      reads this
    {
      |data| > 0 && next >= |data|
    }

    /** Round robin: the address under the cursor, the first one again after the last. */
    method Next() returns (a: Addr)
      modifies this`next
      ensures data == [] ==> a == NO_ADDR && next == old(next)
      ensures data != [] ==> var i := if old(next) >= |data| then 0 else old(next); a == data[i] && next == i + 1
    {
      if AtEnd() {
        next := 0;
      }
      if !HasNext() {
        return NO_ADDR;
      }
      a := data[next];
      next := next + 1;
    }

    /** The shuffle, with the outcomes of `random()` given as a list. */
    method Shuffle(random: seq<nat>)
      requires |random| == |data|
      modifies this`data
      ensures data == Shuffled(old(data), Reduced(random))
      ensures multiset(data) == multiset(old(data))
    {
      ghost var d := Reduced(random);
      SettlingAll(data, d);
      var i := |data| - 1;
      while i > 0
        invariant -1 <= i < |data| == |d|
        invariant Settling(data, i + 1, d) == Shuffled(old(data), d)
      {
        var j := Draw(random[i], i);
        SettlingStep(data, i, d);
        if i != j {
          data := data[i := data[j]][j := data[i]];
        }
        i := i - 1;
      }
      SettlingNone(data, i + 1, d);
      ShuffledIsPermutation(old(data), d);
    }
  }

  // ---------------------------------------------------------------------
  // The shuffle
  // ---------------------------------------------------------------------

  /** The position drawn for i from an outcome of `random()`. */
  function Draw(random: nat, i: nat): (j: nat)
    ensures j <= i
  {
    random % (i + 1)
  }

  /** The draws for every position. */
  function Reduced(random: seq<nat>): (d: seq<nat>)
    ensures |d| == |random| && IsDraws(d) && forall i :: 0 <= i < |d| ==> d[i] == Draw(random[i], i)
  {
    seq(|random|, i requires 0 <= i < |random| => Draw(random[i], i))
  }

  /** One choice for every position i, among the i + 1 positions up to it. */
  predicate IsDraws(d: seq<nat>) {
    forall i :: 0 <= i < |d| ==> d[i] <= i
  }

  function Swap<T>(s: seq<T>, i: nat, j: nat): (t: seq<T>)
    requires i < |s| && j < |s|
    ensures |t| == |s|
  {
    s[i := s[j]][j := s[i]]
  }

  lemma SwapIsPermutation<T>(s: seq<T>, i: nat, j: nat)
    requires i < |s| && j < |s|
    ensures multiset(Swap(s, i, j)) == multiset(s)
  {
  }

  /** Splitting off the last element. */
  lemma MultisetLast<T>(s: seq<T>, i: nat)
    requires |s| == i + 1
    ensures multiset(s) == multiset(s[..i]) + multiset{s[i]}
  {
    assert s == s[..i] + [s[i]];
  }

  /** The last position is settled first; what is left in front of it is shuffled alike. */
  function Shuffled<T>(s: seq<T>, d: seq<nat>): (t: seq<T>)
    requires |d| == |s| && IsDraws(d)
    ensures |t| == |s|
    decreases |s|
  {
    if s == [] then [] else
    var i := |s| - 1;
    var q := Swap(s, i, d[i]);
    Shuffled(q[..i], d[..i]) + [q[i]]
  }

  lemma ShuffledLast<T>(s: seq<T>, d: seq<nat>, i: nat)
    requires |d| == |s| == i + 1 && IsDraws(d)
    ensures var q := Swap(s, i, d[i]); Shuffled(s, d) == Shuffled(q[..i], d[..i]) + [q[i]]
  {
  }

  /** The outcome when the first n positions are still to be shuffled. */
  ghost function Settling(s: seq<Addr>, n: nat, d: seq<nat>): seq<Addr>
    requires n <= |s| == |d| && IsDraws(d)
  {
    Shuffled(s[..n], d[..n]) + s[n..]
  }

  lemma SettlingAll(s: seq<Addr>, d: seq<nat>)
    requires |s| == |d| && IsDraws(d)
    ensures Settling(s, |s|, d) == Shuffled(s, d)
  {
    assert s[..|s|] == s && d[..|s|] == d && s[|s|..] == [];
  }

  lemma SettlingNone(s: seq<Addr>, n: nat, d: seq<nat>)
    requires n <= 1 && n <= |s| == |d| && IsDraws(d)
    ensures Settling(s, n, d) == s
  {
    if n == 1 {
      SettlingStep(s, 0, d);
      assert Swap(s, 0, 0) == s;
    }
    assert s[..0] == [] && s[0..] == s;
  }

  /** One turn of the loop settles position i. */
  lemma SettlingStep(s: seq<Addr>, i: nat, d: seq<nat>)
    requires i < |s| == |d| && IsDraws(d)
    ensures Settling(s, i + 1, d) == Settling(Swap(s, i, d[i]), i, d)
  {
    var p, e, t := s[..i + 1], d[..i + 1], Swap(s, i, d[i]);
    ShuffledLast(p, e, i);
    assert Swap(p, i, e[i])[..i] == t[..i];
    assert e[..i] == d[..i];
    var front := Shuffled(t[..i], d[..i]);
    assert [t[i]] + s[i + 1..] == t[i..];
    assert front + [t[i]] + s[i + 1..] == front + t[i..];
  }

  lemma {:induction false} ShuffledIsPermutation<T>(s: seq<T>, d: seq<nat>)
    requires |d| == |s| && IsDraws(d)
    ensures multiset(Shuffled(s, d)) == multiset(s)
    decreases |s|
  {
    if s != [] {
      var i := |s| - 1;
      var q := Swap(s, i, d[i]);
      ShuffledIsPermutation(q[..i], d[..i]);
      MultisetLast(q, i);
      MultisetLast(Shuffled(s, d), i);
      assert Shuffled(s, d)[..i] == Shuffled(q[..i], d[..i]);
      SwapIsPermutation(s, i, d[i]);
    }
  }

  /** No element occurs twice. */
  predicate NoDuplicates<T(==)>(s: seq<T>) {
    forall i, j :: 0 <= i < j < |s| ==> s[i] != s[j]
  }

  lemma NoDuplicatesAfterSwap<T>(s: seq<T>, i: nat, j: nat)
    requires NoDuplicates(s) && i < |s| && j < |s|
    ensures NoDuplicates(Swap(s, i, j))
  {
  }

  lemma NoDuplicatesPrefix<T>(s: seq<T>, i: nat)
    requires NoDuplicates(s) && i <= |s|
    ensures NoDuplicates(s[..i])
  {
  }

  lemma SameFrontSameLast(d: seq<nat>, e: seq<nat>, i: nat)
    requires |d| == |e| == i + 1 && d[..i] == e[..i] && d[i] == e[i]
    ensures d == e
  {
    assert d == d[..i] + [d[i]] && e == e[..i] + [e[i]];
  }

  lemma MultisetCancel<T>(a: multiset<T>, b: multiset<T>, x: T)
    requires a + multiset{x} == b + multiset{x}
    ensures a == b
  {
    assert a == (a + multiset{x}) - multiset{x};
    assert b == (b + multiset{x}) - multiset{x};
  }

  /** Different draws give different orders ... */
  lemma {:induction false} ShuffledInjective<T>(s: seq<T>, d: seq<nat>, e: seq<nat>)
    requires NoDuplicates(s) && |d| == |e| == |s| && IsDraws(d) && IsDraws(e)
    requires Shuffled(s, d) == Shuffled(s, e)
    ensures d == e
    decreases |s|
  {
    if s != [] {
      var i := |s| - 1;
      LastDrawAgrees(s, d, e, i);
      var q := Swap(s, i, d[i]);
      NoDuplicatesAfterSwap(s, i, d[i]);
      NoDuplicatesPrefix(q, i);
      ShuffledInjective(q[..i], d[..i], e[..i]);
      SameFrontSameLast(d, e, i);
    }
  }

  lemma LastDrawAgrees<T>(s: seq<T>, d: seq<nat>, e: seq<nat>, i: nat)
    requires NoDuplicates(s) && |d| == |e| == |s| == i + 1 && IsDraws(d) && IsDraws(e)
    requires Shuffled(s, d) == Shuffled(s, e)
    ensures d[i] == e[i]
    ensures Shuffled(Swap(s, i, d[i])[..i], d[..i]) == Shuffled(Swap(s, i, d[i])[..i], e[..i])
  {
    ShuffledLast(s, d, i);
    ShuffledLast(s, e, i);
    assert Shuffled(s, d)[i] == s[d[i]];
    assert Shuffled(s, e)[i] == s[e[i]];
    assert Shuffled(s, d)[..i] == Shuffled(Swap(s, i, d[i])[..i], d[..i]);
    assert Shuffled(s, e)[..i] == Shuffled(Swap(s, i, e[i])[..i], e[..i]);
  }

  /** ... and every order is given by some draws: the shuffle is a bijection onto the orders. */
  lemma {:induction false} ShuffledSurjective<T>(s: seq<T>, t: seq<T>) returns (d: seq<nat>)
    requires |t| == |s| && multiset(t) == multiset(s)
    ensures |d| == |s| && IsDraws(d) && Shuffled(s, d) == t
    decreases |s|
  {
    if s == [] {
      d := [];
    } else {
      var i := |s| - 1;
      var j := ChooseLast(s, t, i);
      var e := ShuffledSurjective(Swap(s, i, j)[..i], t[..i]);
      d := e + [j];
      ShuffledSnoc(s, e, j);
      assert t == t[..i] + [t[i]];
    }
  }

  /** The draw that puts the wanted element last, leaving the wanted elements in front. */
  lemma ChooseLast<T>(s: seq<T>, t: seq<T>, i: nat) returns (j: nat)
    requires |s| == |t| == i + 1 && multiset(t) == multiset(s)
    ensures j <= i && s[j] == t[i] && multiset(t[..i]) == multiset(Swap(s, i, j)[..i])
  {
    MultisetLast(t, i);
    assert t[i] in multiset(t);
    j := IndexOf(s, t[i]);
    var q := Swap(s, i, j);
    SwapIsPermutation(s, i, j);
    MultisetLast(q, i);
    MultisetCancel(multiset(q[..i]), multiset(t[..i]), t[i]);
  }

  lemma ShuffledSnoc<T>(s: seq<T>, e: seq<nat>, j: nat)
    requires |s| == |e| + 1 && j <= |e| && IsDraws(e)
    ensures IsDraws(e + [j])
    ensures Shuffled(s, e + [j]) == Shuffled(Swap(s, |e|, j)[..|e|], e) + [s[j]]
  {
    assert (e + [j])[..|e|] == e;
    ShuffledLast(s, e + [j], |e|);
  }

  lemma IndexOf<T>(s: seq<T>, x: T) returns (j: nat)
    requires x in multiset(s)
    ensures j < |s| && s[j] == x
  {
    assert x in s;
    j :| j < |s| && s[j] == x;
  }

  // ---------------------------------------------------------------------
  // Ports and draws
  // ---------------------------------------------------------------------

  /** A change of ports alone is no change: the lists count as the same servers. */
  lemma PortsDoNotMatter(v: seq<Addr>, w: seq<Addr>)
    requires |v| == |w| && Distinct(v) && forall i :: 0 <= i < |v| ==> v[i].family == w[i].family && v[i].ip == w[i].ip
    ensures SameServers(v, w)
  {
    forall i | 0 <= i < |v| ensures Contains(w, v[i]) {
      assert SameHost(w[i], v[i]);
    }
  }

  /** A server that no old one shares family (IPv4, 2, or IPv6, 10) and address with is new. */
  lemma HostsMatter(v: seq<Addr>, a: Addr)
    ensures Contains(v, a) <==> (a.family == 2 || a.family == 10) && exists i :: 0 <= i < |v| && v[i].family == a.family && v[i].ip == a.ip
  {
  }

  /** Over each stretch of i + 1 outcomes of `random()` every position up to i is drawn once. */
  lemma EveryPositionDrawn(i: nat, from: nat, j: nat)
    requires j <= i
    ensures exists r :: from <= r <= from + i && Draw(r, i) == j && forall q :: from <= q <= from + i && Draw(q, i) == j ==> q == r
  {
    var m, c := i + 1, from / (i + 1);
    var r := if j >= from % m then c * m + j else (c + 1) * m + j;
    assert from == c * m + from % m;
    DrawOfMultiple(if j >= from % m then c else c + 1, i, j);
    assert from <= r <= from + i && Draw(r, i) == j;
    forall q | from <= q <= from + i && Draw(q, i) == j ensures q == r {
      DrawApart(q, r, i);
    }
  }

  lemma DrawOfMultiple(c: nat, i: nat, j: nat)
    requires j <= i
    ensures c * (i + 1) + j >= 0 && Draw(c * (i + 1) + j, i) == j
  {
    var m, x := i + 1, c * (i + 1) + j;
    assert x == x / m * m + x % m;
    assert (x / m - c) * m == j - x % m;
    OnlyZero(x / m - c, m, j - x % m);
  }

  /** Two outcomes with the same draw are a multiple of i + 1 apart. */
  lemma DrawApart(q: nat, r: nat, i: nat)
    requires Draw(q, i) == Draw(r, i) && r <= q + i && q <= r + i
    ensures q == r
  {
    var m := i + 1;
    assert q == q / m * m + q % m && r == r / m * m + r % m;
    assert (q / m - r / m) * m == q - r;
    OnlyZero(q / m - r / m, m, q - r);
  }

  lemma OnlyZero(k: int, m: int, d: int)
    requires m > 0 && k * m == d && -m < d < m
    ensures k == 0
  {
  }
}
