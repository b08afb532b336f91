/**
  * The shuffle makes every server of a kind equally likely to come first: what the fairness of
  * a reconnection relies on when it takes the next server of a list.
  */
module Uniform {
  import opened Common
  import opened AddrVec
  import opened Rebalance

  /** All outcomes of the random choices of a shuffle of n addresses. */
  ghost function Draws(n: nat): set<seq<nat>> {
    if n == 0 then {[]}
    else set d, j | d in Draws(n - 1) && j in Upto(n) :: d + [j]
  }

  function Upto(n: nat): (u: set<nat>)
    ensures forall k: nat :: k in u <==> k < n
  {
    if n == 0 then {} else Upto(n - 1) + {n - 1}
  }

  lemma {:induction false} DrawsAreDraws(n: nat, d: seq<nat>)
    ensures d in Draws(n) <==> |d| == n && IsDraws(d)
  {
    if n > 0 {
      if d in Draws(n) {
        var e, j :| e in Draws(n - 1) && j in Upto(n) && d == e + [j];
        DrawsAreDraws(n - 1, e);
      }
      if |d| == n && IsDraws(d) {
        var e, j := d[..n - 1], d[n - 1];
        DrawsAreDraws(n - 1, e);
        assert d == e + [j];
      }
    }
  }

  /** The first of the wanted addresses. */
  function First(wanted: set<Addr>, v: seq<Addr>): Option<Addr> {
    if v == [] then None else if v[0] in wanted then Some(v[0]) else First(wanted, v[1..])
  }

  /** The choices after which x is the first wanted address. */
  ghost function Favouring(s: seq<Addr>, wanted: set<Addr>, x: Addr): set<seq<nat>> {
    DrawsOfRightLength(|s|);
    set d | d in Draws(|s|) && First(wanted, Shuffled(s, d)) == Some(x)
  }

  lemma DrawsOfRightLength(n: nat)
    ensures forall d :: d in Draws(n) ==> |d| == n && IsDraws(d)
  {
    forall d | d in Draws(n) ensures |d| == n && IsDraws(d) { DrawsAreDraws(n, d); }
  }

  // ---------------------------------------------------------------------
  // Exchanging two addresses
  // ---------------------------------------------------------------------

  function Other(x: Addr, y: Addr, a: Addr): Addr {
    if a == x then y else if a == y then x else a
  }

  function Exchange(v: seq<Addr>, x: Addr, y: Addr): (w: seq<Addr>)
    ensures |w| == |v| && forall i :: 0 <= i < |v| ==> w[i] == Other(x, y, v[i])
  {
    seq(|v|, i requires 0 <= i < |v| => Other(x, y, v[i]))
  }

  lemma {:induction false} FirstAfterExchange(wanted: set<Addr>, v: seq<Addr>, x: Addr, y: Addr)
    requires x in wanted && y in wanted && First(wanted, v) == Some(x)
    ensures First(wanted, Exchange(v, x, y)) == Some(y)
  {
    if v[0] != x {
      assert Exchange(v, x, y)[1..] == Exchange(v[1..], x, y);
      FirstAfterExchange(wanted, v[1..], x, y);
    }
  }

  lemma ExchangeTwice(v: seq<Addr>, w: seq<Addr>, x: Addr, y: Addr)
    requires Exchange(v, x, y) == Exchange(w, x, y)
    ensures v == w
  {
    assert |v| == |Exchange(v, x, y)| == |w|;
    forall i | 0 <= i < |v| ensures v[i] == w[i] {
      assert Exchange(v, x, y)[i] == Exchange(w, x, y)[i];
    }
  }

  /** An order of distinct addresses that holds both stays an order of the same addresses. */
  lemma ExchangeIsPermutation(v: seq<Addr>, x: Addr, y: Addr)
    requires NoDuplicates(v) && x in v && y in v
    ensures multiset(Exchange(v, x, y)) == multiset(v)
  {
    var i :| 0 <= i < |v| && v[i] == x;
    var j :| 0 <= j < |v| && v[j] == y;
    assert Exchange(v, x, y) == Swap(v, i, j);
    SwapIsPermutation(v, i, j);
  }

  lemma NoDuplicatesInPermutation(s: seq<Addr>, t: seq<Addr>)
    requires NoDuplicates(s) && multiset(s) == multiset(t)
    ensures NoDuplicates(t)
  {
    forall i, j | 0 <= i < j < |t| ensures t[i] != t[j] {
      if t[i] == t[j] {
        var rest := t[..i] + t[i + 1..];
        assert t == t[..i] + [t[i]] + t[i + 1..];
        assert t[j] == rest[j - 1];
        assert t[j] in multiset(rest);
        assert multiset(t)[t[i]] >= 2;
        OnceInNoDuplicates(s, t[i]);
      }
    }
  }

  lemma {:induction false} OnceInNoDuplicates(s: seq<Addr>, a: Addr)
    requires NoDuplicates(s)
    ensures multiset(s)[a] <= 1
  {
    if s != [] {
      assert s == [s[0]] + s[1..];
      OnceInNoDuplicates(s[1..], a);
      if s[0] == a {
        assert a !in s[1..];
      }
    }
  }

  // ---------------------------------------------------------------------
  // Counting
  // ---------------------------------------------------------------------

  /** Choices d and e lead to orders that differ by exchanging x and y. */
  ghost predicate Twins(s: seq<Addr>, x: Addr, y: Addr, d: seq<nat>, e: seq<nat>) {
    && |d| == |s| && IsDraws(d) && |e| == |s| && IsDraws(e)
    && Shuffled(s, e) == Exchange(Shuffled(s, d), x, y)
  }

  lemma TwinExists(s: seq<Addr>, wanted: set<Addr>, x: Addr, y: Addr, d: seq<nat>) returns (e: seq<nat>)
    requires NoDuplicates(s) && x in s && y in s && x in wanted && y in wanted && d in Favouring(s, wanted, x)
    ensures Twins(s, x, y, d, e) && e in Favouring(s, wanted, y)
  {
    DrawsAreDraws(|s|, d);
    var t := Shuffled(s, d);
    ShuffledIsPermutation(s, d);
    NoDuplicatesInPermutation(s, t);
    assert x in multiset(t) && y in multiset(t);
    ExchangeIsPermutation(t, x, y);
    FirstAfterExchange(wanted, t, x, y);
    e := ShuffledSurjective(s, Exchange(t, x, y));
    DrawsAreDraws(|s|, e);
  }

  lemma TwinUnique(s: seq<Addr>, x: Addr, y: Addr, d: seq<nat>, d': seq<nat>, e: seq<nat>)
    requires NoDuplicates(s) && Twins(s, x, y, d, e) && Twins(s, x, y, d', e)
    ensures d == d'
  {
    ExchangeTwice(Shuffled(s, d), Shuffled(s, d'), x, y);
    ShuffledInjective(s, d, d');
  }

  /** Every choice in a has a twin in b. */
  lemma {:induction false} AtMost(s: seq<Addr>, x: Addr, y: Addr, a: set<seq<nat>>, b: set<seq<nat>>)
    requires NoDuplicates(s)
    requires forall d :: d in a ==> exists e :: e in b && Twins(s, x, y, d, e)
    ensures |a| <= |b|
    decreases |a|
  {
    if a != {} {
      var d :| d in a;
      var e :| e in b && Twins(s, x, y, d, e);
      forall d' | d' in a - {d} ensures exists e' :: e' in b - {e} && Twins(s, x, y, d', e') {
        var e' :| e' in b && Twins(s, x, y, d', e');
        if e' == e {
          TwinUnique(s, x, y, d, d', e);
        }
        assert e' in b - {e};
      }
      AtMost(s, x, y, a - {d}, b - {e});
    }
  }

  lemma FavouringAtMost(s: seq<Addr>, wanted: set<Addr>, x: Addr, y: Addr)
    requires NoDuplicates(s) && x in s && y in s && x in wanted && y in wanted
    ensures |Favouring(s, wanted, x)| <= |Favouring(s, wanted, y)|
  {
    var a, b := Favouring(s, wanted, x), Favouring(s, wanted, y);
    forall d | d in a ensures exists e :: e in b && Twins(s, x, y, d, e) {
      var e := TwinExists(s, wanted, x, y, d);
    }
    AtMost(s, x, y, a, b);
  }

  /** Of the wanted addresses, each comes first after equally many outcomes of the shuffle. */
  lemma ShuffleIsUniform(s: seq<Addr>, wanted: set<Addr>, x: Addr, y: Addr)
    requires NoDuplicates(s) && x in s && y in s && x in wanted && y in wanted
    ensures |Favouring(s, wanted, x)| == |Favouring(s, wanted, y)|
  {
    FavouringAtMost(s, wanted, x, y);
    FavouringAtMost(s, wanted, y, x);
  }

  /** The list of joining servers starts with the first of them in the resolved order. */
  lemma {:induction false} JoiningKeepsOrder(was: seq<Addr>, r: seq<Addr>, wanted: set<Addr>)
    requires forall a :: a in r ==> (a in wanted <==> !Contains(was, a))
    ensures First(wanted, r) == if Joining(was, r) == [] then None else Some(Joining(was, r)[0])
  {
    if r != [] {
      assert forall a :: a in r[1..] ==> a in r;
      JoiningKeepsOrder(was, r[1..], wanted);
      assert r[0] in r;
    }
  }

  /** The list of staying servers likewise. */
  lemma {:induction false} StayingKeepsOrder(was: seq<Addr>, r: seq<Addr>, wanted: set<Addr>)
    requires forall a :: a in r ==> (a in wanted <==> Contains(was, a))
    ensures First(wanted, r) == if Staying(was, r) == [] then None else Some(Staying(was, r)[0])
  {
    if r != [] {
      assert forall a :: a in r[1..] ==> a in r;
      StayingKeepsOrder(was, r[1..], wanted);
      assert r[0] in r;
    }
  }

  // ---------------------------------------------------------------------
  // How often each comes first
  // ---------------------------------------------------------------------

  lemma {:induction false} FirstFinds(wanted: set<Addr>, v: seq<Addr>)
    ensures First(wanted, v).Some? <==> exists a :: a in v && a in wanted
    ensures First(wanted, v).Some? ==> First(wanted, v).value in v && First(wanted, v).value in wanted
  {
    if v != [] {
      FirstFinds(wanted, v[1..]);
      assert v == [v[0]] + v[1..];
      assert v[0] in v;
    }
  }

  /** The choices after which one of the first k of the given addresses is the first wanted one. */
  ghost function FavouringAny(s: seq<Addr>, wanted: set<Addr>, ws: seq<Addr>, k: nat): set<seq<nat>>
    requires k <= |ws|
  {
    DrawsOfRightLength(|s|);
    set d | d in Draws(|s|) && First(wanted, Shuffled(s, d)).Some? && First(wanted, Shuffled(s, d)).value in ws[..k]
  }

  lemma {:induction false} FavouringCounts(s: seq<Addr>, wanted: set<Addr>, ws: seq<Addr>, k: nat, x: Addr)
    requires NoDuplicates(s) && NoDuplicates(ws) && k <= |ws| && x in s && x in wanted
    requires forall i :: 0 <= i < |ws| ==> ws[i] in s && ws[i] in wanted
    ensures |FavouringAny(s, wanted, ws, k)| == k * |Favouring(s, wanted, x)|
  {
    if k == 0 {
      assert FavouringAny(s, wanted, ws, 0) == {};
    } else {
      var y := ws[k - 1];
      FavouringCounts(s, wanted, ws, k - 1, x);
      ShuffleIsUniform(s, wanted, x, y);
      FavouringStep(s, wanted, ws, k - 1);
      AddOneMore(k, |Favouring(s, wanted, x)|);
    }
  }

  lemma AddOneMore(k: nat, n: nat)
    requires k > 0
    ensures k * n == (k - 1) * n + n
  {
  }

  lemma FavouringStep(s: seq<Addr>, wanted: set<Addr>, ws: seq<Addr>, k: nat)
    requires NoDuplicates(ws) && k < |ws|
    ensures |FavouringAny(s, wanted, ws, k + 1)| == |FavouringAny(s, wanted, ws, k)| + |Favouring(s, wanted, ws[k])|
  {
    var before, now := FavouringAny(s, wanted, ws, k), Favouring(s, wanted, ws[k]);
    assert ws[..k + 1] == ws[..k] + [ws[k]];
    assert FavouringAny(s, wanted, ws, k + 1) == before + now;
    assert ws[k] !in ws[..k];
    assert before !! now;
  }

  /** Every wanted address comes first after the same fraction of all outcomes, one in |ws|. */
  lemma FavouringFraction(s: seq<Addr>, wanted: set<Addr>, ws: seq<Addr>, x: Addr)
    requires NoDuplicates(s) && NoDuplicates(ws) && x in s && x in wanted
    requires forall a :: a in ws <==> a in s && a in wanted
    ensures |Draws(|s|)| == |ws| * |Favouring(s, wanted, x)|
  {
    FavouringCounts(s, wanted, ws, |ws|, x);
    assert ws[..|ws|] == ws;
    DrawsOfRightLength(|s|);
    forall d | d in Draws(|s|) ensures d in FavouringAny(s, wanted, ws, |ws|) {
      var t := Shuffled(s, d);
      ShuffledIsPermutation(s, d);
      SameMembers(s, t);
      FirstFinds(wanted, t);
    }
    assert FavouringAny(s, wanted, ws, |ws|) == Draws(|s|);
  }

  lemma SameMembers(s: seq<Addr>, t: seq<Addr>)
    requires multiset(s) == multiset(t)
    ensures forall a :: a in s <==> a in t
  {
    forall a ensures a in s <==> a in t {
      assert a in s <==> a in multiset(s);
      assert a in t <==> a in multiset(t);
    }
  }

  lemma {:induction false} DrawsExist(n: nat)
    ensures Draws(n) != {}
  {
    if n > 0 {
      DrawsExist(n - 1);
      var d :| d in Draws(n - 1);
      assert d + [0] in Draws(n);
    }
  }
}
