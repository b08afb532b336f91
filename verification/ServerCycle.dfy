/**
  * Choosing the next server: while reconfiguring, servers are taken from the joining and the
  * staying list by lot until both are used up, then round robin resumes.
  */
module ServerCycle {
  import opened AddrVec
  import opened Rebalance

  /** What is left to try, and where round robin stands. */
  datatype Cursor = Cursor(reconfig: bool, pNew: Double, toTryNew: seq<Addr>, toTryOld: seq<Addr>, addrs: seq<Addr>, next: nat)

  datatype Choice = Choice(server: Addr, cursor: Cursor)

  /** One call of `zoo_cycle_next_server` with the given random draw. */
  function Cycle(c: Cursor, draw: real): Choice {
    if c.reconfig && c.toTryNew != [] && (Within(draw, c.pNew) || c.toTryOld == []) then
      Choice(c.toTryNew[0], c.(toTryNew := c.toTryNew[1..]))
    else if c.reconfig && c.toTryOld != [] then
      Choice(c.toTryOld[0], c.(toTryOld := c.toTryOld[1..]))
    else
      RoundRobin(c.(reconfig := false))
  }

  function RoundRobin(c: Cursor): Choice {
    if c.addrs == [] then Choice(NO_ADDR, c)
    else
      var i := if c.next >= |c.addrs| then 0 else c.next;
      Choice(c.addrs[i], c.(next := i + 1))
  }

  /** The servers returned by successive calls, and the state after them. */
  function Tried(c: Cursor, draws: seq<real>): seq<Addr>
    decreases |draws|
  {
    if draws == [] then [] else [Cycle(c, draws[0]).server] + Tried(Cycle(c, draws[0]).cursor, draws[1..])
  }

  function After(c: Cursor, draws: seq<real>): Cursor
    decreases |draws|
  {
    if draws == [] then c else After(Cycle(c, draws[0]).cursor, draws[1..])
  }

  /** The next server as the handle computes it, in place. */
  method CycleNextServer(zh: ServerList, draw: real)
    requires zh.Valid()
    modifies zh`addrCur, zh`reconfig, zh.addrs`next, zh.addrsOld`next, zh.addrsNew`next
    ensures var r := Cycle(old(CursorOf(zh)), draw); zh.addrCur == r.server && CursorOf(zh) == r.cursor
  {
    zh.addrCur := NO_ADDR;
    if zh.reconfig {
      var taken := NextInReconfig(zh, draw);
      if taken {
        return;
      }
      zh.reconfig := false;
    }
    zh.addrCur := zh.addrs.Next();
  }

  method NextInReconfig(zh: ServerList, draw: real) returns (taken: bool)
    requires zh.Valid()
    modifies zh`addrCur, zh.addrsOld`next, zh.addrsNew`next
    ensures var c := old(CursorOf(zh));
            && taken == (c.toTryNew != [] || c.toTryOld != [])
            && (taken ==> Choice(zh.addrCur, CursorOf(zh)) == Cycle(c.(reconfig := true), draw).(cursor :=
                                                              Cycle(c.(reconfig := true), draw).cursor.(reconfig := c.reconfig)))
            && (!taken ==> CursorOf(zh) == c)
  {
    var takeNew := Within(draw, zh.pNew);
    if zh.addrsNew.HasNext() && (takeNew || !zh.addrsOld.HasNext()) {
      zh.addrCur := zh.addrsNew.Next();
      return true;
    }
    if zh.addrsOld.HasNext() {
      zh.addrCur := zh.addrsOld.Next();
      return true;
    }
    zh.addrCur := NO_ADDR;
    return false;
  }

  function Left(v: Vec): seq<Addr>
    reads v
  {
    if v.next <= |v.data| then v.data[v.next..] else []
  }

  function CursorOf(zh: ServerList): Cursor
    reads zh, zh.addrs, zh.addrsOld, zh.addrsNew
  {
    Cursor(zh.reconfig, zh.pNew, Left(zh.addrsNew), Left(zh.addrsOld), zh.addrs.data, zh.addrs.next)
  }

  // ---------------------------------------------------------------------
  // Every server once
  // ---------------------------------------------------------------------

  /** A call in reconfiguration takes the head of one list. */
  lemma CycleTakesHead(c: Cursor, draw: real)
    requires c.reconfig && (c.toTryNew != [] || c.toTryOld != [])
    ensures var r := Cycle(c, draw);
            && r.cursor == c.(toTryNew := r.cursor.toTryNew, toTryOld := r.cursor.toTryOld)
            && |r.cursor.toTryNew| + |r.cursor.toTryOld| + 1 == |c.toTryNew| + |c.toTryOld|
            && multiset{r.server} + (multiset(r.cursor.toTryNew) + multiset(r.cursor.toTryOld))
               == multiset(c.toTryNew) + multiset(c.toTryOld)
  {
    var r := Cycle(c, draw);
    if c.toTryNew != [] && (Within(draw, c.pNew) || c.toTryOld == []) {
      assert c.toTryNew == [r.server] + r.cursor.toTryNew;
    } else {
      assert c.toTryOld == [r.server] + r.cursor.toTryOld;
    }
  }

  /**
    * Whatever the draws, the calls made in reconfiguration return every server of both lists
    * exactly once; only then does a call end the reconfiguration.
    */
  lemma {:induction false} EveryServerOnce(c: Cursor, draws: seq<real>)
    requires c.reconfig && |draws| == |c.toTryNew| + |c.toTryOld|
    ensures multiset(Tried(c, draws)) == multiset(c.toTryNew) + multiset(c.toTryOld)
    ensures After(c, draws) == c.(toTryNew := [], toTryOld := [])
    decreases |draws|
  {
    if draws != [] {
      CycleTakesHead(c, draws[0]);
      EveryServerOnce(Cycle(c, draws[0]).cursor, draws[1..]);
    }
  }

  /** Where round robin stands. */
  function Position(c: Cursor): (i: nat)
    requires c.addrs != []
    ensures i < |c.addrs|
  {
    if c.next >= |c.addrs| then 0 else c.next
  }

  lemma CycleAround(c: Cursor, draw: real)
    requires (!c.reconfig || (c.toTryNew == [] && c.toTryOld == [])) && c.addrs != []
    ensures var r := Cycle(c, draw);
            && r.server == c.addrs[Position(c)] && !r.cursor.reconfig && r.cursor.addrs == c.addrs
            && Position(r.cursor) == (if Position(c) + 1 == |c.addrs| then 0 else Position(c) + 1)
  {
  }

  /** With both lists used up every further call is round robin, from where it stood, for good. */
  lemma {:induction false} RoundRobinResumes(c: Cursor, draws: seq<real>, k: nat)
    requires !c.reconfig || (c.toTryNew == [] && c.toTryOld == [])
    requires c.addrs != [] && k < |draws|
    ensures |Tried(c, draws)| > k && !After(c, draws).reconfig
    ensures Tried(c, draws)[k] == c.addrs[(Position(c) + k) % |c.addrs|]
    decreases |draws|
  {
    CycleAround(c, draws[0]);
    var c' := Cycle(c, draws[0]).cursor;
    if |draws| > 1 {
      RoundRobinResumes(c', draws[1..], if k > 0 then k - 1 else 0);
    }
    SmallMod(Position(c), |c.addrs|);
    if k > 0 {
      WrapOnce(Position(c), k, |c.addrs|);
    }
  }

  lemma SmallMod(i: nat, n: nat)
    requires i < n
    ensures i % n == i
  {
  }

  /** Starting over after the last address is counting on modulo the size. */
  lemma WrapOnce(i: nat, k: nat, n: nat)
    requires i < n && k > 0
    ensures ((if i + 1 == n then 0 else i + 1) + (k - 1)) % n == (i + k) % n
  {
    if i + 1 == n {
      var m := k - 1;
      ModUnique(m + n, n, m / n + 1, m % n);
    }
  }

  lemma ModUnique(x: nat, n: nat, q: nat, r: nat)
    requires n > 0 && r < n && x == n * q + r
    ensures x % n == r
  {
    var d := x / n - q;
    assert n * (x / n) == n * q + n * d;
    Multiple(n, d);
  }

  lemma Multiple(n: int, d: int)
    requires n > 0
    ensures d == 0 || n * d >= n || n * d <= 0 - n
  {
  }

  /** With odds of one all joining servers are tried before any that stayed. */
  lemma {:induction false} JoiningFirst(c: Cursor, draws: seq<real>)
    requires c.reconfig && c.pNew == Finite(1.0) && |draws| == |c.toTryNew| + |c.toTryOld|
    requires forall i :: 0 <= i < |draws| ==> 0.0 <= draws[i] < 1.0
    ensures Tried(c, draws) == c.toTryNew + c.toTryOld
    decreases |draws|
  {
    if draws != [] {
      var r := Cycle(c, draws[0]);
      assert draws[0] < 1.0;
      forall i | 0 <= i < |draws[1..]| ensures 0.0 <= draws[1..][i] < 1.0 { assert draws[1..][i] == draws[i + 1]; }
      JoiningFirst(r.cursor, draws[1..]);
      if c.toTryNew != [] {
        assert c.toTryNew == [c.toTryNew[0]] + r.cursor.toTryNew;
      } else {
        assert c.toTryOld == [c.toTryOld[0]] + r.cursor.toTryOld;
      }
    }
  }

  /** After a change of the list, the servers tried are exactly the new list's, each once. */
  lemma NewListTriedOnce(was: seq<Addr>, r: seq<Addr>, c: Cursor, draws: seq<real>)
    requires c.reconfig && c.toTryNew == Joining(was, r) && c.toTryOld == Staying(was, r) && |draws| == |r|
    ensures multiset(Tried(c, draws)) == multiset(r)
    ensures After(c, draws).toTryNew == [] && After(c, draws).toTryOld == [] && After(c, draws).reconfig
  {
    SplitCounts(was, r);
    EveryServerOnce(c, draws);
  }

  /** The first choice follows the odds whenever both lists hold a server. */
  lemma FirstChoiceByOdds(c: Cursor, draw: real)
    requires c.reconfig && NoDuplicates(c.toTryNew + c.toTryOld) && c.toTryNew + c.toTryOld != []
    ensures Cycle(c, draw).server in c.toTryNew <==> c.toTryNew != [] && (Within(draw, c.pNew) || c.toTryOld == [])
    ensures Cycle(c, draw).server in c.toTryOld <==> !(Cycle(c, draw).server in c.toTryNew)
  {
    var all, k := c.toTryNew + c.toTryOld, |c.toTryNew|;
    forall i, j | 0 <= i < k && 0 <= j < |c.toTryOld| ensures c.toTryNew[i] != c.toTryOld[j] {
      assert all[i] == c.toTryNew[i] && all[k + j] == c.toTryOld[j];
    }
  }
}
