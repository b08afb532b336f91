/**
  * The chained hash table under the watch manager: heap-allocated entries linked into buckets,
  * and a table that is replaced by a larger one as it fills.
  */
module HashTable {
  import opened Common

  const PRIMES: seq<nat> := [
    53, 97, 193, 389, 769, 1543, 3079, 6151, 12289, 24593, 49157, 98317, 196613, 393241, 786433, 1572869,
    3145739, 6291469, 12582917, 25165843, 50331653, 100663319, 201326611, 402653189, 805306457, 1610612741]

  /** The bucket of a hash value. */
  function IndexFor(length: nat, h: nat): (i: nat)
    requires length > 0
    ensures i < length
  {
    h % length
  }

  /** The hash value of a key; the table works with any hash function. */
  function HashOf(hashfn: string -> nat, k: string): nat {
    hashfn(k)
  }

  /** The load limit of a table, 0.65 of its size rounded up. */
  function LoadLimit(size: nat): nat {
    (size * 65 + 99) / 100
  }

  /** Every table is at least two buckets larger than the one before, so its limit is higher. */
  lemma LimitsGrow(i: nat)
    requires i < |PRIMES|
    ensures i < |PRIMES| - 1 ==> LoadLimit(PRIMES[i]) < LoadLimit(PRIMES[i + 1])
  {
    if i < |PRIMES| - 1 {
      assert PRIMES[i] + 2 <= PRIMES[i + 1];
    }
  }

  class Entry<V> {
    const k: string
    const v: V
    const h: nat
    var next: Entry?<V>

    constructor (k: string, v: V, h: nat, next: Entry?<V>)
      ensures this.k == k && this.v == v && this.h == h && this.next == next
    {
      this.k, this.v, this.h, this.next := k, v, h, next;
    }
  }

  // ---------------------------------------------------------------------
  // Shapes
  // ---------------------------------------------------------------------

  /** The entries of a chain, in order from its head. */
  ghost predicate IsChain<V>(head: Entry?<V>, c: seq<Entry<V>>)
    reads c
  {
    && (c == [] ==> head == null)
    && (c != [] ==> head == c[0] && c[|c| - 1].next == null)
    && forall j :: 0 <= j < |c| - 1 ==> c[j].next == c[j + 1]
  }

  /** Every bucket's list is the given chain of the given entries. */
  ghost predicate Linked<V>(table: array<Entry?<V>>, cs: seq<seq<Entry<V>>>, nodes: set<Entry<V>>)
    reads table, nodes
  {
    && |cs| == table.Length
    && forall i :: 0 <= i < |cs| ==> LinkedAt(table, cs, nodes, i)
  }

  ghost predicate LinkedAt<V>(table: array<Entry?<V>>, cs: seq<seq<Entry<V>>>, nodes: set<Entry<V>>, i: nat)
    requires i < |cs| == table.Length
    reads table, nodes
  {
    Within(cs[i], nodes) && IsChain(table[i], cs[i])
  }

  ghost predicate Within<V>(c: seq<Entry<V>>, nodes: set<Entry<V>>) {
    forall e :: e in c ==> e in nodes
  }

  ghost predicate HasKey<V>(c: seq<Entry<V>>, k: string) {
    exists j :: 0 <= j < |c| && c[j].k == k
  }

  /** Chain i of n: its entries hash there, carry different keys, and are entries of the map. */
  ghost predicate GoodChain<V>(c: seq<Entry<V>>, i: nat, n: nat, hashfn: string -> nat, m: map<string, V>)
    requires n > 0
  {
    && (forall j :: 0 <= j < |c| ==> c[j].h == HashOf(hashfn, c[j].k) && IndexFor(n, c[j].h) == i)
    && (forall j, l :: 0 <= j < l < |c| ==> c[j].k != c[l].k)
    && (forall j :: 0 <= j < |c| ==> c[j].k in m && m[c[j].k] == c[j].v)
  }

  /** The chains hold exactly the map, every entry in the bucket of its hash value. */
  ghost predicate Layout<V>(cs: seq<seq<Entry<V>>>, hashfn: string -> nat, m: map<string, V>) {
    && |cs| > 0
    && (forall i :: 0 <= i < |cs| ==> GoodAt(cs, i, hashfn, m))
    && (forall k {:trigger KeyAt(cs, hashfn, k)} :: k in m ==> KeyAt(cs, hashfn, k))
  }

  ghost predicate GoodAt<V>(cs: seq<seq<Entry<V>>>, i: nat, hashfn: string -> nat, m: map<string, V>)
    requires i < |cs|
  {
    GoodChain(cs[i], i, |cs|, hashfn, m)
  }

  ghost predicate KeyAt<V>(cs: seq<seq<Entry<V>>>, hashfn: string -> nat, k: string)
    requires |cs| > 0
  {
    HasKey(cs[IndexFor(|cs|, HashOf(hashfn, k))], k)
  }

  /** Walks a chain for a key; `prev` is the entry whose link leads to the one found. */
  method FindInChain<V>(head: Entry?<V>, hashvalue: nat, k: string, ghost c: seq<Entry<V>>)
    returns (prev: Entry?<V>, e: Entry?<V>, ghost j: nat)
    requires IsChain(head, c)
    requires forall l :: 0 <= l < |c| && c[l].k == k ==> c[l].h == hashvalue
    ensures e == null ==> forall l :: 0 <= l < |c| ==> c[l].k != k
    ensures e != null ==> j < |c| && e == c[j] && e.k == k && prev == (if j == 0 then null else c[j - 1])
  {
    prev, e, j := null, head, 0;
    while e != null
      invariant 0 <= j <= |c|
      invariant j < |c| ==> e == c[j]
      invariant j == |c| ==> e == null
      invariant prev == (if j == 0 then null else c[j - 1])
      invariant forall l :: 0 <= l < j ==> c[l].k != k
      decreases |c| - j
    {
      if hashvalue == e.h && k == e.k {
        return;
      }
      prev := e;
      e := e.next;
      j := j + 1;
    }
  }

  class Table<V> {
    const hashfn: string -> nat
    var table: array<Entry?<V>>
    var entrycount: nat
    var loadlimit: nat
    var primeindex: nat
    ghost var chains: seq<seq<Entry<V>>>
    ghost var nodes: set<Entry<V>>
    ghost var M: map<string, V>

    /** The table has one of the prime sizes and its chains hold the map. */
    ghost predicate Shaped()
      reads this, table, nodes
    {
      && primeindex < |PRIMES| && table.Length == PRIMES[primeindex] && loadlimit == LoadLimit(table.Length)
      && Linked(table, chains, nodes) && Layout(chains, hashfn, M)
    }

    ghost predicate Valid()
      reads this, table, nodes
    {
      Shaped() && entrycount == |M| && (entrycount <= loadlimit || primeindex == |PRIMES| - 1)
    }

    /** Fewer entries than 0.65 times the buckets, plus one, unless the table cannot grow any more. */
    lemma LoadIsBounded()
      requires Valid()
      ensures |M| * 100 < table.Length * 65 + 100 || table.Length == 1610612741
    {
    }

    /** The first prime above the requested size; one exists for every size the code admits. */
    constructor (minsize: nat, hashfn: string -> nat)
      requires minsize <= 0x4000_0000
      ensures Valid() && M == map[] && fresh(table) && nodes == {} && this.hashfn == hashfn
      ensures table.Length > minsize && forall i :: 0 <= i < primeindex ==> PRIMES[i] <= minsize
    {
      var pindex := 0;
      assert PRIMES[25] > minsize;
      while PRIMES[pindex] <= minsize
        invariant 0 <= pindex < |PRIMES| && forall i :: 0 <= i < pindex ==> PRIMES[i] <= minsize
        decreases |PRIMES| - pindex
      {
        pindex := pindex + 1;
      }
      var size := PRIMES[pindex];
      table := new Entry?<V>[size](_ => null);
      primeindex, entrycount, loadlimit := pindex, 0, LoadLimit(size);
      this.hashfn := hashfn;
      chains, nodes, M := seq(size, _ => []), {}, map[];
    }

    /** The entry of a key and the one before it in its chain. */
    method Find(k: string) returns (index: nat, prev: Entry?<V>, e: Entry?<V>, ghost j: nat)
      requires Valid()
      ensures e == null <==> k !in M
      ensures e != null ==> index < table.Length && j < |chains[index]| && e == chains[index][j] && e.k == k && M[k] == e.v
      ensures e != null ==> prev == (if j == 0 then null else chains[index][j - 1])
    {
      var hashvalue := HashOf(hashfn, k);
      index := IndexFor(table.Length, hashvalue);
      assert GoodAt(chains, index, hashfn, M) && LinkedAt(table, chains, nodes, index);
      assert k in M ==> KeyAt(chains, hashfn, k);
      prev, e, j := FindInChain(table[index], hashvalue, k, chains[index]);
    }

    method Search(k: string) returns (r: Option<V>)
      requires Valid()
      ensures r == if k in M then Some(M[k]) else None
    {
      var index, prev, e, j := Find(k);
      r := if e == null then None else Some(e.v);
    }

    /** Replaces the table by the next larger one, unless it is the largest: no lookup changes. */
    method Expand() returns (grown: bool)
      requires Shaped()
      modifies this, table, nodes`next
      ensures Shaped()
      ensures M == old(M) && entrycount == old(entrycount) && nodes == old(nodes)
      ensures grown <==> old(primeindex) < |PRIMES| - 1
      ensures if grown then fresh(table) && primeindex == old(primeindex) + 1 else table == old(table)
    {
      if primeindex == |PRIMES| - 1 {
        return false;
      }
      primeindex := primeindex + 1;
      var newsize := PRIMES[primeindex];
      var newtable, nc := Rehash(table, newsize, hashfn, chains, nodes, M);
      table, chains := newtable, nc;
      loadlimit := LoadLimit(newsize);
      grown := true;
    }

    method AddEntry(k: string, v: V)
      requires Shaped() && k !in M
      modifies this`chains, this`nodes, this`M, table
      ensures Shaped() && M == old(M)[k := v] && fresh(nodes - old(nodes))
    {
      var h := HashOf(hashfn, k);
      var e := LinkNew(table, k, v, h, chains, nodes);
      InsertLayout(chains, hashfn, M, e);
      chains, nodes, M := Push(chains, e), nodes + {e}, M[k := v];
    }

    /** Inserting a key that is not in the table, as the callers make sure by searching first. */
    method Insert(k: string, v: V)
      requires Valid() && k !in M
      modifies this, table, nodes`next
      ensures Valid() && M == old(M)[k := v]
      ensures (table == old(table) || fresh(table)) && fresh(nodes - old(nodes))
    {
      MapAddSize(M, k, v);
      entrycount := entrycount + 1;
      if entrycount > loadlimit {
        LimitsGrow(primeindex);
        var grown := Expand();
      }
      AddEntry(k, v);
    }

    /** Takes out a given entry, linked from `prev` or from the table slot. */
    method RemoveAt(index: nat, prev: Entry?<V>, e: Entry<V>, ghost j: nat)
      requires Valid() && index < table.Length && j < |chains[index]| && e == chains[index][j]
      requires prev == (if j == 0 then null else chains[index][j - 1])
      modifies this`entrycount, this`chains, this`M, table, nodes`next
      ensures Valid() && M == old(M) - {e.k} && chains == old(chains)[index := Drop(old(chains)[index], j)]
      ensures e.next == old(e.next)
    {
      RemoveLayout(chains, hashfn, M, index, j);
      Unlink(table, index, prev, e, chains, nodes, j);
      entrycount := entrycount - 1;
      chains, M := chains[index := Drop(chains[index], j)], M - {e.k};
    }

    method Remove(k: string) returns (r: Option<V>)
      requires Valid()
      modifies this, table, nodes`next
      ensures Valid() && M == old(M) - {k}
      ensures r == if k in old(M) then Some(old(M)[k]) else None
      ensures table == old(table) && nodes == old(nodes)
    {
      var index, prev, e, j := Find(k);
      if e == null {
        assert M - {k} == M;
        return None;
      }
      r := Some(e.v);
      RemoveAt(index, prev, e, j);
    }
  }

  lemma ChainCons<V>(head: Entry?<V>, c: seq<Entry<V>>, e: Entry<V>)
    requires IsChain(head, c) && e.next == head
    ensures IsChain(e, [e] + c)
  {
    var d := [e] + c;
    forall j | 0 <= j < |d| - 1 ensures d[j].next == d[j + 1] {
      if j > 0 { assert c[j - 1].next == c[j]; }
    }
  }

  /** Stores an entry that already links to the head of a bucket as its new head. */
  method PushHead<V>(table: array<Entry?<V>>, index: nat, e: Entry<V>, ghost cs: seq<seq<Entry<V>>>, ghost nodes: set<Entry<V>>)
    requires Linked(table, cs, nodes) && index < table.Length && e.next == table[index]
    modifies table
    ensures Linked(table, cs[index := [e] + cs[index]], nodes + {e})
  {
    ghost var cs' := cs[index := [e] + cs[index]];
    assert LinkedAt(table, cs, nodes, index);
    ChainCons(table[index], cs[index], e);
    table[index] := e;
    forall i | 0 <= i < |cs'| ensures LinkedAt(table, cs', nodes + {e}, i) {
      assert old(LinkedAt(table, cs, nodes, i));
    }
  }

  /** Allocates an entry and links it at the head of its bucket. */
  method LinkNew<V>(table: array<Entry?<V>>, k: string, v: V, h: nat, ghost cs: seq<seq<Entry<V>>>, ghost nodes: set<Entry<V>>)
    returns (e: Entry<V>)
    requires table.Length > 0 && Linked(table, cs, nodes)
    modifies table
    ensures fresh(e) && e.k == k && e.v == v && e.h == h
    ensures var index := IndexFor(table.Length, h); Linked(table, cs[index := [e] + cs[index]], nodes + {e})
  {
    var index := IndexFor(table.Length, h);
    e := new Entry<V>(k, v, h, table[index]);
    PushHead(table, index, e, cs, nodes);
  }

  /** A chain without its entry at j. */
  ghost function Drop<V>(c: seq<Entry<V>>, j: nat): seq<Entry<V>>
    requires j < |c|
  {
    c[..j] + c[j + 1..]
  }

  /** The entry is at one place of the chains only. */
  ghost predicate OnlyAt<V>(cs: seq<seq<Entry<V>>>, index: nat, j: nat)
    requires index < |cs| && j < |cs[index]|
  {
    && (forall i :: 0 <= i < |cs| && i != index ==> cs[index][j] !in cs[i])
    && (forall l :: 0 <= l < |cs[index]| && l != j ==> cs[index][l] != cs[index][j])
  }

  lemma LayoutSeparates<V>(cs: seq<seq<Entry<V>>>, hashfn: string -> nat, m: map<string, V>, index: nat, j: nat)
    requires Layout(cs, hashfn, m) && index < |cs| && j < |cs[index]|
    ensures OnlyAt(cs, index, j)
  {
    var e := cs[index][j];
    assert GoodAt(cs, index, hashfn, m);
    forall i | 0 <= i < |cs| && i != index ensures e !in cs[i] {
      assert GoodAt(cs, i, hashfn, m);
    }
  }

  lemma ChainDropFirst<V>(head: Entry?<V>, c: seq<Entry<V>>)
    requires IsChain(head, c) && c != []
    ensures IsChain(c[0].next, Drop(c, 0))
  {
    ChainTail(head, c);
    assert Drop(c, 0) == c[1..];
  }

  /** Bypassing an entry in the middle of a chain. */
  method Bypass<V>(prev: Entry<V>, e: Entry<V>, ghost head: Entry?<V>, ghost c: seq<Entry<V>>, ghost j: nat)
    requires IsChain(head, c) && 0 < j < |c| && e == c[j] && prev == c[j - 1]
    requires forall l :: 0 <= l < |c| && l != j - 1 ==> c[l] != prev
    modifies prev`next
    ensures IsChain(head, Drop(c, j))
  {
    ghost var d := Drop(c, j);
    ghost var last := c[|c| - 1];
    prev.next := e.next;
    forall l | 0 <= l < |d| - 1 ensures d[l].next == d[l + 1] {
      if l >= j {
        assert d[l] == c[l + 1] && d[l + 1] == c[l + 2];
      } else if l == j - 1 {
        assert d[l] == prev && d[l + 1] == c[j + 1];
      } else {
        assert d[l] == c[l] && d[l + 1] == c[l + 1];
      }
    }
  }

  /** Takes an entry out of its bucket, through the table slot or the entry before it. */
  method Unlink<V>(table: array<Entry?<V>>, index: nat, prev: Entry?<V>, e: Entry<V>,
                   ghost cs: seq<seq<Entry<V>>>, ghost nodes: set<Entry<V>>, ghost j: nat)
    requires Linked(table, cs, nodes) && index < table.Length && j < |cs[index]| && e == cs[index][j]
    requires prev == (if j == 0 then null else cs[index][j - 1])
    requires j > 0 ==> OnlyAt(cs, index, j - 1)
    modifies table, nodes`next
    ensures Linked(table, cs[index := Drop(cs[index], j)], nodes) && e.next == old(e.next)
  {
    ghost var cs' := cs[index := Drop(cs[index], j)];
    assert LinkedAt(table, cs, nodes, index);
    if prev == null {
      ChainDropFirst(table[index], cs[index]);
      table[index] := e.next;
    } else {
      assert prev in cs[index];
      Bypass(prev, e, table[index], cs[index], j);
    }
    forall i | 0 <= i < |cs'| ensures LinkedAt(table, cs', nodes, i) {
      assert old(LinkedAt(table, cs, nodes, i));
    }
  }

  lemma DropGood<V>(c: seq<Entry<V>>, i: nat, n: nat, hashfn: string -> nat, m: map<string, V>, j: nat)
    requires n > 0 && GoodChain(c, i, n, hashfn, m) && j < |c|
    ensures GoodChain(Drop(c, j), i, n, hashfn, m - {c[j].k})
  {
    var d := Drop(c, j);
    assert forall l :: 0 <= l < |d| ==> d[l] == (if l < j then c[l] else c[l + 1]);
  }

  lemma HasKeyDrop<V>(c: seq<Entry<V>>, j: nat, k: string)
    requires j < |c| && HasKey(c, k) && c[j].k != k
    ensures HasKey(Drop(c, j), k)
  {
    var l :| 0 <= l < |c| && c[l].k == k;
    var d := Drop(c, j);
    assert d[if l < j then l else l - 1].k == k;
  }

  lemma RemoveLayout<V>(cs: seq<seq<Entry<V>>>, hashfn: string -> nat, m: map<string, V>, index: nat, j: nat)
    requires Layout(cs, hashfn, m) && index < |cs| && j < |cs[index]|
    ensures Layout(cs[index := Drop(cs[index], j)], hashfn, m - {cs[index][j].k})
    ensures |m - {cs[index][j].k}| == |m| - 1
    ensures j > 0 ==> OnlyAt(cs, index, j - 1)
  {
    var k := cs[index][j].k;
    var cs', m' := cs[index := Drop(cs[index], j)], m - {k};
    assert GoodAt(cs, index, hashfn, m);
    forall i | 0 <= i < |cs'| ensures GoodAt(cs', i, hashfn, m') {
      assert GoodAt(cs, i, hashfn, m);
      if i == index {
        DropGood(cs[i], i, |cs|, hashfn, m, j);
      }
    }
    forall k' | k' in m' ensures KeyAt(cs', hashfn, k') {
      assert KeyAt(cs, hashfn, k');
      if IndexFor(|cs|, HashOf(hashfn, k')) == index {
        HasKeyDrop(cs[index], j, k');
      }
    }
    if j > 0 {
      LayoutSeparates(cs, hashfn, m, index, j - 1);
    }
    MapRemoveSize(m, k);
  }

  lemma MapRemoveSize<V>(m: map<string, V>, k: string)
    requires k in m
    ensures |m - {k}| == |m| - 1
  {
    assert (m - {k}).Keys == m.Keys - {k};
  }

  /** The entry occurs nowhere in the chains. */
  ghost predicate Absent<V>(cs: seq<seq<Entry<V>>>, e: Entry<V>) {
    forall i :: 0 <= i < |cs| ==> e !in cs[i]
  }

  lemma ChainTail<V>(head: Entry?<V>, c: seq<Entry<V>>)
    requires IsChain(head, c) && c != []
    ensures IsChain(c[0].next, c[1..])
  {
    var d := c[1..];
    forall j | 0 <= j < |d| - 1 ensures d[j].next == d[j + 1] { assert c[j + 1].next == c[j + 2]; }
  }

  /** Takes the first entry off a bucket. */
  method PopHead<V>(table: array<Entry?<V>>, i: nat, ghost cs: seq<seq<Entry<V>>>, ghost nodes: set<Entry<V>>) returns (e: Entry<V>)
    requires Linked(table, cs, nodes) && i < table.Length && cs[i] != []
    modifies table
    ensures e == cs[i][0] && Linked(table, cs[i := cs[i][1..]], nodes)
  {
    ghost var cs' := cs[i := cs[i][1..]];
    assert LinkedAt(table, cs, nodes, i);
    ChainTail(table[i], cs[i]);
    e := table[i];
    table[i] := e.next;
    forall l | 0 <= l < |cs'| ensures LinkedAt(table, cs', nodes, l) {
      assert old(LinkedAt(table, cs, nodes, l));
    }
  }

  /** The inner step of hashtable_expand: one entry changes tables. */
  method MoveOne<V>(table: array<Entry?<V>>, newtable: array<Entry?<V>>, i: nat,
                    ghost oc: seq<seq<Entry<V>>>, ghost nc: seq<seq<Entry<V>>>, ghost nodes: set<Entry<V>>) returns (e: Entry<V>)
    requires table != newtable && newtable.Length > 0 && i < table.Length
    requires Linked(table, oc, nodes) && Linked(newtable, nc, nodes) && oc[i] != []
    requires Absent(oc[i := oc[i][1..]], oc[i][0]) && Absent(nc, oc[i][0])
    modifies table, newtable, nodes`next
    ensures e == oc[i][0] && Linked(table, oc[i := oc[i][1..]], nodes) && Linked(newtable, Push(nc, e), nodes)
  {
    assert LinkedAt(table, oc, nodes, i) && oc[i][0] in oc[i];
    e := PopHead(table, i, oc, nodes);
    ghost var oc' := oc[i := oc[i][1..]];
    var index := IndexFor(newtable.Length, e.h);
    SetNextBoth(e, newtable[index], table, oc', newtable, nc, nodes);
    PushHead(newtable, index, e, nc, nodes);
    assert nodes + {e} == nodes;
  }

  method SetNextBoth<V>(e: Entry<V>, next: Entry?<V>, table: array<Entry?<V>>, ghost cs: seq<seq<Entry<V>>>,
                        newtable: array<Entry?<V>>, ghost nc: seq<seq<Entry<V>>>, ghost nodes: set<Entry<V>>)
    requires Linked(table, cs, nodes) && Absent(cs, e) && Linked(newtable, nc, nodes) && Absent(nc, e)
    modifies e`next
    ensures e.next == next && Linked(table, cs, nodes) && Linked(newtable, nc, nodes)
  {
    e.next := next;
    forall i | 0 <= i < |cs| ensures LinkedAt(table, cs, nodes, i) {
      assert old(LinkedAt(table, cs, nodes, i));
    }
    forall i | 0 <= i < |nc| ensures LinkedAt(newtable, nc, nodes, i) {
      assert old(LinkedAt(newtable, nc, nodes, i));
    }
  }

  /** The chains with an entry put at the head of its bucket. */
  ghost function Push<V>(cs: seq<seq<Entry<V>>>, e: Entry<V>): seq<seq<Entry<V>>>
    requires |cs| > 0
  {
    var index := IndexFor(|cs|, e.h);
    cs[index := [e] + cs[index]]
  }

  // ---------------------------------------------------------------------
  // Layout facts
  // ---------------------------------------------------------------------

  lemma ConsGood<V>(c: seq<Entry<V>>, i: nat, n: nat, hashfn: string -> nat, m: map<string, V>, e: Entry<V>)
    requires n > 0 && GoodChain(c, i, n, hashfn, m) && e.k !in m && e.h == HashOf(hashfn, e.k) && IndexFor(n, e.h) == i
    ensures GoodChain([e] + c, i, n, hashfn, m[e.k := e.v])
  {
  }

  lemma HasKeyCons<V>(c: seq<Entry<V>>, e: Entry<V>, k: string)
    ensures HasKey([e] + c, k) <==> e.k == k || HasKey(c, k)
  {
    var d := [e] + c;
    if HasKey(c, k) {
      var j :| 0 <= j < |c| && c[j].k == k;
      assert d[j + 1].k == k;
    }
    if e.k == k {
      assert d[0].k == k;
    }
    if HasKey(d, k) && e.k != k {
      var j :| 0 <= j < |d| && d[j].k == k;
      assert c[j - 1].k == k;
    }
  }

  lemma InsertLayout<V>(cs: seq<seq<Entry<V>>>, hashfn: string -> nat, m: map<string, V>, e: Entry<V>)
    requires Layout(cs, hashfn, m) && e.k !in m && e.h == HashOf(hashfn, e.k)
    ensures var index := IndexFor(|cs|, e.h); Layout(cs[index := [e] + cs[index]], hashfn, m[e.k := e.v])
  {
    var index := IndexFor(|cs|, e.h);
    var cs', m' := cs[index := [e] + cs[index]], m[e.k := e.v];
    forall i | 0 <= i < |cs'| ensures GoodAt(cs', i, hashfn, m') {
      assert GoodAt(cs, i, hashfn, m);
      if i == index {
        ConsGood(cs[i], i, |cs|, hashfn, m, e);
      }
    }
    forall k | k in m' ensures KeyAt(cs', hashfn, k) {
      HasKeyCons(cs[index], e, k);
      if k != e.k {
        assert KeyAt(cs, hashfn, k);
      }
    }
  }

  // ---------------------------------------------------------------------
  // Entries in table order
  // ---------------------------------------------------------------------

  /** All entries from bucket i on, bucket by bucket. */
  ghost function Flat<V>(cs: seq<seq<Entry<V>>>, i: nat): seq<Entry<V>>
    requires i <= |cs|
    decreases |cs| - i
  {
    if i == |cs| then [] else cs[i] + Flat(cs, i + 1)
  }

  ghost predicate KeysDistinct<V>(es: seq<Entry<V>>) {
    forall j, l :: 0 <= j < l < |es| ==> es[j].k != es[l].k
  }

  ghost function MapOf<V>(es: seq<Entry<V>>): map<string, V> {
    if es == [] then map[] else MapOf(es[1..])[es[0].k := es[0].v]
  }

  lemma {:induction false} InFlat<V>(cs: seq<seq<Entry<V>>>, i: nat, b: nat, e: Entry<V>)
    requires i <= b < |cs| && e in cs[b]
    ensures e in Flat(cs, i)
    decreases b - i
  {
    if i < b {
      InFlat(cs, i + 1, b, e);
    }
  }

  lemma {:induction false} BucketOf<V>(cs: seq<seq<Entry<V>>>, i: nat, e: Entry<V>) returns (b: nat)
    requires i <= |cs| && e in Flat(cs, i)
    ensures i <= b < |cs| && e in cs[b]
    decreases |cs| - i
  {
    if e in cs[i] {
      b := i;
    } else {
      b := BucketOf(cs, i + 1, e);
    }
  }

  /** The same key hashes to the same bucket, so keys differ across buckets too. */
  lemma {:induction false} FlatDistinct<V>(cs: seq<seq<Entry<V>>>, hashfn: string -> nat, m: map<string, V>, i: nat)
    requires Layout(cs, hashfn, m) && i <= |cs|
    ensures KeysDistinct(Flat(cs, i))
    decreases |cs| - i
  {
    if i < |cs| {
      FlatDistinct(cs, hashfn, m, i + 1);
      var c, rest := cs[i], Flat(cs, i + 1);
      assert GoodAt(cs, i, hashfn, m);
      forall j, l | 0 <= j < |c| && 0 <= l < |rest| ensures c[j].k != rest[l].k {
        var b := BucketOf(cs, i + 1, rest[l]);
        var q :| 0 <= q < |cs[b]| && cs[b][q] == rest[l];
        assert GoodAt(cs, b, hashfn, m);
      }
      DistinctConcat(c, rest);
    }
  }

  lemma DistinctConcat<V>(a: seq<Entry<V>>, b: seq<Entry<V>>)
    requires KeysDistinct(a) && KeysDistinct(b)
    requires forall j, l :: 0 <= j < |a| && 0 <= l < |b| ==> a[j].k != b[l].k
    ensures KeysDistinct(a + b)
  {
  }

  lemma {:induction false} MapOfMember<V>(es: seq<Entry<V>>, k: string)
    requires KeysDistinct(es)
    ensures k in MapOf(es) <==> HasKey(es, k)
    ensures forall j :: 0 <= j < |es| ==> es[j].k in MapOf(es) && MapOf(es)[es[j].k] == es[j].v
    ensures |MapOf(es)| == |es|
  {
    if es != [] {
      var rest := es[1..];
      MapOfMember(rest, k);
      MapOfMember(rest, es[0].k);
      HasKeyCons(rest, es[0], k);
      assert es == [es[0]] + rest;
      assert es[0].k !in MapOf(rest) by {
        assert forall j :: 0 <= j < |rest| ==> rest[j] == es[j + 1];
      }
      forall j | 0 <= j < |es| ensures es[j].k in MapOf(es) && MapOf(es)[es[j].k] == es[j].v {
        if j > 0 { assert rest[j - 1] == es[j]; }
      }
      MapAddSize(MapOf(rest), es[0].k, es[0].v);
    }
  }

  lemma MapAddSize<V>(m: map<string, V>, k: string, v: V)
    requires k !in m
    ensures |m[k := v]| == |m| + 1
  {
    assert m[k := v].Keys == m.Keys + {k};
  }

  /** The entries in table order are the map's, each once. */
  lemma LayoutIsMap<V>(cs: seq<seq<Entry<V>>>, hashfn: string -> nat, m: map<string, V>)
    requires Layout(cs, hashfn, m)
    ensures KeysDistinct(Flat(cs, 0)) && MapOf(Flat(cs, 0)) == m && |Flat(cs, 0)| == |m|
  {
    var es := Flat(cs, 0);
    FlatDistinct(cs, hashfn, m, 0);
    forall k ensures k in MapOf(es) <==> k in m {
      MapOfMember(es, k);
      if k in m {
        assert KeyAt(cs, hashfn, k);
        var b := IndexFor(|cs|, HashOf(hashfn, k));
        var j :| 0 <= j < |cs[b]| && cs[b][j].k == k;
        InFlat(cs, 0, b, cs[b][j]);
      }
      if HasKey(es, k) {
        var j :| 0 <= j < |es| && es[j].k == k;
        var b := BucketOf(cs, 0, es[j]);
        assert GoodAt(cs, b, hashfn, m);
      }
    }
    forall k | k in m ensures MapOf(es)[k] == m[k] {
      MapOfMember(es, k);
      var j :| 0 <= j < |es| && es[j].k == k;
      var b := BucketOf(cs, 0, es[j]);
      assert GoodAt(cs, b, hashfn, m);
    }
    MapOfMember(es, "");
  }

  // ---------------------------------------------------------------------
  // Rehashing
  // ---------------------------------------------------------------------

  /**
    * Half-way through a rehash: the entries from bucket i on are still in the old chains, the
    * new chains hold the rest, and together they are the map.
    */
  ghost predicate Moving<V>(oc: seq<seq<Entry<V>>>, i: nat, nc: seq<seq<Entry<V>>>, hashfn: string -> nat,
                            mc: map<string, V>, m: map<string, V>)
    requires i <= |oc|
  {
    var rest := Flat(oc, i);
    && (forall l :: 0 <= l < i ==> oc[l] == [])
    && KeysDistinct(rest)
    && (forall j :: 0 <= j < |rest| ==> rest[j].h == HashOf(hashfn, rest[j].k) && rest[j].k !in mc)
    && Layout(nc, hashfn, mc)
    && mc + MapOf(rest) == m
  }

  lemma MovingStart<V>(cs: seq<seq<Entry<V>>>, nc: seq<seq<Entry<V>>>, hashfn: string -> nat, m: map<string, V>)
    requires Layout(cs, hashfn, m) && |nc| > 0 && forall i :: 0 <= i < |nc| ==> nc[i] == []
    ensures Moving(cs, 0, nc, hashfn, map[], m)
  {
    LayoutIsMap(cs, hashfn, m);
    var es := Flat(cs, 0);
    forall j | 0 <= j < |es| ensures es[j].h == HashOf(hashfn, es[j].k) {
      var b := BucketOf(cs, 0, es[j]);
      assert GoodAt(cs, b, hashfn, m);
    }
    assert map[] + m == m;
  }

  lemma FlatAfterPop<V>(oc: seq<seq<Entry<V>>>, i: nat)
    requires i < |oc| && oc[i] != []
    ensures Flat(oc, i) == [oc[i][0]] + Flat(oc[i := oc[i][1..]], i)
  {
    FlatFromSame(oc, oc[i := oc[i][1..]], i + 1);
  }

  lemma {:induction false} FlatFromSame<V>(a: seq<seq<Entry<V>>>, b: seq<seq<Entry<V>>>, i: nat)
    requires |a| == |b| && i <= |a| && forall l :: i <= l < |a| ==> a[l] == b[l]
    ensures Flat(a, i) == Flat(b, i)
    decreases |a| - i
  {
    if i < |a| {
      FlatFromSame(a, b, i + 1);
    }
  }

  lemma MoveSeparate<V>(oc: seq<seq<Entry<V>>>, i: nat, nc: seq<seq<Entry<V>>>, hashfn: string -> nat,
                        mc: map<string, V>, m: map<string, V>)
    requires i < |oc| && oc[i] != [] && Moving(oc, i, nc, hashfn, mc, m)
    ensures Absent(oc[i := oc[i][1..]], oc[i][0]) && Absent(nc, oc[i][0])
  {
    var e, oc' := oc[i][0], oc[i := oc[i][1..]];
    var rest := Flat(oc, i);
    FlatAfterPop(oc, i);
    var rest' := Flat(oc', i);
    assert e == rest[0] && forall j :: 0 <= j < |rest'| ==> rest'[j] == rest[j + 1];
    assert e !in rest';
    forall l | 0 <= l < |oc'| ensures e !in oc'[l] {
      if l >= i && e in oc'[l] {
        InFlat(oc', i, l, e);
      }
    }
    forall l | 0 <= l < |nc| ensures e !in nc[l] {
      assert GoodAt(nc, l, hashfn, mc);
    }
  }

  lemma MoveStep<V>(oc: seq<seq<Entry<V>>>, i: nat, nc: seq<seq<Entry<V>>>, hashfn: string -> nat,
                    mc: map<string, V>, m: map<string, V>)
    requires i < |oc| && oc[i] != [] && Moving(oc, i, nc, hashfn, mc, m)
    ensures var e := oc[i][0]; Moving(oc[i := oc[i][1..]], i, Push(nc, e), hashfn, mc[e.k := e.v], m)
  {
    var e, oc' := oc[i][0], oc[i := oc[i][1..]];
    var rest, rest' := Flat(oc, i), Flat(oc', i);
    FlatAfterPop(oc, i);
    assert rest == [e] + rest' && rest[0] == e && rest[1..] == rest';
    InsertLayout(nc, hashfn, mc, e);
    assert forall j :: 0 <= j < |rest'| ==> rest'[j] == rest[j + 1];
    UnionStep(mc, rest);
  }

  lemma UnionStep<V>(mc: map<string, V>, rest: seq<Entry<V>>)
    requires rest != [] && KeysDistinct(rest)
    ensures mc[rest[0].k := rest[0].v] + MapOf(rest[1..]) == mc + MapOf(rest)
  {
    HeadKeyFresh(rest);
  }

  lemma HeadKeyFresh<V>(rest: seq<Entry<V>>)
    requires rest != [] && KeysDistinct(rest)
    ensures KeysDistinct(rest[1..]) && rest[0].k !in MapOf(rest[1..])
  {
    var tail := rest[1..];
    assert forall j :: 0 <= j < |tail| ==> tail[j] == rest[j + 1];
    MapOfMember(tail, rest[0].k);
  }

  lemma MovingNext<V>(oc: seq<seq<Entry<V>>>, i: nat, nc: seq<seq<Entry<V>>>, hashfn: string -> nat,
                      mc: map<string, V>, m: map<string, V>)
    requires i < |oc| && oc[i] == [] && Moving(oc, i, nc, hashfn, mc, m)
    ensures Moving(oc, i + 1, nc, hashfn, mc, m)
  {
    assert Flat(oc, i) == Flat(oc, i + 1);
  }

  /** The inner loop of hashtable_expand: empties one bucket. */
  method MoveBucket<V>(table: array<Entry?<V>>, newtable: array<Entry?<V>>, i: nat, ghost hashfn: string -> nat,
                       ghost oc0: seq<seq<Entry<V>>>, ghost nc0: seq<seq<Entry<V>>>, ghost nodes: set<Entry<V>>,
                       ghost mc0: map<string, V>, ghost m: map<string, V>)
    returns (ghost oc: seq<seq<Entry<V>>>, ghost nc: seq<seq<Entry<V>>>, ghost mc: map<string, V>)
    requires table != newtable && i < table.Length == |oc0| && |nc0| == newtable.Length
    requires Linked(table, oc0, nodes) && Linked(newtable, nc0, nodes) && Moving(oc0, i, nc0, hashfn, mc0, m)
    modifies table, newtable, nodes`next
    ensures |oc| == |oc0| && |nc| == |nc0|
    ensures Linked(table, oc, nodes) && Linked(newtable, nc, nodes) && Moving(oc, i + 1, nc, hashfn, mc, m)
  {
    oc, nc, mc := oc0, nc0, mc0;
    while table[i] != null
      invariant |oc| == |oc0| && |nc| == |nc0|
      invariant Linked(table, oc, nodes) && Linked(newtable, nc, nodes) && Moving(oc, i, nc, hashfn, mc, m)
      decreases |oc[i]|
    {
      assert LinkedAt(table, oc, nodes, i);
      MoveSeparate(oc, i, nc, hashfn, mc, m);
      MoveStep(oc, i, nc, hashfn, mc, m);
      var e := MoveOne(table, newtable, i, oc, nc, nodes);
      oc, nc, mc := oc[i := oc[i][1..]], Push(nc, e), mc[e.k := e.v];
    }
    assert LinkedAt(table, oc, nodes, i);
    MovingNext(oc, i, nc, hashfn, mc, m);
  }

  /** Moves every entry into a table of the given size; nothing is lost and nothing changes its value. */
  method Rehash<V>(table: array<Entry?<V>>, newsize: nat, ghost hashfn: string -> nat,
                   ghost cs: seq<seq<Entry<V>>>, ghost nodes: set<Entry<V>>, ghost m: map<string, V>)
    returns (newtable: array<Entry?<V>>, ghost nc: seq<seq<Entry<V>>>)
    requires newsize > 0 && Linked(table, cs, nodes) && Layout(cs, hashfn, m)
    modifies table, nodes`next
    ensures fresh(newtable) && newtable.Length == newsize
    ensures Linked(newtable, nc, nodes) && Layout(nc, hashfn, m)
  {
    newtable := new Entry?<V>[newsize](_ => null);
    nc := seq(newsize, _ => []);
    ghost var oc, mc := cs, map[];
    MovingStart(cs, nc, hashfn, m);
    var i := 0;
    while i < table.Length
      modifies table, newtable, nodes`next
      invariant 0 <= i <= table.Length == |oc| && |nc| == newsize
      invariant Linked(table, oc, nodes) && Linked(newtable, nc, nodes) && Moving(oc, i, nc, hashfn, mc, m)
    {
      oc, nc, mc := MoveBucket(table, newtable, i, hashfn, oc, nc, nodes, mc, m);
      i := i + 1;
    }
    MovingEnd(oc, nc, hashfn, mc, m);
  }

  lemma MovingEnd<V>(oc: seq<seq<Entry<V>>>, nc: seq<seq<Entry<V>>>, hashfn: string -> nat, mc: map<string, V>, m: map<string, V>)
    requires Moving(oc, |oc|, nc, hashfn, mc, m)
    ensures Layout(nc, hashfn, m)
  {
    assert mc + map[] == mc;
  }
}
