/**
  * Walking the hash table, with or without removing the current entry.
  */
module HashIterator {
  import opened Common
  import opened HashTable

  /** The entries from position pos of bucket i on. */
  ghost function FlatAt<V>(cs: seq<seq<Entry<V>>>, i: nat, pos: nat): seq<Entry<V>>
    requires i < |cs| && pos <= |cs[i]|
  {
    cs[i][pos..] + Flat(cs, i + 1)
  }

  class Iterator<V> {
    const h: Table<V>
    var e: Entry?<V>
    var parent: Entry?<V>
    var index: nat
    ghost var pos: nat

    /** The iterator stands at a real entry, with the one before it as parent, or at the end. */
    ghost predicate At()
      reads this, h
    {
      e != null ==>
        && index < |h.chains| && pos < |h.chains[index]| && e == h.chains[index][pos]
        && parent == (if pos == 0 then null else h.chains[index][pos - 1])
    }

    ghost predicate Valid()
      reads this, h, h.table, h.nodes
    {
      h.Valid() && At()
    }

    /** What is still to be visited, the current entry first. */
    ghost function Rest(): seq<Entry<V>>
      requires At()
      reads this, h
    {
      if e == null then [] else FlatAt(h.chains, index, pos)
    }

    /** At the first entry of the table, if any. */
    constructor (h: Table<V>)
      requires h.Valid()
      ensures Valid() && this.h == h && Rest() == Flat(h.chains, 0)
    {
      this.h := h;
      e, parent, index, pos := null, null, h.table.Length, 0;
      new;
      if h.entrycount == 0 {
        LayoutIsMap(h.chains, h.hashfn, h.M);
      } else {
        Scan(0);
      }
    }

    /** The first non-empty bucket from i on. */
    method Scan(i: nat)
      requires h.Valid() && i <= h.table.Length
      modifies this`e, this`parent, this`index, this`pos
      ensures At() && Rest() == Flat(h.chains, i)
    {
      var j := i;
      parent := null;
      pos := 0;
      while j < h.table.Length && h.table[j] == null
        invariant i <= j <= h.table.Length && Flat(h.chains, i) == Flat(h.chains, j)
      {
        assert LinkedAt(h.table, h.chains, h.nodes, j);
        assert Flat(h.chains, j) == h.chains[j] + Flat(h.chains, j + 1);
        j := j + 1;
      }
      index := j;
      if j < h.table.Length {
        assert LinkedAt(h.table, h.chains, h.nodes, j);
        e := h.table[j];
        assert h.chains[j][0..] == h.chains[j];
      } else {
        e := null;
      }
    }

    /** On to the next entry; zero, here false, at the end. */
    method Advance() returns (more: bool)
      requires Valid()
      modifies this`e, this`parent, this`index, this`pos
      ensures Valid() && Rest() == (if old(Rest()) == [] then [] else old(Rest())[1..])
      ensures more <==> Rest() != []
    {
      if e == null {
        return false;
      }
      ghost var c := h.chains[index];
      assert LinkedAt(h.table, h.chains, h.nodes, index);
      assert pos + 1 < |c| ==> c[pos].next == c[pos + 1];
      assert FlatAt(h.chains, index, pos)[1..] == FlatAt(h.chains, index, pos + 1);
      var next := e.next;
      if next != null {
        parent, e, pos := e, next, pos + 1;
        return true;
      }
      assert pos + 1 == |c| && c[pos + 1..] == [];
      Scan(index + 1);
      more := e != null;
    }

    /** Unlinks the current entry; its own link still leads to the rest of the chain. */
    method Unhook() returns (next: Entry?<V>)
      requires Valid() && e != null
      modifies h`entrycount, h`chains, h`M, h.table, h.nodes`next
      ensures h.Valid() && h.M == old(h.M) - {e.k}
      ensures var c := old(h.chains)[index];
              && h.chains == old(h.chains)[index := Drop(c, pos)]
              && next == (if pos + 1 < |c| then c[pos + 1] else null)
    {
      ghost var c := h.chains[index];
      assert LinkedAt(h.table, h.chains, h.nodes, index);
      assert pos + 1 < |c| ==> c[pos].next == c[pos + 1];
      h.RemoveAt(index, parent, e, pos);
      next := e.next;
    }

    /** Removes the current entry from the table and goes on to the next. */
    method Remove() returns (more: bool)
      requires Valid() && e != null
      modifies this`e, this`parent, this`index, this`pos, h`entrycount, h`chains, h`M, h.table, h.nodes`next
      ensures Valid() && Rest() == old(Rest())[1..] && h.M == old(h.M) - {old(e).k}
      ensures more <==> Rest() != []
    {
      FlatAfterDrop(h.chains, index, pos);
      var next := Unhook();
      more := Settle(next);
    }

    /** After a removal: the following entry has moved to the current position. */
    method Settle(next: Entry?<V>) returns (more: bool)
      requires h.Valid() && index < |h.chains| && pos <= |h.chains[index]|
      requires next == (if pos < |h.chains[index]| then h.chains[index][pos] else null)
      requires parent == (if pos == 0 then null else h.chains[index][pos - 1])
      modifies this`e, this`parent, this`index, this`pos
      ensures At() && Rest() == old(FlatAt(h.chains, index, pos))
      ensures more <==> Rest() != []
    {
      if next != null {
        e := next;
        return true;
      }
      assert FlatAt(h.chains, index, pos) == Flat(h.chains, index + 1);
      Scan(index + 1);
      more := e != null;
    }
  }

  /** Dropping the current entry leaves exactly the later ones ahead. */
  lemma FlatAfterDrop<V>(cs: seq<seq<Entry<V>>>, i: nat, p: nat)
    requires i < |cs| && p < |cs[i]|
    ensures var cs' := cs[i := Drop(cs[i], p)];
            && FlatAt(cs, i, p)[1..] == FlatAt(cs', i, p)
            && (p + 1 < |cs[i]| ==> cs'[i][p] == cs[i][p + 1])
            && (p > 0 ==> cs'[i][p - 1] == cs[i][p - 1])
            && (p + 1 == |cs[i]| ==> FlatAt(cs', i, p) == Flat(cs', i + 1))
  {
    var cs' := cs[i := Drop(cs[i], p)];
    FlatFromSame(cs, cs', i + 1);
    assert cs'[i][p..] == cs[i][p + 1..];
  }

  // ---------------------------------------------------------------------
  // The watch manager's walks
  // ---------------------------------------------------------------------

  ghost function Keys<V>(es: seq<Entry<V>>): seq<string> {
    seq(|es|, i requires 0 <= i < |es| => es[i].k)
  }

  /** The iterator has the entries from i on ahead. */
  ghost predicate Walking<V>(it: Iterator<V>, all: seq<Entry<V>>, i: nat)
    reads it, it.h, it.h.table, it.h.nodes
  {
    i <= |all| && (it.e == null <==> i == |all|)
    && forall k {:trigger Key(k)} :: Key(k) ==> it.Valid() && it.Rest() == all[i..]
  }

  /** The key of the current entry, and on to the next. */
  method TakeKey<V>(it: Iterator<V>, ghost all: seq<Entry<V>>, ghost i: nat) returns (k: string)
    requires Walking(it, all, i) && i < |all|
    modifies it
    ensures Walking(it, all, i + 1) && k == all[i].k
  {
    assert Key(0);
    assert it.Rest()[0] == all[i] == it.e;
    assert all[i..][1..] == all[i + 1..];
    k := it.e.k;
    var more := it.Advance();
  }

  /** Every key of the table exactly once: what SetWatches sends after a reconnect. */
  method CollectKeys<V>(h: Table<V>) returns (list: seq<string>)
    requires h.Valid()
    ensures |list| == |h.M| && (forall k :: k in list <==> k in h.M)
    ensures forall i, j :: 0 <= i < j < |list| ==> list[i] != list[j]
  {
    var count := h.entrycount;
    ghost var all := Flat(h.chains, 0);
    LayoutIsMap(h.chains, h.hashfn, h.M);
    list := [];
    var it := new Iterator<V>(h);
    assert all[0..] == all;
    var i := 0;
    while i < count
      invariant 0 <= i <= count == |all| && it.h == h && fresh(it) && Walking(it, all, i)
      invariant list == Keys(all[..i])
    {
      KeysSnoc(all, i);
      var k := TakeKey(it, all, i);
      list := list + [k];
      i := i + 1;
    }
    assert all[..i] == all;
    KeysAreMap(all, h.M);
  }

  lemma KeysSnoc<V>(all: seq<Entry<V>>, i: nat)
    requires i < |all|
    ensures Keys(all[..i + 1]) == Keys(all[..i]) + [all[i].k] && all[i..][1..] == all[i + 1..]
  {
  }

  lemma KeysAreMap<V>(es: seq<Entry<V>>, m: map<string, V>)
    requires KeysDistinct(es) && MapOf(es) == m
    ensures forall k :: k in Keys(es) <==> k in m
  {
    forall k ensures k in Keys(es) <==> k in m {
      MapOfMember(es, k);
      if HasKey(es, k) {
        var j :| 0 <= j < |es| && es[j].k == k;
        assert Keys(es)[j] == k;
      }
    }
  }

  /** Removing while walking empties the table. */
  method CleanTable<V>(h: Table<V>)
    requires h.Valid()
    modifies h`entrycount, h`chains, h`M, h.table, h.nodes`next
    ensures h.Valid() && h.M == map[]
  {
    if h.entrycount == 0 {
      return;
    }
    LayoutIsMap(h.chains, h.hashfn, h.M);
    var it := new Iterator<V>(h);
    var hasMore := true;
    while hasMore
      invariant it.h == h && fresh(it) && it.Valid() && (hasMore <==> it.Rest() != [])
      invariant KeysDistinct(it.Rest()) && h.M == MapOf(it.Rest())
      decreases |it.Rest()|
    {
      MapOfTail(it.Rest());
      assert it.Rest()[0] == it.e;
      hasMore := it.Remove();
    }
  }

  lemma MapOfTail<V>(rest: seq<Entry<V>>)
    requires rest != [] && KeysDistinct(rest)
    ensures KeysDistinct(rest[1..]) && MapOf(rest) - {rest[0].k} == MapOf(rest[1..])
  {
    HeadKeyFresh(rest);
  }

  // ---------------------------------------------------------------------
  // Whole runs
  // ---------------------------------------------------------------------

  /** What a client does with a table; a key is put only after a search has not found it. */
  datatype Op<V> = Put(k: string, v: V) | Lookup(k: string) | Delete(k: string)

  function MapAfter<V>(m: map<string, V>, op: Op<V>): map<string, V> {
    match op
    case Put(k, v) => if k in m then m else m[k := v]
    case Lookup(_) => m
    case Delete(k) => m - {k}
  }

  function Answer<V>(m: map<string, V>, op: Op<V>): Option<V> {
    if op.k in m then Some(m[op.k]) else None
  }

  /** What a finite map would answer. */
  function Answers<V>(m: map<string, V>, ops: seq<Op<V>>, i: nat): seq<Option<V>>
    requires i <= |ops|
    decreases |ops| - i
  {
    if i == |ops| then [] else [Answer(m, ops[i])] + Answers(MapAfter(m, ops[i]), ops, i + 1)
  }

  /** For every hash function and every run, with all its expansions, the table answers like a map. */
  method Replay<V>(minsize: nat, hashfn: string -> nat, ops: seq<Op<V>>) returns (answers: seq<Option<V>>)
    requires minsize <= 0x4000_0000
    ensures answers == Answers(map[], ops, 0)
  {
    var h := new Table<V>(minsize, hashfn);
    answers := ReplayFrom(h, ops, 0);
  }

  method ReplayFrom<V>(h: Table<V>, ops: seq<Op<V>>, i: nat) returns (answers: seq<Option<V>>)
    requires h.Valid() && i <= |ops|
    modifies h, h.table, h.nodes`next
    ensures answers == Answers(old(h.M), ops, i)
    decreases |ops| - i
  {
    answers := [];
    if i < |ops| {
      var r := Perform(h, ops[i]);
      var rest := ReplayFrom(h, ops, i + 1);
      answers := [r] + rest;
    }
  }

  method Perform<V>(h: Table<V>, op: Op<V>) returns (r: Option<V>)
    requires h.Valid()
    modifies h, h.table, h.nodes`next
    ensures h.Valid() && h.M == MapAfter(old(h.M), op) && r == Answer(old(h.M), op)
    ensures (h.table == old(h.table) || fresh(h.table)) && fresh(h.nodes - old(h.nodes))
  {
    match op
    case Put(k, v) =>
      r := h.Search(k);
      if r.None? {
        h.Insert(k, v);
      }
    case Lookup(k) => r := h.Search(k);
    case Delete(k) => r := h.Remove(k);
  }
}
