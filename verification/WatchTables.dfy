/**
  * The watch manager on the heap: three hash tables from paths to watcher lists, each list an
  * object that is updated in place.
  */
module WatchTables {
  import opened Common
  import opened Watches
  import opened WatchHistory
  import HT = HashTable
  import HI = HashIterator

  /** A watcher list behind its head. */
  class WatchList {
    var list: seq<Watch>

    constructor (list: seq<Watch>)
      ensures this.list == list
    {
      this.list := list;
    }
  }

  /** No list serves two paths. */
  ghost predicate OneToOne(m: map<string, WatchList>) {
    forall a, b :: a in m && b in m && a != b ==> m[a] != m[b]
  }

  ghost function Contents(m: map<string, WatchList>): Table
    reads m.Values
  {
    map p | p in m :: m[p].list
  }

  lemma ValuesAdd(m: map<string, WatchList>, path: string, l: WatchList)
    requires path !in m
    ensures m[path := l].Values == m.Values + {l}
  {
    var n := m[path := l];
    forall v | v in n.Values ensures v in m.Values + {l} {
      var p :| p in n && n[p] == v;
    }
    forall v | v in m.Values ensures v in n.Values {
      var p :| p in m && m[p] == v;
      assert n[p] == v;
    }
    assert n[path] == l;
  }

  lemma ContentsAdd(m: map<string, WatchList>, path: string, l: WatchList)
    requires OneToOne(m) && path !in m && l !in m.Values
    ensures OneToOne(m[path := l]) && Contents(m[path := l]) == Contents(m)[path := l.list]
    ensures m[path := l].Values == m.Values + {l}
  {
    assert forall p :: p in m ==> m[p] in m.Values;
    ValuesAdd(m, path, l);
  }

  lemma ContentsRemove(m: map<string, WatchList>, path: string)
    requires OneToOne(m)
    ensures OneToOne(m - {path}) && Contents(m - {path}) == Contents(m) - {path} && (m - {path}).Values <= m.Values
  {
  }

  /** Changes one path's list in place; no other path sees it. */
  method Replace(l: WatchList, list: seq<Watch>, ghost m: map<string, WatchList>, ghost path: string)
    requires OneToOne(m) && path in m && m[path] == l
    modifies l
    ensures Contents(m) == old(Contents(m))[path := list]
  {
    l.list := list;
    assert forall p :: p in m && p != path ==> m[p] != l;
  }

  /** The hash table underneath, as far as the watch manager has to know. */
  ghost predicate Intact(h: HT.Table<WatchList>)
    reads h, h.table, h.nodes
  {
    forall k {:trigger Key(k)} :: Key(k) ==> h.Valid()
  }

  method Search(h: HT.Table<WatchList>, path: string) returns (r: Option<WatchList>)
    requires Intact(h)
    ensures r == if path in h.M then Some(h.M[path]) else None
  {
    assert Key(0);
    r := h.Search(path);
  }

  method Insert(h: HT.Table<WatchList>, path: string, l: WatchList)
    requires Intact(h) && path !in h.M
    modifies h, h.table, h.nodes`next
    ensures Intact(h) && h.M == old(h.M)[path := l]
    ensures (h.table == old(h.table) || fresh(h.table)) && fresh(h.nodes - old(h.nodes))
  {
    assert Key(0);
    h.Insert(path, l);
  }

  method Delete(h: HT.Table<WatchList>, path: string) returns (r: Option<WatchList>)
    requires Intact(h)
    modifies h, h.table, h.nodes`next
    ensures Intact(h) && h.M == old(h.M) - {path} && h.table == old(h.table) && h.nodes == old(h.nodes)
    ensures r == if path in old(h.M) then Some(old(h.M)[path]) else None
  {
    assert Key(0);
    r := h.Remove(path);
  }

  /** Inserting a list for a new path, seen from the contents. */
  method InsertList(h: HT.Table<WatchList>, path: string, l: WatchList)
    requires Intact(h) && OneToOne(h.M) && path !in h.M && l !in h.M.Values
    modifies h, h.table, h.nodes`next
    ensures Intact(h) && OneToOne(h.M) && Contents(h.M) == old(Contents(h.M))[path := l.list]
    ensures h.M.Values == old(h.M.Values) + {l}
    ensures (h.table == old(h.table) || fresh(h.table)) && fresh(h.nodes - old(h.nodes))
  {
    ghost var m := h.M;
    Insert(h, path, l);
    ContentsAdd(m, path, l);
    assert Contents(m) == old(Contents(h.M));
  }

  /** Taking a path's list out, seen from the contents. */
  method DeleteList(h: HT.Table<WatchList>, path: string) returns (r: Option<WatchList>)
    requires Intact(h) && OneToOne(h.M)
    modifies h, h.table, h.nodes`next
    ensures Intact(h) && OneToOne(h.M) && Contents(h.M) == old(Contents(h.M)) - {path}
    ensures h.M.Values <= old(h.M.Values) && h.table == old(h.table) && h.nodes == old(h.nodes)
    ensures r == if path in old(h.M) then Some(old(h.M)[path]) else None
  {
    ghost var m := h.M;
    r := Delete(h, path);
    ContentsRemove(m, path);
    assert Contents(m) == old(Contents(h.M));
  }

  class WatchTable {
    const h: HT.Table<WatchList>
    /** Everything the table is made of. */
    ghost var Repr: set<object>
    /** The watchers of every path. */
    ghost var contents: Table

    ghost predicate Valid()
      reads this, Repr
    {
      this in Repr && forall k {:trigger Key(k)} :: Key(k) ==> Linked()
    }

    /** The hash table is intact and holds the contents. */
    ghost predicate Linked()
      reads this, Repr
    {
      && h in Repr && h.table in Repr && h.nodes <= Repr && h.M.Values <= Repr
      && Intact(h) && OneToOne(h.M) && Contents(h.M) == contents
    }

    lemma Open()
      requires Valid()
      ensures Linked()
    {
      assert Key(0);
    }

    /** Notes what the table now holds and is made of. */
    ghost method Note(table: Table, parts: set<object>)
      requires Intact(h) && OneToOne(h.M) && Contents(h.M) == table
      requires this in parts && h in parts && h.table in parts && h.nodes <= parts && h.M.Values <= parts
      modifies this`contents, this`Repr
      ensures Valid() && contents == table && Repr == parts
    {
      contents, Repr := table, parts;
    }

    constructor (hashfn: string -> nat)
      ensures Valid() && contents == map[] && fresh(Repr)
    {
      h := new HT.Table<WatchList>(32, hashfn);
      contents := map[];
      new;
      Repr := {this, h, h.table};
    }

    /** do_insert_watcher_object. */
    method Add(path: string, w: Watch)
      requires Valid()
      modifies Repr
      ensures Valid() && contents == old(contents)[path := AddTo(ListAt(old(contents), path), w)] && fresh(Repr - old(Repr))
    {
      Open();
      var found := Search(h, path);
      if found.None? {
        assert AddTo(ListAt(contents, path), w) == [w];
        InsertNew(path, w);
      } else {
        var l := found.value;
        assert l in h.M.Values && l.list == contents[path];
        var has := SearchWatcher(l.list, w);
        if has {
          assert contents[path := contents[path]] == contents;
        } else {
          SetList(l, [w] + l.list, path);
        }
      }
    }

    method InsertNew(path: string, w: Watch)
      requires Valid() && path !in contents
      modifies Repr
      ensures Valid() && contents == old(contents)[path := [w]] && fresh(Repr - old(Repr))
    {
      Open();
      var l := new WatchList([w]);
      AddList(path, l);
    }

    method AddList(path: string, l: WatchList)
      requires Valid() && Linked() && path !in contents && l !in Repr
      modifies Repr
      ensures Valid() && contents == old(contents)[path := l.list] && fresh(Repr - old(Repr) - {l})
    {
      InsertList(h, path, l);
      Note(contents[path := l.list], Repr + {l, h.table} + h.nodes);
    }

    /** Changes one path's list in place. */
    method SetList(l: WatchList, list: seq<Watch>, ghost path: string)
      requires Valid() && Linked() && path in h.M && h.M[path] == l
      modifies Repr
      ensures Valid() && contents == old(contents)[path := list] && Repr == old(Repr)
    {
      assert l in h.M.Values;
      Replace(l, list, h.M, path);
      Note(contents[path := list], Repr);
    }

    /** Takes a whole list out of the table. */
    method Take(path: string) returns (list: seq<Watch>)
      requires Valid()
      modifies Repr
      ensures Valid() && contents == old(contents) - {path} && Repr == old(Repr)
      ensures list == ListAt(old(contents), path)
    {
      Open();
      var found := DeleteList(h, path);
      list := if found.None? then [] else found.value.list;
      Note(contents - {path}, Repr);
    }

    /** add_for_event: moves a path's list from the table to the delivery list. */
    method MoveTo(path: string, list: seq<Watch>) returns (list': seq<Watch>)
      requires Valid() && NoDup(list)
      modifies Repr
      ensures Valid() && contents == old(contents) - {path} && Repr == old(Repr)
      ensures list' == CopyInto(ListAt(old(contents), path), list) && NoDup(list')
    {
      var taken := Take(path);
      list' := CopyWatchers(taken, list);
    }

    method RemoveWatcher(path: string, w: Watch)
      requires Valid() && GoodTable(contents)
      modifies Repr
      ensures Valid() && contents == Removed(old(contents), path, w) && Repr == old(Repr)
    {
      Open();
      var found := Search(h, path);
      if found.None? {
        return;
      }
      if w.fn == 0 {
        var gone := Take(path);
        return;
      }
      var l := found.value;
      assert l in h.M.Values && l.list == contents[path];
      var left := RemoveWatcherFromList(l.list, w);
      if left == [] {
        var gone := Take(path);
      } else {
        SetList(l, left, path);
      }
    }

    /** Adds every watcher of the table to a list. */
    method CopyTo(to: seq<Watch>) returns (l: seq<Watch>)
      requires Valid() && NoDup(to)
      ensures NoDup(l) && forall w :: w in l <==> w in to || Somewhere(contents, w)
    {
      Open();
      l := CopyEntries(h, to);
      assert forall w :: Somewhere(contents, w) <==> exists p :: p in h.M && w in h.M[p].list by {
        assert forall p :: p in h.M ==> contents[p] == h.M[p].list;
      }
    }

    method Has(path: string, w: Watch) returns (has: bool)
      requires Valid()
      ensures has <==> ContainsWatcher(contents, path, w)
    {
      Open();
      if w.fn == 0 {
        return true;
      }
      var found := Search(h, path);
      if found.None? {
        return false;
      }
      has := SearchWatcher(found.value.list, w);
    }
  }

  /** A table is intact as long as none of its parts is touched. */
  twostate lemma Untouched(t: WatchTable)
    requires old(t.Valid()) && unchanged(t) && unchanged(t.Repr)
    ensures t.Valid()
  {
  }

  class WatchManager {
    const node: WatchTable
    const exist: WatchTable
    const child: WatchTable
    const defaultWatch: Watch

    /** The tables are intact and share nothing. */
    ghost predicate Valid()
      reads node, node.Repr, exist, exist.Repr, child, child.Repr
    {
      && node.Valid() && exist.Valid() && child.Valid()
      && node.Repr !! exist.Repr && node.Repr !! child.Repr && exist.Repr !! child.Repr
    }

    ghost function Abs(): Tables
      reads node, exist, child
    {
      Tables(node.contents, exist.contents, child.contents)
    }

    constructor (hashfn: string -> nat, w: Watch)
      ensures Valid() && Abs() == EMPTY && defaultWatch == w
      ensures fresh(node.Repr) && fresh(exist.Repr) && fresh(child.Repr)
    {
      node := new WatchTable(hashfn);
      exist := new WatchTable(hashfn);
      child := new WatchTable(hashfn);
      defaultWatch := w;
    }

    /** activateWatcher: the reply's code selects the table. */
    method ActivateWatcher(kind: Request, rc: int, path: string, w: Watch)
      requires Valid()
      modifies node.Repr, exist.Repr, child.Repr
      ensures Valid() && Abs() == Activate(old(Abs()), kind, rc, path, w)
      ensures fresh(node.Repr - old(node.Repr)) && fresh(exist.Repr - old(exist.Repr)) && fresh(child.Repr - old(child.Repr))
    {
      match Checker(kind, rc)
      case None =>
      case Some(Node) => node.Add(path, w);
      case Some(Exist) => exist.Add(path, w);
      case Some(Child) => child.Add(path, w);
    }

    /** removeWatchers on the tables the watcher type selects. */
    method RemoveWatchers(wtype: WatcherType, path: string, w: Watch)
      requires Valid() && Good(Abs())
      modifies node.Repr, exist.Repr, child.Repr
      ensures Valid() && Abs() == Remove(old(Abs()), wtype, path, w)
      ensures node.Repr == old(node.Repr) && exist.Repr == old(exist.Repr) && child.Repr == old(child.Repr)
    {
      if wtype == ChildrenType || wtype == AnyType {
        child.RemoveWatcher(path, w);
      }
      if wtype == DataType || wtype == AnyType {
        RemoveData(path, w);
      }
    }

    method RemoveData(path: string, w: Watch)
      requires Valid() && GoodTable(node.contents) && GoodTable(exist.contents)
      modifies node.Repr, exist.Repr
      ensures Valid() && node.Repr == old(node.Repr) && exist.Repr == old(exist.Repr)
      ensures node.contents == Removed(old(node.contents), path, w) && exist.contents == Removed(old(exist.contents), path, w)
      ensures child.contents == old(child.contents)
    {
      label before:
      node.RemoveWatcher(path, w);
      Untouched@before(exist);
      Untouched@before(child);
      label between:
      exist.RemoveWatcher(path, w);
      Untouched@between(node);
      Untouched@between(child);
    }

    /** pathHasWatcher. */
    method HasWatcher(path: string, wtype: WatcherType, w: Watch) returns (found: bool)
      requires Valid()
      ensures found <==> PathHasWatcher(Abs(), path, wtype, w)
    {
      var inNode := node.Has(path, w);
      var inExist := exist.Has(path, w);
      var inChild := child.Has(path, w);
      assert ContainsWatcher(Get(Abs(), Node), path, w) <==> inNode;
      assert ContainsWatcher(Get(Abs(), Exist), path, w) <==> inExist;
      assert ContainsWatcher(Get(Abs(), Child), path, w) <==> inChild;
      match wtype
      case ChildrenType => found := inChild;
      case DataType => found := inNode || inExist;
      case AnyType => found := inChild || inNode || inExist;
    }

    /** A session event goes to the default watcher and to every other one once, and removes none. */
    method CollectSessionWatchers() returns (l: seq<Watch>)
      requires Valid()
      ensures NoDup(l)
      ensures forall w :: w in l <==> w == defaultWatch || exists which: Which, p :: p in Get(Abs(), which) && w in Get(Abs(), which)[p]
    {
      l := [defaultWatch];
      l := node.CopyTo(l);
      l := exist.CopyTo(l);
      l := child.CopyTo(l);
      forall w ensures w in l <==> w == defaultWatch || exists which: Which, p :: p in Get(Abs(), which) && w in Get(Abs(), which)[p] {
        InSomeTable(Abs(), w);
      }
    }

    /** collectWatchers for a node event. */
    method CollectWatchers(type_: int, path: string) returns (list: seq<Watch>)
      requires Valid() && type_ != SESSION
      modifies node.Repr, exist.Repr, child.Repr
      ensures Valid() && Abs() == AfterEvent(old(Abs()), type_, path)
      ensures list == Delivery(old(Abs()), type_, path) && NoDup(list)
      ensures node.Repr == old(node.Repr) && exist.Repr == old(exist.Repr) && child.Repr == old(child.Repr)
    {
      EventCases(Abs(), type_, path);
      list := [];
      if type_ == CREATED || type_ == CHANGED {
        list := CollectData(path);
      } else if type_ == CHILD_EVENT {
        list := child.MoveTo(path, list);
      } else if type_ == DELETED {
        list := CollectData(path);
        list := child.MoveTo(path, list);
      }
    }

    /** The lists of the path in the two data tables. */
    method CollectData(path: string) returns (list: seq<Watch>)
      requires Valid()
      modifies node.Repr, exist.Repr
      ensures Valid() && NoDup(list) && node.Repr == old(node.Repr) && exist.Repr == old(exist.Repr)
      ensures Abs() == WithoutData(old(Abs()), path) && list == DataOf(old(Abs()), path)
    {
      label before:
      list := node.MoveTo(path, []);
      Untouched@before(exist);
      Untouched@before(child);
      label between:
      list := exist.MoveTo(path, list);
      Untouched@between(node);
      Untouched@between(child);
    }
  }

  /** Some path of the table has the watcher. */
  ghost predicate Somewhere(table: Table, w: Watch) {
    exists p :: p in table && w in table[p]
  }

  lemma InSomeTable(t: Tables, w: Watch)
    ensures Somewhere(t.node, w) || Somewhere(t.exist, w) || Somewhere(t.child, w) <==>
            exists which: Which, p :: p in Get(t, which) && w in Get(t, which)[p]
  {
    if p :| p in t.node && w in t.node[p] { assert p in Get(t, Node) && w in Get(t, Node)[p]; }
    if p :| p in t.exist && w in t.exist[p] { assert p in Get(t, Exist) && w in Get(t, Exist)[p]; }
    if p :| p in t.child && w in t.child[p] { assert p in Get(t, Child) && w in Get(t, Child)[p]; }
  }

  method StartWalk(h: HT.Table<WatchList>) returns (it: HI.Iterator<WatchList>, ghost all: seq<HT.Entry<WatchList>>)
    requires Intact(h)
    ensures fresh(it) && it.h == h && HI.Walking(it, all, 0) && HT.KeysDistinct(all) && HT.MapOf(all) == h.M
  {
    assert Key(0);
    all := HT.Flat(h.chains, 0);
    HT.LayoutIsMap(h.chains, h.hashfn, h.M);
    it := new HI.Iterator<WatchList>(h);
    assert all[0..] == all;
  }

  /** Copies the current entry's list and goes on. */
  method CopyEntry(it: HI.Iterator<WatchList>, l: seq<Watch>, ghost all: seq<HT.Entry<WatchList>>, ghost i: nat)
    returns (l': seq<Watch>)
    requires HI.Walking(it, all, i) && it.e != null && NoDup(l)
    modifies it
    ensures HI.Walking(it, all, i + 1)
    ensures NoDup(l') && forall w :: w in l' <==> w in l || w in all[i].v.list
  {
    assert Key(0);
    assert it.Rest()[0] == all[i] == it.e;
    assert all[i..][1..] == all[i + 1..];
    l' := CopyWatchers(it.e.v.list, l);
    var more := it.Advance();
  }

  /** The list holds what was there and the watchers of the first i entries. */
  ghost predicate Gathered(l: seq<Watch>, to: seq<Watch>, all: seq<HT.Entry<WatchList>>, i: nat)
    requires i <= |all|
    reads set e | e in all :: e.v
  {
    NoDup(l) && forall k {:trigger Key(k)} :: Key(k) ==> forall w :: w in l <==> w in to || InEntries(all[..i], w)
  }

  lemma GatherNext(l: seq<Watch>, l': seq<Watch>, to: seq<Watch>, all: seq<HT.Entry<WatchList>>, i: nat)
    requires i < |all| && Gathered(l, to, all, i) && NoDup(l') && forall w :: w in l' <==> w in l || w in all[i].v.list
    ensures Gathered(l', to, all, i + 1)
  {
    assert Key(0);
    InEntriesSnoc(all, i);
  }

  lemma GatheredAll(l: seq<Watch>, to: seq<Watch>, all: seq<HT.Entry<WatchList>>, m: map<string, WatchList>)
    requires Gathered(l, to, all, |all|) && HT.KeysDistinct(all) && HT.MapOf(all) == m
    ensures NoDup(l) && forall w :: w in l <==> w in to || exists p :: p in m && w in m[p].list
  {
    assert Key(0);
    assert all[..|all|] == all;
    EntriesAreMap(all, m);
  }

  /** One entry more. */
  method GatherEntry(it: HI.Iterator<WatchList>, l: seq<Watch>, ghost to: seq<Watch>,
                                     ghost all: seq<HT.Entry<WatchList>>, ghost i: nat)
    returns (l': seq<Watch>)
    requires HI.Walking(it, all, i) && it.e != null && Gathered(l, to, all, i)
    modifies it
    ensures HI.Walking(it, all, i + 1) && Gathered(l', to, all, i + 1)
  {
    l' := CopyEntry(it, l, all, i);
    GatherNext(l, l', to, all, i);
  }

  /** copy_table: the lists in the order the table is walked. */
  method CopyEntries(h: HT.Table<WatchList>, to: seq<Watch>) returns (l: seq<Watch>)
    requires Intact(h) && NoDup(to)
    ensures NoDup(l) && forall w :: w in l <==> w in to || exists p :: p in h.M && w in h.M[p].list
  {
    var it;
    ghost var all;
    it, all := StartWalk(h);
    l := to;
    ghost var i := 0;
    while it.e != null
      invariant it.h == h && fresh(it) && HI.Walking(it, all, i) && Gathered(l, to, all, i)
      decreases |all| - i
    {
      l := GatherEntry(it, l, to, all, i);
      i := i + 1;
    }
    GatheredAll(l, to, all, h.M);
  }

  ghost predicate InEntries(es: seq<HT.Entry<WatchList>>, w: Watch)
    reads set e | e in es :: e.v
  {
    exists j :: 0 <= j < |es| && w in es[j].v.list
  }

  lemma InEntriesSnoc(es: seq<HT.Entry<WatchList>>, i: nat)
    requires i < |es|
    ensures forall w :: InEntries(es[..i + 1], w) <==> InEntries(es[..i], w) || w in es[i].v.list
  {
    forall w ensures InEntries(es[..i + 1], w) <==> InEntries(es[..i], w) || w in es[i].v.list {
      var a, b := es[..i], es[..i + 1];
      if InEntries(a, w) {
        var j :| 0 <= j < |a| && w in a[j].v.list;
        assert b[j] == a[j];
      }
      if w in es[i].v.list {
        assert b[i] == es[i];
      }
      if InEntries(b, w) && w !in es[i].v.list {
        var j :| 0 <= j < |b| && w in b[j].v.list;
        assert a[j] == b[j];
      }
    }
  }

  lemma EntriesAreMap(es: seq<HT.Entry<WatchList>>, m: map<string, WatchList>)
    requires HT.KeysDistinct(es) && HT.MapOf(es) == m
    ensures forall w :: InEntries(es, w) <==> exists p :: p in m && w in m[p].list
  {
    forall w ensures InEntries(es, w) <==> exists p :: p in m && w in m[p].list {
      HT.MapOfMember(es, "");
      if InEntries(es, w) {
        var j :| 0 <= j < |es| && w in es[j].v.list;
        assert m[es[j].k] == es[j].v;
      }
      if p :| p in m && w in m[p].list {
        HT.MapOfMember(es, p);
        var j :| 0 <= j < |es| && es[j].k == p;
        assert es[j].v == m[p];
      }
    }
  }

  function WithoutData(t: Tables, path: string): Tables {
    Tables(t.node - {path}, t.exist - {path}, t.child)
  }

  function DataOf(t: Tables, path: string): seq<Watch> {
    CopyInto(ListAt(t.exist, path), CopyInto(ListAt(t.node, path), []))
  }

  /** What the event types come to. */
  lemma EventCases(t: Tables, type_: int, path: string)
    ensures type_ == CREATED || type_ == CHANGED ==>
              AfterEvent(t, type_, path) == WithoutData(t, path) && Delivery(t, type_, path) == DataOf(t, path)
    ensures type_ == CHILD_EVENT ==>
              AfterEvent(t, type_, path) == t.(child := t.child - {path})
              && Delivery(t, type_, path) == CopyInto(ListAt(t.child, path), [])
    ensures type_ == DELETED ==>
              AfterEvent(t, type_, path) == WithoutData(t, path).(child := t.child - {path})
              && Delivery(t, type_, path) == CopyInto(ListAt(t.child, path), DataOf(t, path))
    ensures type_ != CREATED && type_ != CHANGED && type_ != CHILD_EVENT && type_ != DELETED ==>
              AfterEvent(t, type_, path) == t && Delivery(t, type_, path) == []
  {
  }

  // ---------------------------------------------------------------------
  // Whole runs
  // ---------------------------------------------------------------------

  /** What each event of a run delivers; only node events deliver anything here. */
  function Delivered(run: seq<Event>, i: nat): seq<Watch>
    requires i < |run|
  {
    if run[i].NodeEvent? then Delivery(After(run[..i]), run[i].type_, run[i].path) else []
  }

  /**
    * For every hash function and every run of activations, node events and removals, the heap
    * tables end as the history says and every event delivers what the history says.
    */
  method Replay(hashfn: string -> nat, w: Watch, run: seq<Event>) returns (m: WatchManager, deliveries: seq<seq<Watch>>)
    requires forall i :: 0 <= i < |run| && run[i].NodeEvent? ==> run[i].type_ != SESSION
    ensures m.Valid() && m.Abs() == After(run)
    ensures |deliveries| == |run| && forall i :: 0 <= i < |run| ==> deliveries[i] == Delivered(run, i)
  {
    m := new WatchManager(hashfn, w);
    deliveries := [];
    var i := 0;
    while i < |run|
      invariant 0 <= i <= |run| && |deliveries| == i
      invariant m.Valid() && fresh(m.node.Repr) && fresh(m.exist.Repr) && fresh(m.child.Repr)
      invariant m.Abs() == After(run[..i])
      invariant forall j :: 0 <= j < i ==> deliveries[j] == Delivered(run, j)
    {
      assert run[..i + 1][..i] == run[..i];
      ListsStayGood(run[..i]);
      var list := Happen(m, run[i]);
      deliveries := deliveries + [list];
      i := i + 1;
    }
    assert run[..i] == run;
  }

  /** One event of a run. */
  method Happen(m: WatchManager, e: Event) returns (list: seq<Watch>)
    requires m.Valid() && Good(m.Abs()) && (e.NodeEvent? ==> e.type_ != SESSION)
    modifies m.node.Repr, m.exist.Repr, m.child.Repr
    ensures m.Valid() && m.Abs() == WatchHistory.Step(old(m.Abs()), e)
    ensures list == if e.NodeEvent? then Delivery(old(m.Abs()), e.type_, e.path) else []
    ensures fresh(m.node.Repr - old(m.node.Repr)) && fresh(m.exist.Repr - old(m.exist.Repr)) && fresh(m.child.Repr - old(m.child.Repr))
  {
    list := [];
    match e
    case Activated(kind, rc, path, w) => m.ActivateWatcher(kind, rc, path, w);
    case RemovedWatch(wtype, path, w) => m.RemoveWatchers(wtype, path, w);
    case NodeEvent(type_, path) => list := m.CollectWatchers(type_, path);
  }
}
