/**
  * The watch manager: three tables from paths to watcher lists, what each operation does to
  * them, and the loops over the lists.
  */
module Watches {
  import opened Common

  /** A watcher function and its context; function 0 is NULL. */
  datatype Watch = Watch(fn: int, ctx: int)

  datatype Which = Node | Exist | Child

  type Table = map<string, seq<Watch>>

  datatype Tables = Tables(node: Table, exist: Table, child: Table)

  function Get(t: Tables, which: Which): Table {
    match which
    case Node => t.node
    case Exist => t.exist
    case Child => t.child
  }

  function Set(t: Tables, which: Which, table: Table): Tables {
    match which
    case Node => t.(node := table)
    case Exist => t.(exist := table)
    case Child => t.(child := table)
  }

  function ListAt(table: Table, path: string): seq<Watch> {
    if path in table then table[path] else []
  }

  predicate NoDup(l: seq<Watch>) {
    forall i, j :: 0 <= i < j < |l| ==> l[i] != l[j]
  }

  /** Every list is non-empty and holds each watcher once. */
  predicate GoodTable(table: Table) {
    forall p :: p in table ==> table[p] != [] && NoDup(table[p])
  }

  predicate Good(t: Tables) {
    GoodTable(t.node) && GoodTable(t.exist) && GoodTable(t.child)
  }

  // ---------------------------------------------------------------------
  // Lists
  // ---------------------------------------------------------------------

  /** add_to_list: a new watcher goes to the head. */
  function AddTo(l: seq<Watch>, w: Watch): seq<Watch> {
    if w in l then l else [w] + l
  }

  /** copy_watchers. */
  function CopyInto(from: seq<Watch>, to: seq<Watch>): seq<Watch> {
    if from == [] then to else CopyInto(from[1..], AddTo(to, from[0]))
  }

  lemma {:induction false} CopyIsUnion(from: seq<Watch>, to: seq<Watch>)
    requires NoDup(to)
    ensures NoDup(CopyInto(from, to))
    ensures forall w :: w in CopyInto(from, to) <==> w in from || w in to
  {
    if from != [] {
      var first, rest := from[0], from[1..];
      assert from == [first] + rest;
      assert NoDup(AddTo(to, first));
      assert forall w :: w in AddTo(to, first) <==> w == first || w in to;
      CopyIsUnion(rest, AddTo(to, first));
    }
  }

  /** The list without one watcher. */
  function Without(l: seq<Watch>, w: Watch): seq<Watch> {
    if l == [] then [] else (if l[0] == w then [] else [l[0]]) + Without(l[1..], w)
  }

  lemma {:induction false} WithoutRemoves(l: seq<Watch>, w: Watch)
    requires NoDup(l)
    ensures NoDup(Without(l, w))
    ensures forall v :: v in Without(l, w) <==> v in l && v != w
  {
    if l != [] {
      assert l == [l[0]] + l[1..];
      assert l[0] !in l[1..];
      WithoutRemoves(l[1..], w);
    }
  }

  lemma {:induction false} WithoutAbsent(l: seq<Watch>, w: Watch)
    requires w !in l
    ensures Without(l, w) == l
  {
    if l != [] {
      assert l == [l[0]] + l[1..];
      WithoutAbsent(l[1..], w);
    }
  }

  lemma {:induction false} WithoutAt(l: seq<Watch>, w: Watch, k: nat)
    requires NoDup(l) && k < |l| && l[k] == w
    ensures Without(l, w) == l[..k] + l[k + 1..]
  {
    if k == 0 {
      assert l[0] !in l[1..];
      WithoutAbsent(l[1..], w);
    } else {
      WithoutAt(l[1..], w, k - 1);
      assert l[1..][..k - 1] == l[1..k] && l[1..][k..] == l[k + 1..];
    }
  }

  // ---------------------------------------------------------------------
  // Operations on the tables
  // ---------------------------------------------------------------------

  /** The request whose reply activates a watch. */
  datatype Request = ExistsRequest | DataRequest | ChildRequest

  /** The result checkers: which table a reply code selects, if any. */
  function Checker(kind: Request, rc: int): Option<Which> {
    match kind
    case ExistsRequest => if rc == ZOK then Some(Node) else if rc == ZNONODE then Some(Exist) else None
    case DataRequest => if rc == ZOK then Some(Node) else None
    case ChildRequest => if rc == ZOK then Some(Child) else None
  }

  function Activate(t: Tables, kind: Request, rc: int, path: string, w: Watch): Tables {
    match Checker(kind, rc)
    case None => t
    case Some(which) => Set(t, which, Get(t, which)[path := AddTo(ListAt(Get(t, which), path), w)])
  }

  // Event types.
  const CREATED: int := 1
  const DELETED: int := 2
  const CHANGED: int := 3
  const CHILD_EVENT: int := 4
  const SESSION: int := -1

  /** The tables a node event takes its watchers from. */
  predicate Selects(type_: int, which: Which) {
    match which
    case Node => type_ == CREATED || type_ == CHANGED || type_ == DELETED
    case Exist => type_ == CREATED || type_ == CHANGED || type_ == DELETED
    case Child => type_ == CHILD_EVENT || type_ == DELETED
  }

  function AfterEvent(t: Tables, type_: int, path: string): Tables {
    Tables(if Selects(type_, Node) then t.node - {path} else t.node,
           if Selects(type_, Exist) then t.exist - {path} else t.exist,
           if Selects(type_, Child) then t.child - {path} else t.child)
  }

  /** The delivery list of a node event. */
  function Delivery(t: Tables, type_: int, path: string): seq<Watch> {
    var fromNode := if Selects(type_, Node) then CopyInto(ListAt(t.node, path), []) else [];
    var fromExist := if Selects(type_, Exist) then CopyInto(ListAt(t.exist, path), fromNode) else fromNode;
    if Selects(type_, Child) then CopyInto(ListAt(t.child, path), fromExist) else fromExist
  }

  /** Whether a removal of the given watcher type looks at a table. */
  datatype WatcherType = ChildrenType | DataType | AnyType

  predicate Covers(wtype: WatcherType, which: Which) {
    match wtype
    case ChildrenType => which == Child
    case DataType => which == Node || which == Exist
    case AnyType => true
  }

  /** removeWatcher on one table: a NULL watcher removes the whole list. */
  function Removed(table: Table, path: string, w: Watch): Table {
    if path !in table then table
    else if w.fn == 0 || Without(table[path], w) == [] then table - {path}
    else table[path := Without(table[path], w)]
  }

  function Remove(t: Tables, wtype: WatcherType, path: string, w: Watch): Tables {
    Tables(if Covers(wtype, Node) then Removed(t.node, path, w) else t.node,
           if Covers(wtype, Exist) then Removed(t.exist, path, w) else t.exist,
           if Covers(wtype, Child) then Removed(t.child, path, w) else t.child)
  }

  /** A NULL watcher counts as present. */
  predicate ContainsWatcher(table: Table, path: string, w: Watch) {
    w.fn == 0 || w in ListAt(table, path)
  }

  predicate PathHasWatcher(t: Tables, path: string, wtype: WatcherType, w: Watch) {
    exists which: Which :: Covers(wtype, which) && ContainsWatcher(Get(t, which), path, w)
  }

  // ---------------------------------------------------------------------
  // The loops over lists
  // ---------------------------------------------------------------------

  method SearchWatcher(l: seq<Watch>, w: Watch) returns (found: bool)
    ensures found <==> w in l
  {
    var i := 0;
    while i < |l|
      invariant 0 <= i <= |l| && w !in l[..i]
    {
      if l[i].fn == w.fn && l[i].ctx == w.ctx {
        return true;
      }
      i := i + 1;
    }
    return false;
  }

  method CopyWatchers(from: seq<Watch>, to: seq<Watch>) returns (l: seq<Watch>)
    requires NoDup(to)
    ensures l == CopyInto(from, to)
    ensures NoDup(l) && forall w :: w in l <==> w in from || w in to
  {
    l := to;
    var i := 0;
    assert from[0..] == from;
    while i < |from|
      invariant 0 <= i <= |from| && CopyInto(from[i..], l) == CopyInto(from, to)
    {
      assert from[i..][0] == from[i] && from[i..][1..] == from[i + 1..];
      var found := SearchWatcher(l, from[i]);
      if !found {
        l := [from[i]] + l;
      }
      i := i + 1;
    }
    CopyIsUnion(from, to);
  }

  /** Looks behind each node before it looks at the head, as the linked list is walked. */
  method RemoveWatcherFromList(l: seq<Watch>, w: Watch) returns (r: seq<Watch>)
    requires NoDup(l)
    ensures r == Without(l, w)
    ensures NoDup(r) && forall v :: v in r <==> v in l && v != w
  {
    r := l;
    WithoutRemoves(l, w);
    var e := 0;
    while e < |l|
      invariant 0 <= e <= |l| && r == l && forall i :: 1 <= i <= e && i < |l| ==> l[i] != w
    {
      if e + 1 < |l| && l[e + 1] == w {
        WithoutAt(l, w, e + 1);
        r := l[..e + 1] + l[e + 2..];
        break;
      }
      e := e + 1;
    }
    if r != [] && r[0] == w {
      assert r == l;
      WithoutAt(l, w, 0);
      r := r[1..];
    } else if r == l {
      WithoutAbsent(l, w);
    }
  }
}
