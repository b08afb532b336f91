/**
  * Watches over whole runs: one-shot, never lost, and exactly as the history says.
  */
module WatchHistory {
  import opened Common
  import opened Watches

  /** What can happen to the tables; session events deliver without removing and are left out. */
  datatype Event =
    | Activated(kind: Request, rc: int, path: string, w: Watch)
    | NodeEvent(type_: int, path: string)
    | RemovedWatch(wtype: WatcherType, path: string, w: Watch)

  const EMPTY := Tables(map[], map[], map[])

  function Step(t: Tables, e: Event): Tables {
    match e
    case Activated(kind, rc, path, w) => Activate(t, kind, rc, path, w)
    case NodeEvent(type_, path) => AfterEvent(t, type_, path)
    case RemovedWatch(wtype, path, w) => Remove(t, wtype, path, w)
  }

  /** The tables after a run from empty ones. */
  function After(run: seq<Event>): Tables {
    if run == [] then EMPTY else Step(After(run[..|run| - 1]), run[|run| - 1])
  }

  // ---------------------------------------------------------------------
  // Lists stay good
  // ---------------------------------------------------------------------

  lemma StepKeepsGood(t: Tables, e: Event)
    requires Good(t)
    ensures Good(Step(t, e))
  {
    if e.RemovedWatch? {
      RemovedKeepsGood(t.node, e.path, e.w);
      RemovedKeepsGood(t.exist, e.path, e.w);
      RemovedKeepsGood(t.child, e.path, e.w);
    } else if e.Activated? && Checker(e.kind, e.rc).Some? {
      ActivateKeepsGood(Get(t, Checker(e.kind, e.rc).value), e.path, e.w);
    }
  }

  lemma RemovedKeepsGood(table: Table, path: string, w: Watch)
    requires GoodTable(table)
    ensures GoodTable(Removed(table, path, w))
  {
    if path in table {
      WithoutRemoves(table[path], w);
    }
  }

  lemma ActivateKeepsGood(table: Table, path: string, w: Watch)
    requires GoodTable(table)
    ensures GoodTable(table[path := AddTo(ListAt(table, path), w)])
  {
  }

  /** Over every run each list in each table is non-empty and duplicate-free. */
  lemma {:induction false} ListsStayGood(run: seq<Event>)
    ensures Good(After(run))
  {
    if run != [] {
      ListsStayGood(run[..|run| - 1]);
      StepKeepsGood(After(run[..|run| - 1]), run[|run| - 1]);
    }
  }

  // ---------------------------------------------------------------------
  // Single operations
  // ---------------------------------------------------------------------

  /** The watcher is registered for the path in the table. */
  predicate Armed(t: Tables, which: Which, path: string, w: Watch) {
    w in ListAt(Get(t, which), path)
  }

  /**
    * A node event goes exactly to the watchers of its path in the tables it selects, each
    * once; those entries are gone afterwards and everything else is as before.
    */
  lemma EventDeliversAndClears(t: Tables, type_: int, path: string)
    ensures NoDup(Delivery(t, type_, path))
    ensures forall w :: w in Delivery(t, type_, path) <==> exists which: Which :: Selects(type_, which) && Armed(t, which, path, w)
    ensures forall which: Which, p, w ::
              Armed(AfterEvent(t, type_, path), which, p, w) <==>
              Armed(t, which, p, w) && !(Selects(type_, which) && p == path)
  {
    var fromNode := if Selects(type_, Node) then CopyInto(ListAt(t.node, path), []) else [];
    CopyIsUnion(ListAt(t.node, path), []);
    var fromExist := if Selects(type_, Exist) then CopyInto(ListAt(t.exist, path), fromNode) else fromNode;
    CopyIsUnion(ListAt(t.exist, path), fromNode);
    CopyIsUnion(ListAt(t.child, path), fromExist);
    forall w ensures w in Delivery(t, type_, path) <==> exists which: Which :: Selects(type_, which) && Armed(t, which, path, w) {
      if Selects(type_, Node) && w in ListAt(t.node, path) { assert Armed(t, Node, path, w); }
      if Selects(type_, Exist) && w in ListAt(t.exist, path) { assert Armed(t, Exist, path, w); }
      if Selects(type_, Child) && w in ListAt(t.child, path) { assert Armed(t, Child, path, w); }
    }
    forall which: Which, p, w
      ensures Armed(AfterEvent(t, type_, path), which, p, w) <==> Armed(t, which, p, w) && !(Selects(type_, which) && p == path)
    {
      match which case Node => case Exist => case Child =>
    }
  }

  /** A removal takes away precisely the given watcher, or the whole list for NULL. */
  lemma RemoveTakesPrecisely(t: Tables, wtype: WatcherType, path: string, w: Watch, which: Which, p: string, v: Watch)
    requires Good(t)
    ensures Armed(Remove(t, wtype, path, w), which, p, v) <==>
            Armed(t, which, p, v) && !(Covers(wtype, which) && p == path && (v == w || w.fn == 0))
  {
    var table := Get(t, which);
    if path in table {
      WithoutRemoves(table[path], w);
    }
    match which case Node => case Exist => case Child =>
  }

  /**
    * After a removal the path has the watcher no longer, unless the watcher is NULL: that one
    * is always reported as present.
    */
  lemma RemovedIsGoneIff(t: Tables, wtype: WatcherType, path: string, w: Watch)
    requires Good(t)
    ensures !PathHasWatcher(Remove(t, wtype, path, w), path, wtype, w) <==> w.fn != 0
  {
    var t' := Remove(t, wtype, path, w);
    if w.fn != 0 {
      forall which: Which | Covers(wtype, which) ensures !ContainsWatcher(Get(t', which), path, w) {
        RemoveTakesPrecisely(t, wtype, path, w, which, path, w);
      }
    } else {
      var which := if wtype == ChildrenType then Child else Node;
      assert Covers(wtype, which) && ContainsWatcher(Get(t', which), path, w);
    }
  }

  // ---------------------------------------------------------------------
  // What the history says
  // ---------------------------------------------------------------------

  predicate Arms(e: Event, which: Which, path: string, w: Watch) {
    e.Activated? && Checker(e.kind, e.rc) == Some(which) && e.path == path && e.w == w
  }

  predicate Disarms(e: Event, which: Which, path: string, w: Watch) {
    match e
    case Activated(_, _, _, _) => false
    case NodeEvent(type_, p) => Selects(type_, which) && p == path
    case RemovedWatch(wtype, p, v) => Covers(wtype, which) && p == path && (v == w || v.fn == 0)
  }

  lemma StepArms(t: Tables, e: Event, which: Which, path: string, w: Watch)
    requires Good(t)
    ensures Armed(Step(t, e), which, path, w) <==>
            Arms(e, which, path, w) || (Armed(t, which, path, w) && !Disarms(e, which, path, w))
  {
    match e
    case Activated(kind, rc, p, v) =>
      if Checker(kind, rc) == Some(which) && p == path {
        assert ListAt(Get(Step(t, e), which), path) == AddTo(ListAt(Get(t, which), path), v);
      } else {
        assert ListAt(Get(Step(t, e), which), path) == ListAt(Get(t, which), path) by {
          match which case Node => case Exist => case Child =>
        }
      }
    case NodeEvent(type_, p) => EventDeliversAndClears(t, type_, p);
    case RemovedWatch(wtype, p, v) => RemoveTakesPrecisely(t, wtype, p, v, which, path, w);
  }

  /** Some activation at i has not been undone since. */
  predicate ArmedSince(run: seq<Event>, i: nat, which: Which, path: string, w: Watch) {
    i < |run| && Arms(run[i], which, path, w) && forall j :: i < j < |run| ==> !Disarms(run[j], which, path, w)
  }

  /**
    * Never lost, never invented: after any run a watcher is registered in a table exactly when
    * some reply activated it there and no event or removal has cleared it since.
    */
  lemma {:induction false} ArmedIffHistory(run: seq<Event>, which: Which, path: string, w: Watch)
    ensures Armed(After(run), which, path, w) <==> exists i: nat :: ArmedSince(run, i, which, path, w)
  {
    if run == [] {
      assert ListAt(Get(EMPTY, which), path) == [] by { match which case Node => case Exist => case Child => }
    } else {
      var n := |run| - 1;
      var before, e := run[..n], run[n];
      ArmedIffHistory(before, which, path, w);
      ListsStayGood(before);
      StepArms(After(before), e, which, path, w);
      if Arms(e, which, path, w) {
        assert ArmedSince(run, n, which, path, w);
      }
      forall i: nat | i < n
        ensures ArmedSince(run, i, which, path, w) <==> ArmedSince(before, i, which, path, w) && !Disarms(e, which, path, w)
      {
        SinceLast(run, i, which, path, w);
      }
    }
  }

  /** One event more: the watcher is armed since i if it was and the last event has not cleared it. */
  lemma SinceLast(run: seq<Event>, i: nat, which: Which, path: string, w: Watch)
    requires i < |run| - 1
    ensures ArmedSince(run, i, which, path, w) <==>
            ArmedSince(run[..|run| - 1], i, which, path, w) && !Disarms(run[|run| - 1], which, path, w)
  {
    var before := run[..|run| - 1];
    assert forall j :: 0 <= j < |before| ==> before[j] == run[j];
    if ArmedSince(before, i, which, path, w) && !Disarms(run[|run| - 1], which, path, w) {
      forall j | i < j < |run| ensures !Disarms(run[j], which, path, w) {
        if j < |before| { assert !Disarms(before[j], which, path, w); }
      }
    }
  }

  // ---------------------------------------------------------------------
  // One-shot
  // ---------------------------------------------------------------------

  predicate ArmsAny(e: Event, path: string, w: Watch) {
    exists which: Which :: Arms(e, which, path, w)
  }

  /** Times a reply activated the watcher for the path, in any table. */
  function Activations(run: seq<Event>, path: string, w: Watch): nat {
    if run == [] then 0
    else Activations(run[..|run| - 1], path, w) + (if ArmsAny(run[|run| - 1], path, w) then 1 else 0)
  }

  /** Times a node event delivered the path to the watcher. */
  function Deliveries(run: seq<Event>, path: string, w: Watch): nat {
    if run == [] then 0
    else
      var before, e := run[..|run| - 1], run[|run| - 1];
      Deliveries(before, path, w)
      + (if e.NodeEvent? && e.path == path && w in Delivery(After(before), e.type_, path) then 1 else 0)
  }

  /** Tables in which the watcher is registered for the path. */
  function Registered(t: Tables, path: string, w: Watch): nat {
    (if Armed(t, Node, path, w) then 1 else 0) + (if Armed(t, Exist, path, w) then 1 else 0)
    + (if Armed(t, Child, path, w) then 1 else 0)
  }

  lemma StepCounts(t: Tables, e: Event, path: string, w: Watch)
    requires Good(t)
    ensures var armed := if ArmsAny(e, path, w) then 1 else 0;
            var told := if e.NodeEvent? && e.path == path && w in Delivery(t, e.type_, path) then 1 else 0;
            told + Registered(Step(t, e), path, w) <= Registered(t, path, w) + armed
  {
    StepArms(t, e, Node, path, w);
    StepArms(t, e, Exist, path, w);
    StepArms(t, e, Child, path, w);
    if e.NodeEvent? {
      EventDeliversAndClears(t, e.type_, e.path);
    }
    if e.Activated? && Checker(e.kind, e.rc).Some? && e.path == path && e.w == w {
      assert Arms(e, Checker(e.kind, e.rc).value, path, w);
    }
  }

  /**
    * One-shot over every run: node events delivered to a watcher for a path, together with its
    * registrations still open, never exceed its activations.
    */
  lemma {:induction false} WatchesAreOneShot(run: seq<Event>, path: string, w: Watch)
    ensures Deliveries(run, path, w) + Registered(After(run), path, w) <= Activations(run, path, w)
  {
    if run != [] {
      var before, e := run[..|run| - 1], run[|run| - 1];
      WatchesAreOneShot(before, path, w);
      ListsStayGood(before);
      StepCounts(After(before), e, path, w);
    } else {
      assert Registered(EMPTY, path, w) == 0;
    }
  }

  // ---------------------------------------------------------------------
  // By request and code, by event type and watcher type
  // ---------------------------------------------------------------------

  /**
    * What a reply arms: an exists or data request answered 0 in the node table, an exists request
    * answered -101 (no node) in the exist table, a children request answered 0 in the child
    * table; any other reply leaves the tables alone.
    */
  lemma ActivationByCode(t: Tables, kind: Request, rc: int, path: string, w: Watch, which: Which, p: string, v: Watch)
    ensures Armed(Activate(t, kind, rc, path, w), which, p, v) <==>
            || Armed(t, which, p, v)
            || (p == path && v == w && match which
                                       case Node => kind != ChildRequest && rc == 0
                                       case Exist => kind == ExistsRequest && rc == -101
                                       case Child => kind == ChildRequest && rc == 0)
    ensures rc != 0 && !(kind == ExistsRequest && rc == -101) ==> Activate(t, kind, rc, path, w) == t
  {
    match which case Node => case Exist => case Child =>
  }

  /** A reply that leaves a watcher waiting for news of the node itself, or of its children. */
  predicate Asks(e: Event, path: string, w: Watch, children: bool) {
    && e.Activated? && e.path == path && e.w == w
    && if children then e.kind == ChildRequest && e.rc == 0
       else (e.kind == ExistsRequest && (e.rc == 0 || e.rc == -101)) || (e.kind == DataRequest && e.rc == 0)
  }

  /** News of the node: created (1), deleted (2) or changed (3); of its children: deleted (2) or changed (4). */
  predicate IsNews(type_: int, children: bool) {
    if children then type_ == 2 || type_ == 4 else 1 <= type_ <= 3
  }

  /** What ends the waiting: news, or a removal of the watcher or of all of them. */
  predicate Settles(e: Event, path: string, w: Watch, children: bool) {
    match e
    case Activated(_, _, _, _) => false
    case NodeEvent(type_, p) => p == path && IsNews(type_, children)
    case RemovedWatch(wtype, p, v) =>
      p == path && (v == w || v.fn == 0) && (wtype == AnyType || wtype == if children then ChildrenType else DataType)
  }

  predicate WaitsSince(run: seq<Event>, i: nat, path: string, w: Watch, children: bool) {
    i < |run| && Asks(run[i], path, w, children) && forall j :: i < j < |run| ==> !Settles(run[j], path, w, children)
  }

  ghost predicate Waits(run: seq<Event>, path: string, w: Watch, children: bool) {
    exists i: nat :: WaitsSince(run, i, path, w, children)
  }

  /** Event by event, what settles the waiting is what disarms the tables. */
  lemma SettlesIsDisarms(e: Event, path: string, w: Watch)
    ensures Asks(e, path, w, true) <==> Arms(e, Child, path, w)
    ensures Asks(e, path, w, false) <==> Arms(e, Node, path, w) || Arms(e, Exist, path, w)
    ensures Settles(e, path, w, true) <==> Disarms(e, Child, path, w)
    ensures Settles(e, path, w, false) <==> Disarms(e, Node, path, w)
    ensures Settles(e, path, w, false) <==> Disarms(e, Exist, path, w)
  {
  }

  lemma WaitsSinceIsArmedSince(run: seq<Event>, i: nat, path: string, w: Watch)
    ensures WaitsSince(run, i, path, w, true) <==> ArmedSince(run, i, Child, path, w)
    ensures WaitsSince(run, i, path, w, false) <==> ArmedSince(run, i, Node, path, w) || ArmedSince(run, i, Exist, path, w)
  {
    forall j | 0 <= j < |run|
      ensures Asks(run[j], path, w, true) <==> Arms(run[j], Child, path, w)
      ensures Asks(run[j], path, w, false) <==> Arms(run[j], Node, path, w) || Arms(run[j], Exist, path, w)
      ensures Settles(run[j], path, w, true) <==> Disarms(run[j], Child, path, w)
      ensures Settles(run[j], path, w, false) <==> Disarms(run[j], Node, path, w)
      ensures Settles(run[j], path, w, false) <==> Disarms(run[j], Exist, path, w)
    {
      SettlesIsDisarms(run[j], path, w);
    }
  }

  lemma WaitsIffArmed(run: seq<Event>, path: string, w: Watch)
    ensures Waits(run, path, w, true) <==> Armed(After(run), Child, path, w)
    ensures Waits(run, path, w, false) <==> Armed(After(run), Node, path, w) || Armed(After(run), Exist, path, w)
  {
    ArmedIffHistory(run, Node, path, w);
    ArmedIffHistory(run, Exist, path, w);
    ArmedIffHistory(run, Child, path, w);
    forall i: nat
      ensures WaitsSince(run, i, path, w, true) <==> ArmedSince(run, i, Child, path, w)
      ensures WaitsSince(run, i, path, w, false) <==> ArmedSince(run, i, Node, path, w) || ArmedSince(run, i, Exist, path, w)
    {
      WaitsSinceIsArmedSince(run, i, path, w);
    }
  }

  /**
    * A node event is delivered to a watcher exactly when it is news the watcher is waiting for:
    * some reply left it waiting, and neither news nor a removal has come since.
    */
  lemma ToldExactlyTheNews(run: seq<Event>, type_: int, path: string, w: Watch)
    ensures w in Delivery(After(run), type_, path) <==>
            (IsNews(type_, false) && Waits(run, path, w, false)) || (IsNews(type_, true) && Waits(run, path, w, true))
  {
    WaitsIffArmed(run, path, w);
    EventDeliversAndClears(After(run), type_, path);
    var t := After(run);
    if w in Delivery(t, type_, path) {
      var which: Which :| Selects(type_, which) && Armed(t, which, path, w);
      match which case Node => case Exist => case Child =>
    }
    if IsNews(type_, false) && Armed(t, Node, path, w) { assert Selects(type_, Node); }
    if IsNews(type_, false) && Armed(t, Exist, path, w) { assert Selects(type_, Exist); }
    if IsNews(type_, true) && Armed(t, Child, path, w) { assert Selects(type_, Child); }
  }

  /** So the first news after the reply reaches the watcher, and with it the waiting is over. */
  lemma FirstNewsIsTold(run: seq<Event>, i: nat, j: nat, path: string, w: Watch, children: bool)
    requires i < j < |run| && Asks(run[i], path, w, children)
    requires run[j].NodeEvent? && run[j].path == path && IsNews(run[j].type_, children)
    requires forall k :: i < k < j ==> !Settles(run[k], path, w, children)
    ensures w in Delivery(After(run[..j]), run[j].type_, path)
    ensures !Waits(run[..j + 1], path, w, children)
  {
    var before := run[..j];
    assert before[i] == run[i] && forall k :: i < k < j ==> before[k] == run[k];
    assert WaitsSince(before, i, path, w, children);
    ToldExactlyTheNews(before, run[j].type_, path, w);
    SettledAtEnd(run[..j + 1], path, w, children);
  }

  lemma SettledAtEnd(run: seq<Event>, path: string, w: Watch, children: bool)
    requires run != [] && Settles(run[|run| - 1], path, w, children)
    ensures !Waits(run, path, w, children)
  {
    forall i: nat ensures !WaitsSince(run, i, path, w, children) {
      assert i < |run| - 1 ==> Settles(run[|run| - 1], path, w, children);
    }
  }

  /** `pathHasWatcher` finds a watcher exactly when it is waiting for what the watcher type stands for. */
  lemma FoundIffWaits(run: seq<Event>, path: string, wtype: WatcherType, w: Watch)
    requires w.fn != 0
    ensures PathHasWatcher(After(run), path, wtype, w) <==>
            (wtype != ChildrenType && Waits(run, path, w, false)) || (wtype != DataType && Waits(run, path, w, true))
  {
    WaitsIffArmed(run, path, w);
    var t := After(run);
    if PathHasWatcher(t, path, wtype, w) {
      var which: Which :| Covers(wtype, which) && ContainsWatcher(Get(t, which), path, w);
      match which case Node => case Exist => case Child =>
    }
    if wtype != ChildrenType && Armed(t, Node, path, w) { assert Covers(wtype, Node) && ContainsWatcher(Get(t, Node), path, w); }
    if wtype != ChildrenType && Armed(t, Exist, path, w) { assert Covers(wtype, Exist) && ContainsWatcher(Get(t, Exist), path, w); }
    if wtype != DataType && Armed(t, Child, path, w) { assert Covers(wtype, Child) && ContainsWatcher(Get(t, Child), path, w); }
  }
}
