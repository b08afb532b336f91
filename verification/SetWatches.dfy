/**
  * After a reconnect the client tells the server about every watch it still has: the request
  * names each active path of each table exactly once.
  */
module SetWatches {
  import opened Common
  import opened Jute
  import opened Records
  import HashTable
  import opened HashIterator
  import opened Watches
  import opened WatchHistory
  import WatchTables

  /** A path as a C string. */
  predicate IsPath(k: string) {
    |k| < 0x8000_0000 && forall i :: 0 <= i < |k| ==> 0 < k[i] as int < 256
  }

  function PathBytes(k: string): (b: seq<byte>)
    requires IsPath(k)
    ensures |b| == |k| && NoNul(b) && forall i :: 0 <= i < |k| ==> b[i] as int == k[i] as int
  {
    seq(|k|, i requires 0 <= i < |k| => (k[i] as int) as byte)
  }

  lemma PathBytesInjective(k: string, l: string)
    requires IsPath(k) && IsPath(l) && PathBytes(k) == PathBytes(l)
    ensures k == l
  {
    assert |k| == |PathBytes(k)| == |l|;
    forall i | 0 <= i < |k| ensures k[i] == l[i] {
      assert PathBytes(k)[i] as int == k[i] as int && PathBytes(l)[i] as int == l[i] as int;
    }
  }

  /** A table whose keys are paths, and few enough to count in 32 bits. */
  ghost predicate PathTable<V>(h: HashTable.Table<V>)
    reads h, h.table, h.nodes
  {
    |h.M| < 0x8000_0000 && (forall p :: p in h.M ==> IsPath(p)) && forall k {:trigger Key(k)} :: Key(k) ==> h.Valid()
  }

  /** The vector holds exactly these paths, each once. */
  ghost predicate Names(v: Value, paths: set<string>) {
    forall k {:trigger Key(k)} :: Key(k) ==> NamesEach(v, paths)
  }

  ghost predicate NamesEach(v: Value, paths: set<string>) {
    && IsStrings(v) && v.count as int == |v.elems| == |paths|
    && Listed(v.elems, paths) && NoneTwice(v.elems)
  }

  predicate IsStrings(v: Value) {
    Conforms(STRING_VECTOR, v) && NoNullString(v)
  }

  ghost predicate Listed(elems: seq<Value>, paths: set<string>) {
    && (forall k :: k in paths ==> IsPath(k) && PathString(k) in elems)
    && (forall e :: e in elems ==> exists k :: k in paths && IsPath(k) && e == PathString(k))
  }

  predicate NoneTwice(elems: seq<Value>) {
    forall i, j :: 0 <= i < j < |elems| ==> elems[i] != elems[j]
  }

  /** The keys are those paths, each once. */
  ghost predicate KeysOf(keys: seq<string>, paths: set<string>) {
    && |keys| == |paths| && (forall k :: k in keys <==> k in paths)
    && (forall i, j :: 0 <= i < j < |keys| ==> keys[i] != keys[j])
  }

  function PathString(k: string): Value
    requires IsPath(k)
  {
    Str(Some(PathBytes(k)))
  }

  /** The keys as a vector of strings. */
  method ToVector(keys: seq<string>, ghost paths: set<string>) returns (v: Value)
    requires |paths| < 0x8000_0000 && KeysOf(keys, paths) && forall k :: k in paths ==> IsPath(k)
    ensures Names(v, paths)
  {
    var elems: seq<Value> := [];
    var i := 0;
    assert forall j :: 0 <= j < |keys| ==> keys[j] in keys;
    while i < |keys|
      invariant 0 <= i <= |keys| && |elems| == i
      invariant forall j :: 0 <= j < i ==> elems[j] == PathString(keys[j])
    {
      elems := elems + [PathString(keys[i])];
      i := i + 1;
    }
    v := Vector(|keys| as int32, elems);
    VectorNames(keys, elems, paths);
  }

  lemma StringsConform(elems: seq<Value>)
    requires |elems| < 0x8000_0000
    requires forall i :: 0 <= i < |elems| ==> exists k :: IsPath(k) && elems[i] == PathString(k)
    ensures IsStrings(Vector(|elems| as int32, elems))
  {
    forall i | 0 <= i < |elems| ensures Conforms(TString, elems[i]) && NoNullString(elems[i]) {
      var k :| IsPath(k) && elems[i] == PathString(k);
    }
    assert ConformEach(TString, elems);
  }

  lemma VectorNames(keys: seq<string>, elems: seq<Value>, paths: set<string>)
    requires |paths| < 0x8000_0000 && KeysOf(keys, paths) && (forall k :: k in paths ==> IsPath(k)) && |elems| == |keys|
    requires forall j :: 0 <= j < |keys| ==> keys[j] in paths && elems[j] == PathString(keys[j])
    ensures Names(Vector(|keys| as int32, elems), paths)
  {
    forall i | 0 <= i < |elems| ensures exists k :: IsPath(k) && elems[i] == PathString(k) {
      assert IsPath(keys[i]) && elems[i] == PathString(keys[i]);
    }
    StringsConform(elems);
    AllListed(keys, elems, paths);
    DifferentKeysDiffer(keys, elems);
  }

  lemma AllListed(keys: seq<string>, elems: seq<Value>, paths: set<string>)
    requires |elems| == |keys| && forall k :: k in paths ==> IsPath(k) && k in keys
    requires forall j :: 0 <= j < |keys| ==> keys[j] in paths && IsPath(keys[j]) && elems[j] == PathString(keys[j])
    ensures Listed(elems, paths)
  {
    forall e | e in elems ensures exists k :: k in paths && IsPath(k) && e == PathString(k) {
      var j :| 0 <= j < |elems| && elems[j] == e;
      assert keys[j] in paths;
    }
    forall k | k in paths ensures PathString(k) in elems {
      var j :| 0 <= j < |keys| && keys[j] == k;
      assert elems[j] == PathString(k);
    }
  }

  lemma DifferentKeysDiffer(keys: seq<string>, elems: seq<Value>)
    requires |elems| == |keys| && forall i, j :: 0 <= i < j < |keys| ==> keys[i] != keys[j]
    requires forall j :: 0 <= j < |keys| ==> IsPath(keys[j]) && elems[j] == PathString(keys[j])
    ensures NoneTwice(elems)
  {
    forall a, b | 0 <= a < b < |elems| ensures elems[a] != elems[b] {
      DifferentBytes(keys[a], keys[b]);
    }
  }

  lemma DifferentBytes(k: string, l: string)
    requires IsPath(k) && IsPath(l) && k != l
    ensures PathString(k) != PathString(l)
  {
    if PathBytes(k) == PathBytes(l) {
      PathBytesInjective(k, l);
    }
  }

  /** The paths of one table as a vector of strings. */
  method PathVector<V>(h: HashTable.Table<V>) returns (v: Value)
    requires PathTable(h)
    ensures Names(v, h.M.Keys)
  {
    assert Key(0);
    var keys := CollectKeys(h);
    v := ToVector(keys, h.M.Keys);
  }

  /** The request for three vectors of paths. */
  function Request(lastZxid: int64, data: Value, exist: Value, child: Value): Value {
    Record([Long(lastZxid), data, exist, child])
  }

  lemma RequestConforms(lastZxid: int64, data: Value, exist: Value, child: Value)
    requires IsStrings(data) && IsStrings(exist) && IsStrings(child)
    ensures Conforms(SET_WATCHES, Request(lastZxid, data, exist, child)) && NoNullString(Request(lastZxid, data, exist, child))
  {
    var fs, vs := [TLong, STRING_VECTOR, STRING_VECTOR, STRING_VECTOR], [Long(lastZxid), data, exist, child];
    assert ConformsAll(fs[4..], vs[4..]);
    assert fs[3..][1..] == fs[4..] && vs[3..][1..] == vs[4..];
    assert ConformsAll(fs[3..], vs[3..]);
    assert fs[2..][1..] == fs[3..] && vs[2..][1..] == vs[3..];
    assert ConformsAll(fs[2..], vs[2..]);
    assert fs[1..][1..] == fs[2..] && vs[1..][1..] == vs[2..];
    assert ConformsAll(fs[1..], vs[1..]);
  }

  /** Decoding the request gives vectors that name the paths of the three tables. */
  ghost predicate Tells(lastZxid: int64, req: Value, node: set<string>, exist: set<string>, child: set<string>)
    requires Conforms(SET_WATCHES, req)
  {
    exists d, e, c ::
      && Decode(SET_WATCHES, Encode(SET_WATCHES, req)) == Parsed(0, Record([Long(lastZxid), d, e, c]), [])
      && Names(d, node) && Names(e, exist) && Names(c, child)
  }

  /** Nothing is sent without watches. */
  method Compose(lastZxid: int64, d: Value, e: Value, c: Value,
                 ghost node: set<string>, ghost exist: set<string>, ghost child: set<string>)
    returns (req: Option<Value>)
    requires Names(d, node) && Names(e, exist) && Names(c, child)
    ensures req.None? <==> node == {} && exist == {} && child == {}
    ensures req.Some? ==> Conforms(SET_WATCHES, req.value) && Tells(lastZxid, req.value, node, exist, child)
  {
    assert Key(0);
    if d.count == 0 && e.count == 0 && c.count == 0 {
      return None;
    }
    RequestConforms(lastZxid, d, e, c);
    req := Some(Request(lastZxid, d, e, c));
    ServerReads(lastZxid, d, e, c);
  }

  lemma ServerReads(lastZxid: int64, d: Value, e: Value, c: Value)
    requires IsStrings(d) && IsStrings(e) && IsStrings(c)
    ensures Conforms(SET_WATCHES, Request(lastZxid, d, e, c))
    ensures Decode(SET_WATCHES, Encode(SET_WATCHES, Request(lastZxid, d, e, c))) == Parsed(0, Request(lastZxid, d, e, c), [])
  {
    var req := Request(lastZxid, d, e, c);
    RequestConforms(lastZxid, d, e, c);
    RoundTrip(SET_WATCHES, req, []);
    assert Encode(SET_WATCHES, req) + [] == Encode(SET_WATCHES, req);
    RequestIsNormal(lastZxid, d, e, c);
  }

  /** Nothing in the request changes on the wire. */
  lemma RequestIsNormal(lastZxid: int64, data: Value, exist: Value, child: Value)
    requires IsStrings(data) && IsStrings(exist) && IsStrings(child)
    ensures Normal(Request(lastZxid, data, exist, child)) == Request(lastZxid, data, exist, child)
  {
    var vs := [Long(lastZxid), data, exist, child];
    StringsAreNormal(data);
    StringsAreNormal(exist);
    StringsAreNormal(child);
    assert Normals(vs) == vs;
    assert Normal(Record(vs)) == Record(Normals(vs));
  }

  lemma StringsAreNormal(v: Value)
    requires Conforms(STRING_VECTOR, v)
    ensures Normal(v) == v
  {
    forall i | 0 <= i < |v.elems| ensures Normals(v.elems)[i] == v.elems[i] {
      assert Conforms(TString, v.elems[i]);
    }
    assert Normals(v.elems) == v.elems;
    assert Normal(v) == Vector(v.count, Normals(v.elems));
  }

  // ---------------------------------------------------------------------
  // After any run of the watch manager
  // ---------------------------------------------------------------------

  /** The paths of one table. */
  function PathsOf(t: Tables, which: Which): set<string> {
    Get(t, which).Keys
  }

  /** Some reply activated a watcher for the path in the table, and nothing has cleared it since. */
  ghost predicate Watched(run: seq<Event>, which: Which, path: string) {
    exists w, i: nat :: ArmedSince(run, i, which, path, w)
  }

  /** Every path the program or the server passed is a C string. */
  predicate PathsPassed(run: seq<Event>) {
    forall i :: 0 <= i < |run| ==> IsPath(run[i].path)
  }

  /** No empty list stays behind: a path is in a table exactly when a watcher is still armed for it. */
  lemma PathsAreWatched(run: seq<Event>, which: Which, path: string)
    ensures path in PathsOf(After(run), which) <==> Watched(run, which, path)
  {
    var t := After(run);
    ListsStayGood(run);
    assert GoodTable(Get(t, which)) by { match which case Node => case Exist => case Child => }
    if path in Get(t, which) {
      var w := Get(t, which)[path][0];
      assert Armed(t, which, path, w);
      ArmedIffHistory(run, which, path, w);
    }
    if Watched(run, which, path) {
      var w, i: nat :| ArmedSince(run, i, which, path, w);
      ArmedIffHistory(run, which, path, w);
      assert Armed(t, which, path, w);
    }
  }

  /** Only paths that were passed are ever in a table. */
  lemma WatchedIsPath(run: seq<Event>, which: Which)
    requires PathsPassed(run)
    ensures forall p :: p in PathsOf(After(run), which) ==> IsPath(p)
  {
    forall p | p in PathsOf(After(run), which) ensures IsPath(p) {
      PathsAreWatched(run, which, p);
      var w, i: nat :| ArmedSince(run, i, which, p, w);
      assert run[i].path == p;
    }
  }

  /** The vector holds, each once, exactly the paths watched in the table. */
  ghost predicate NamesWatched(v: Value, run: seq<Event>, which: Which) {
    && IsStrings(v) && v.count as int == |v.elems| && NoneTwice(v.elems)
    && forall p :: IsPath(p) ==> (PathString(p) in v.elems <==> Watched(run, which, p))
  }

  lemma NamesAreWatched(v: Value, run: seq<Event>, which: Which)
    requires Names(v, PathsOf(After(run), which))
    ensures NamesWatched(v, run, which)
  {
    var paths := PathsOf(After(run), which);
    assert Key(0);
    forall p | IsPath(p) ensures PathString(p) in v.elems <==> Watched(run, which, p) {
      PathsAreWatched(run, which, p);
      if PathString(p) in v.elems {
        var k :| k in paths && IsPath(k) && PathString(p) == PathString(k);
        PathBytesInjective(p, k);
      }
    }
  }

  /** The paths of a watch table as a vector of strings. */
  method WatchedPaths(t: WatchTables.WatchTable) returns (v: Value)
    requires t.Valid() && |t.contents| < 0x8000_0000 && forall p :: p in t.contents ==> IsPath(p)
    ensures Names(v, t.contents.Keys)
  {
    t.Open();
    assert t.h.M.Keys == t.contents.Keys;
    assert |t.h.M| == |t.h.M.Keys| && |t.contents| == |t.contents.Keys|;
    assert Key(0);
    v := PathVector(t.h);
  }

  /** Decoding the request gives vectors that name what is watched in the three tables. */
  ghost predicate TellsWatched(lastZxid: int64, req: Value, run: seq<Event>)
    requires Conforms(SET_WATCHES, req)
  {
    exists d, e, c ::
      && Decode(SET_WATCHES, Encode(SET_WATCHES, req)) == Parsed(0, Record([Long(lastZxid), d, e, c]), [])
      && NamesWatched(d, run, Node) && NamesWatched(e, run, Exist) && NamesWatched(c, run, Child)
  }

  lemma TellingPathsTellsWatched(lastZxid: int64, req: Value, run: seq<Event>)
    requires Conforms(SET_WATCHES, req)
    requires var t := After(run); Tells(lastZxid, req, PathsOf(t, Node), PathsOf(t, Exist), PathsOf(t, Child))
    ensures TellsWatched(lastZxid, req, run)
  {
    var t := After(run);
    var d, e, c :|
      && Decode(SET_WATCHES, Encode(SET_WATCHES, req)) == Parsed(0, Record([Long(lastZxid), d, e, c]), [])
      && Names(d, PathsOf(t, Node)) && Names(e, PathsOf(t, Exist)) && Names(c, PathsOf(t, Child));
    assert Key(0);
    NamesAreWatched(d, run, Node);
    NamesAreWatched(e, run, Exist);
    NamesAreWatched(c, run, Child);
  }

  ghost predicate NothingWatched(run: seq<Event>) {
    forall which: Which, p :: !Watched(run, which, p)
  }

  lemma NoPathsNothingWatched(run: seq<Event>)
    ensures var t := After(run);
            NothingWatched(run) <==> PathsOf(t, Node) == {} && PathsOf(t, Exist) == {} && PathsOf(t, Child) == {}
  {
    forall which: Which ensures (forall p :: !Watched(run, which, p)) <==> PathsOf(After(run), which) == {} {
      forall p ensures p in PathsOf(After(run), which) <==> Watched(run, which, p) {
        PathsAreWatched(run, which, p);
      }
    }
    if PathsOf(After(run), Node) == {} && PathsOf(After(run), Exist) == {} && PathsOf(After(run), Child) == {} {
      forall which: Which, p ensures !Watched(run, which, p) {
        match which case Node => case Exist => case Child =>
      }
    }
  }

  /** Few enough paths to count in 32 bits, and all of them C strings. */
  ghost predicate Sendable(t: Tables) {
    forall which: Which :: |Get(t, which)| < 0x8000_0000 && forall p :: p in PathsOf(t, which) ==> IsPath(p)
  }

  /**
    * Nothing is sent without watches; otherwise the server, decoding what is sent, finds every
    * watched path exactly once in the vector of its table.
    */
  method SendSetWatches(lastZxid: int64, m: WatchTables.WatchManager) returns (req: Option<Value>)
    requires m.Valid() && Sendable(m.Abs())
    ensures var t := m.Abs();
            req.None? <==> PathsOf(t, Node) == {} && PathsOf(t, Exist) == {} && PathsOf(t, Child) == {}
    ensures var t := m.Abs();
            req.Some? ==> Conforms(SET_WATCHES, req.value)
                          && Tells(lastZxid, req.value, PathsOf(t, Node), PathsOf(t, Exist), PathsOf(t, Child))
  {
    assert Get(m.Abs(), Node) == m.node.contents && Get(m.Abs(), Exist) == m.exist.contents && Get(m.Abs(), Child) == m.child.contents;
    var d := WatchedPaths(m.node);
    var e := WatchedPaths(m.exist);
    var c := WatchedPaths(m.child);
    req := Compose(lastZxid, d, e, c, m.node.contents.Keys, m.exist.contents.Keys, m.child.contents.Keys);
  }

  /**
    * After any run of the watch manager the server, decoding what the client sends, finds in each
    * vector exactly the paths for which a watcher was activated in that table and not cleared
    * since; nothing is sent when there are none.
    */
  method SendWatchesAfter(lastZxid: int64, m: WatchTables.WatchManager, ghost run: seq<Event>) returns (req: Option<Value>)
    requires m.Valid() && m.Abs() == After(run) && PathsPassed(run)
    requires forall which: Which :: |Get(m.Abs(), which)| < 0x8000_0000
    ensures req.None? <==> NothingWatched(run)
    ensures req.Some? ==> Conforms(SET_WATCHES, req.value) && TellsWatched(lastZxid, req.value, run)
  {
    PathsAreSendable(run);
    req := SendSetWatches(lastZxid, m);
    NoPathsNothingWatched(run);
    if req.Some? {
      TellingPathsTellsWatched(lastZxid, req.value, run);
    }
  }

  lemma PathsAreSendable(run: seq<Event>)
    requires PathsPassed(run) && forall which: Which :: |Get(After(run), which)| < 0x8000_0000
    ensures Sendable(After(run))
  {
    forall which: Which ensures forall p :: p in PathsOf(After(run), which) ==> IsPath(p) {
      WatchedIsPath(run, which);
    }
  }
}
