/**
  * Node paths: the one-pass scanner `isValidPath` and the grammar it decides.
  */
module Path {
  import opened Common

  /** The bytes of a C string, up to but not including the terminating NUL. */
  type CString = s: string | forall i :: 0 <= i < |s| ==> 0 < s[i] as int < 256

  /** `path[i]` in C: one past the last byte the terminator is read. */
  function At(path: CString, i: nat): char
    requires i <= |path|
  {
    if i == |path| then '\0' else path[i]
  }

  /** Create modes whose node name the server completes with a counter. */
  predicate IsSequence(mode: int) {
    mode == 2 || mode == 3 || mode == 6
  }

  /** Bytes the scanner refuses anywhere after the leading slash. */
  predicate IsControl(c: char) {
    0 < c as int < 0x1f
  }

  // ---------------------------------------------------------------------
  // The grammar
  // ---------------------------------------------------------------------

  /** `/c0/c1/.../cn` */
  function Join(components: seq<string>): string {
    if components == [] then "" else "/" + components[0] + Join(components[1..])
  }

  /** A component that may stand anywhere in a path. */
  predicate GoodComponent(c: string) {
    c != "" && c != "." && c != ".."
  }

  /** A piece of a path: no separator and no control byte. */
  predicate IsPiece(c: string) {
    forall i :: 0 <= i < |c| ==> c[i] != '/' && !IsControl(c[i])
  }

  /** In sequential mode the server appends digits, so the last component is not final. */
  predicate GoodComponents(components: seq<string>, sequential: bool) {
    && components != []
    && (forall i :: 0 <= i < |components| ==> IsPiece(components[i]))
    && (forall i :: 0 <= i < |components| - 1 ==> GoodComponent(components[i]))
    && (sequential || GoodComponent(components[|components| - 1]))
  }

  /** The set of node paths ZooKeeper accepts. */
  ghost predicate ValidPath(path: string, sequential: bool) {
    path == "/" || exists components: seq<string> ::
      path == Join(components) && GoodComponents(components, sequential)
  }

  // ---------------------------------------------------------------------
  // The scanner
  // ---------------------------------------------------------------------

  /** The scanner returns 0 at index i. */
  predicate Rejects(path: CString, sequential: bool, i: nat)
    requires 1 <= i < |path| && path[0] == '/'
  {
    var c, last := path[i], path[i - 1];
    var ends := (i + 1 == |path| && !sequential) || At(path, i + 1) == '/';
    if c == '/' && last == '/' then true
    else if c == '.' && last == '.' then path[i - 2] == '/' && ends
    else if c == '.' then last == '/' && ends
    else IsControl(c)
  }

  /** No index from `from` on makes the scanner give up. */
  predicate Scans(path: CString, sequential: bool, from: nat)
    requires 1 <= from && (path != "" ==> path[0] == '/')
  {
    forall i :: from <= i < |path| ==> !Rejects(path, sequential, i)
  }

  /** The scanner returns 1 exactly on the paths of the grammar; None is a NULL pointer. */
  method IsValidPath(path: Option<CString>, mode: int) returns (valid: bool)
    ensures valid <==> path.Some? && ValidPath(path.value, IsSequence(mode))
  {
    var sequential := IsSequence(mode);
    if path.None? {
      return false;
    }
    var p := path.value;
    var len := |p|;
    if len == 0 || p[0] != '/' {
      ValidStartsWithSlash(p, sequential);
      return false;
    }
    if len == 1 {
      return true;
    }
    ScannerDecidesGrammar(p, sequential);
    if p[len - 1] == '/' && !sequential {
      return false;
    }
    var lastc := '/';
    var i := 1;
    while i < len
      invariant 1 <= i <= len && lastc == p[i - 1]
      invariant forall j :: 1 <= j < i ==> !Rejects(p, sequential, j)
    {
      var c := p[i];
      if c == '/' && lastc == '/' {
        assert Rejects(p, sequential, i);
        return false;
      } else if c == '.' && lastc == '.' {
        if p[i - 2] == '/' && ((i + 1 == len && !sequential) || At(p, i + 1) == '/') {
          assert Rejects(p, sequential, i);
          return false;
        }
      } else if c == '.' {
        if p[i - 1] == '/' && ((i + 1 == len && !sequential) || At(p, i + 1) == '/') {
          assert Rejects(p, sequential, i);
          return false;
        }
      } else if 0 < c as int < 0x1f {
        assert Rejects(p, sequential, i);
        return false;
      }
      lastc := p[i];
      i := i + 1;
    }
    return true;
  }

  // ---------------------------------------------------------------------
  // The scanner decides the grammar
  // ---------------------------------------------------------------------

  lemma ValidStartsWithSlash(path: string, sequential: bool)
    ensures ValidPath(path, sequential) ==> path != "" && path[0] == '/'
  {
  }

  /** Whether the rest of the path, from a component start, is a good list of components. */
  ghost predicate GoodFrom(path: CString, sequential: bool, start: nat)
    requires start <= |path|
  {
    exists cs: seq<string> :: "/" + path[start..] == Join(cs) && GoodComponents(cs, sequential)
  }

  /** The first separator at or after `start`, or the end of the path. */
  function ComponentEnd(path: string, start: nat): (e: nat)
    requires start <= |path|
    ensures start <= e <= |path|
    ensures forall j :: start <= j < e ==> path[j] != '/'
    ensures e < |path| ==> path[e] == '/'
    decreases |path| - start
  {
    if start == |path| || path[start] == '/' then start else ComponentEnd(path, start + 1)
  }

  /** Splitting off the first component of a joined path is unambiguous. */
  lemma {:induction false} JoinHead(cs: seq<string>, rest: string)
    requires cs != [] && (forall i :: 0 <= i < |cs| ==> IsPiece(cs[i]))
    requires Join(cs) == "/" + rest
    ensures |cs| == 1 ==> cs[0] == rest && forall i :: 0 <= i < |rest| ==> rest[i] != '/'
    ensures |cs| > 1 ==> |cs[0]| < |rest| && rest[..|cs[0]|] == cs[0] && rest[|cs[0]|] == '/'
                         && Join(cs[1..]) == "/" + rest[|cs[0]| + 1..]
  {
    assert Join(cs)[1..] == cs[0] + Join(cs[1..]);
    assert ("/" + rest)[1..] == rest;
    assert rest == cs[0] + Join(cs[1..]);
    if |cs| > 1 {
      var tail := Join(cs[1..]);
      assert tail[0] == '/';
      assert rest[|cs[0]|..] == tail;
      assert tail == "/" + tail[1..];
    } else {
      assert cs[1..] == [];
    }
  }

  /** A rest with no separator left is good exactly when it is one good last component. */
  lemma GoodFromLast(path: CString, sequential: bool, start: nat)
    requires start <= |path| && ComponentEnd(path, start) == |path|
    ensures GoodFrom(path, sequential, start) <==>
            IsPiece(path[start..]) && (sequential || GoodComponent(path[start..]))
  {
    var rest := path[start..];
    if IsPiece(rest) && (sequential || GoodComponent(rest)) {
      assert Join([rest]) == "/" + rest by { assert [rest][1..] == []; }
      assert GoodComponents([rest], sequential);
    }
    if GoodFrom(path, sequential, start) {
      var cs :| "/" + rest == Join(cs) && GoodComponents(cs, sequential);
      JoinHead(cs, rest);
    }
  }

  /** With a separator left, a good rest has a good first component and a good remainder. */
  lemma GoodFromSplit(path: CString, sequential: bool, start: nat, e: nat)
    requires start <= e < |path| && e == ComponentEnd(path, start)
    requires GoodFrom(path, sequential, start)
    ensures IsPiece(path[start..e]) && GoodComponent(path[start..e]) && GoodFrom(path, sequential, e + 1)
  {
    var rest := path[start..];
    var cs :| "/" + rest == Join(cs) && GoodComponents(cs, sequential);
    JoinHead(cs, rest);
    assert rest[e - start] == '/';
    assert |cs| > 1;
    assert forall j :: 0 <= j < |cs[0]| ==> rest[j] == cs[0][j];
    assert |cs[0]| == e - start;
    assert rest[|cs[0]| + 1..] == path[e + 1..];
    assert path[start..e] == cs[0];
    assert GoodComponents(cs[1..], sequential);
  }

  /** Conversely, a good component in front of a good remainder is good. */
  lemma GoodFromPrepend(path: CString, sequential: bool, start: nat, e: nat)
    requires start <= e < |path| && path[e] == '/'
    requires IsPiece(path[start..e]) && GoodComponent(path[start..e]) && GoodFrom(path, sequential, e + 1)
    ensures GoodFrom(path, sequential, start)
  {
    var head := path[start..e];
    var cs :| "/" + path[e + 1..] == Join(cs) && GoodComponents(cs, sequential);
    var all := [head] + cs;
    assert all[1..] == cs;
    assert path[start..] == head + ("/" + path[e + 1..]);
    assert Join(all) == "/" + path[start..];
    assert GoodComponents(all, sequential);
  }

  /** One or two dots between a separator and the end of the component are all of it. */
  lemma DotsAreComponent(path: CString, start: nat, i: nat)
    requires 1 <= start <= i < |path| && i < ComponentEnd(path, start) && path[0] == '/' && path[start - 1] == '/'
    ensures path[i] == '.' && path[i - 1] == '/' && (i + 1 == |path| || path[i + 1] == '/') ==>
              path[start..ComponentEnd(path, start)] == "."
    ensures path[i] == '.' && path[i - 1] == '.' && path[i - 2] == '/' && (i + 1 == |path| || path[i + 1] == '/') ==>
              path[start..ComponentEnd(path, start)] == ".."
  {
    var e := ComponentEnd(path, start);
    if path[i] == '.' && path[i - 1] == '/' && (i + 1 == |path| || path[i + 1] == '/') {
      assert i == start && e == i + 1;
    }
    if path[i] == '.' && path[i - 1] == '.' && path[i - 2] == '/' && (i + 1 == |path| || path[i + 1] == '/') {
      assert i == start + 1 && e == i + 1;
    }
  }

  /** Scanning one component and the separator behind it, if any. */
  lemma ScanOne(path: CString, sequential: bool, start: nat)
    requires 1 <= start <= |path| && path[0] == '/' && path[start - 1] == '/'
    ensures var e := ComponentEnd(path, start);
            var c := path[start..e];
            (forall i :: start <= i < |path| && i <= e ==> !Rejects(path, sequential, i)) <==>
            && IsPiece(c)
            && (e < |path| ==> c != "")
            && (c == "." || c == ".." ==> e == |path| && sequential)
  {
    var e := ComponentEnd(path, start);
    var c := path[start..e];
    assert forall i :: start <= i < e ==> c[i - start] == path[i];
    if forall i :: start <= i < |path| && i <= e ==> !Rejects(path, sequential, i) {
      forall j | 0 <= j < |c| ensures c[j] != '/' && !IsControl(c[j]) {
        assert !Rejects(path, sequential, start + j);
      }
      if e < |path| {
        assert !Rejects(path, sequential, e);
      }
      if c == "." {
        assert !Rejects(path, sequential, start);
      } else if c == ".." {
        assert c[0] == '.' && c[1] == '.';
        assert path[start] == '.' && path[start + 1] == '.';
        assert !Rejects(path, sequential, start + 1);
      }
    }
    if IsPiece(c) && (e < |path| ==> c != "") && (c == "." || c == ".." ==> e == |path| && sequential) {
      forall i | start <= i < |path| && i <= e ensures !Rejects(path, sequential, i) {
        if i < e {
          assert path[i] == c[i - start];
          DotsAreComponent(path, start, i);
        }
      }
    }
  }

  /** From a component start, scanning to the end finds no fault exactly on good components. */
  lemma {:induction false} ScanIsGrammar(path: CString, sequential: bool, start: nat)
    requires 1 <= start <= |path| && path[0] == '/' && path[start - 1] == '/'
    ensures GoodFrom(path, sequential, start) <==>
            Scans(path, sequential, start) && (sequential || path[|path| - 1] != '/')
    decreases |path| - start
  {
    var e := ComponentEnd(path, start);
    ScanOne(path, sequential, start);
    if e == |path| {
      GoodFromLast(path, sequential, start);
      assert path[start..e] == path[start..];
      assert Scans(path, sequential, start) <==>
             (forall i :: start <= i < |path| && i <= e ==> !Rejects(path, sequential, i));
      if start == |path| {
        assert path[start..] == "";
      } else {
        assert path[|path| - 1] != '/';
      }
    } else {
      if GoodFrom(path, sequential, start) {
        GoodFromSplit(path, sequential, start, e);
      }
      if IsPiece(path[start..e]) && GoodComponent(path[start..e]) && GoodFrom(path, sequential, e + 1) {
        GoodFromPrepend(path, sequential, start, e);
      }
      ScanIsGrammar(path, sequential, e + 1);
      assert Scans(path, sequential, start) <==>
             (forall i :: start <= i < |path| && i <= e ==> !Rejects(path, sequential, i)) && Scans(path, sequential, e + 1);
    }
  }

  /** For every path longer than the root, the scanner's verdict is the grammar's. */
  lemma ScannerDecidesGrammar(path: CString, sequential: bool)
    requires |path| > 1 && path[0] == '/'
    ensures ValidPath(path, sequential) <==>
            Scans(path, sequential, 1) && (sequential || path[|path| - 1] != '/')
  {
    ScanIsGrammar(path, sequential, 1);
    assert "/" + path[1..] == path;
  }

  // ---------------------------------------------------------------------
  // What the modes and the byte classes come to
  // ---------------------------------------------------------------------

  /** Of the create modes 0 to 6, those with the bit of the old sequence flag; no other number is one. */
  lemma SequenceModes(mode: int)
    ensures IsSequence(mode) <==> 0 <= mode <= 6 && mode / 2 % 2 == 1
  {
  }

  /** One byte is a node name exactly when it is no slash, no dot and not one of the bytes 1 to 30. */
  lemma OneByteName(c: char)
    requires 0 < c as int < 256
    ensures ValidPath(['/', c], false) <==> c != '/' && c != '.' && c as int > 30
  {
    var path: CString := ['/', c];
    ScannerDecidesGrammar(path, false);
    assert Scans(path, false, 1) <==> !Rejects(path, false, 1);
  }

  /** A slash may follow a path in the sequential modes 2, 3 and 6 and in no other. */
  lemma TrailingSlash(path: CString, mode: int)
    requires ValidPath(path, false) && path != "/"
    ensures ValidPath(path + "/", IsSequence(mode)) <==> mode == 2 || mode == 3 || mode == 6
  {
    ValidStartsWithSlash(path, false);
    var longer: CString, n := path + "/", |path|;
    ScannerDecidesGrammar(path, false);
    ScannerDecidesGrammar(longer, IsSequence(mode));
    if IsSequence(mode) {
      forall i | 1 <= i < |longer| ensures !Rejects(longer, true, i) {
        assert longer[i - 1] == path[i - 1];
        if i < n {
          assert !Rejects(path, false, i) && longer[i] == path[i];
          assert i + 1 < n ==> At(longer, i + 1) == At(path, i + 1);
        }
      }
    }
  }

  // ---------------------------------------------------------------------
  // By what must not occur
  // ---------------------------------------------------------------------

  predicate HasAt(path: string, i: int, w: string) {
    0 <= i && i + |w| <= |path| && path[i..i + |w|] == w
  }

  predicate EndsWith(path: string, w: string) {
    HasAt(path, |path| - |w|, w)
  }

  /** An empty component or one of dots with a component behind it, or a control byte. */
  predicate FaultAt(path: string, i: nat) {
    || HasAt(path, i, "//") || HasAt(path, i, "/./") || HasAt(path, i, "/../")
    || (1 <= i < |path| && 0 < path[i] as int < 31)
  }

  lemma SliceIs(path: string, i: nat, w: string)
    requires i + |w| <= |path| && forall j :: 0 <= j < |w| ==> path[i + j] == w[j]
    ensures HasAt(path, i, w)
  {
  }

  lemma SliceHas(path: string, i: int, w: string, j: nat)
    requires HasAt(path, i, w) && j < |w|
    ensures path[i + j] == w[j]
  {
    assert path[i..i + |w|][j] == path[i + j];
  }

  /** What the scanner rejects at i, spelled out. */
  lemma RejectsMeans(path: CString, sequential: bool, i: nat)
    requires 1 <= i < |path| && path[0] == '/'
    requires Rejects(path, sequential, i)
    ensures (exists k: nat :: FaultAt(path, k)) || (!sequential && (EndsWith(path, "/.") || EndsWith(path, "/..")))
  {
    var c, last := path[i], path[i - 1];
    if c == '/' && last == '/' {
      SliceIs(path, i - 1, "//");
      assert FaultAt(path, i - 1);
    } else if c == '.' && last == '.' {
      if At(path, i + 1) == '/' {
        SliceIs(path, i - 2, "/../");
        assert FaultAt(path, i - 2);
      } else {
        SliceIs(path, i - 2, "/..");
      }
    } else if c == '.' {
      if At(path, i + 1) == '/' {
        SliceIs(path, i - 1, "/./");
        assert FaultAt(path, i - 1);
      } else {
        SliceIs(path, i - 1, "/.");
      }
    } else {
      assert FaultAt(path, i);
    }
  }

  /** And every such fault is found. */
  lemma FaultIsRejected(path: CString, sequential: bool, k: nat)
    requires |path| > 1 && path[0] == '/' && FaultAt(path, k)
    ensures !Scans(path, sequential, 1)
  {
    if HasAt(path, k, "//") {
      SliceHas(path, k, "//", 0);
      SliceHas(path, k, "//", 1);
      assert Rejects(path, sequential, k + 1);
    } else if HasAt(path, k, "/./") {
      SliceHas(path, k, "/./", 0);
      SliceHas(path, k, "/./", 1);
      SliceHas(path, k, "/./", 2);
      assert Rejects(path, sequential, k + 1);
    } else if HasAt(path, k, "/../") {
      SliceHas(path, k, "/../", 0);
      SliceHas(path, k, "/../", 1);
      SliceHas(path, k, "/../", 2);
      SliceHas(path, k, "/../", 3);
      assert Rejects(path, sequential, k + 2);
    } else {
      assert Rejects(path, sequential, k);
    }
  }

  lemma DotsAtEndRejected(path: CString)
    requires |path| > 1 && path[0] == '/' && (EndsWith(path, "/.") || EndsWith(path, "/.."))
    ensures !Scans(path, false, 1)
  {
    var n := |path|;
    if EndsWith(path, "/.") {
      SliceHas(path, n - 2, "/.", 0);
      SliceHas(path, n - 2, "/.", 1);
      assert Rejects(path, false, n - 1);
    } else {
      SliceHas(path, n - 3, "/..", 0);
      SliceHas(path, n - 3, "/..", 1);
      SliceHas(path, n - 3, "/..", 2);
      assert Rejects(path, false, n - 1);
    }
  }

  lemma SlashAtEnd(path: string)
    requires path != ""
    ensures EndsWith(path, "/") <==> path[|path| - 1] == '/'
  {
    if path[|path| - 1] == '/' {
      SliceIs(path, |path| - 1, "/");
    } else if EndsWith(path, "/") {
      SliceHas(path, |path| - 1, "/", 0);
    }
  }

  /**
    * A path other than the root is valid exactly when it begins with a slash, has no two slashes
    * in a row, no component "." or ".." with another behind it and no byte from 1 to 30, and,
    * unless the server completes its last component, does not end in a slash, "/." or "/..".
    */
  lemma ValidIffNothingForbidden(path: CString, sequential: bool)
    requires |path| > 1
    ensures ValidPath(path, sequential) <==>
            && path[0] == '/' && (forall k: nat :: !FaultAt(path, k))
            && (sequential || !(EndsWith(path, "/") || EndsWith(path, "/.") || EndsWith(path, "/..")))
  {
    ValidStartsWithSlash(path, sequential);
    if path[0] == '/' {
      ScannerDecidesGrammar(path, sequential);
      SlashAtEnd(path);
      if k: nat :| FaultAt(path, k) {
        FaultIsRejected(path, sequential, k);
      }
      if !sequential && (EndsWith(path, "/.") || EndsWith(path, "/..")) {
        DotsAtEndRejected(path);
      }
      if !Scans(path, sequential, 1) {
        var i :| 1 <= i < |path| && Rejects(path, sequential, i);
        RejectsMeans(path, sequential, i);
      }
    }
  }
}
