/**
  * The client-side chroot: `prepend_string` maps client paths to server paths and
  * `sub_string` maps them back.
  */
module Chroot {
  import opened Common
  import opened Path

  /** A handle's chroot: absent, or a valid path other than the root. */
  ghost predicate IsChroot(chroot: CString) {
    ValidPath(chroot, false) && chroot != "/"
  }

  function PrependString(chroot: Option<CString>, clientPath: CString): CString {
    if chroot.None? then clientPath
    else if |clientPath| == 1 then chroot.value
    else chroot.value + clientPath
  }

  function SubString(chroot: Option<CString>, serverPath: CString): CString {
    if chroot.None? then serverPath
    else if !(chroot.value <= serverPath) then serverPath
    else if |serverPath| == |chroot.value| then "/"
    else serverPath[|chroot.value|..]
  }

  predicate FirstSlash(host: CString, k: int) {
    0 <= k < |host| && host[k] == '/' && forall i :: 0 <= i < k ==> host[i] != '/'
  }

  lemma FirstSlashIs(host: CString, index: nat)
    requires index <= |host| && (forall i :: 0 <= i < index ==> host[i] != '/') && (index < |host| ==> host[index] == '/')
    ensures forall k :: FirstSlash(host, k) <==> k == index && index < |host|
  {
  }

  /**
    * Splitting the connect string at its first slash: initialisation fails on an empty string
    * or an invalid chroot, and a chroot of "/" is none at all.
    */
  method InitChroot(host: CString) returns (ok: bool, hostname: CString, chroot: Option<CString>)
    ensures ok && chroot.Some? ==> IsChroot(chroot.value) && host == hostname + chroot.value
    ensures ok && chroot.None? ==> host == hostname || host == hostname + "/"
    ensures forall i :: 0 <= i < |hostname| ==> hostname[i] != '/'
    ensures !ok <==> host == "" || exists k :: FirstSlash(host, k) && !ValidPath(host[k..], false)
  {
    if host == "" {
      return false, host, None;
    }
    var index := ComponentEnd(host, 0);
    hostname, chroot, ok := host[..index], None, true;
    if index < |host| {
      var candidate: CString := host[index..];
      if |candidate| > 1 {
        chroot := Some(candidate);
        ok := IsValidPath(chroot, 0);
      } else {
        assert candidate == "/";
      }
    }
    FirstSlashIs(host, index);
  }

  /** Rejection is local: it looks the same in a path and in a tail that starts at a slash. */
  lemma RejectsInTail(path: CString, k: nat, sequential: bool, i: nat)
    requires k < |path| && path[0] == '/' && path[k] == '/' && k < i < |path|
    ensures Rejects(path[k..], sequential, i - k) <==> Rejects(path, sequential, i)
  {
    var t: CString := path[k..];
    assert t[i - k] == path[i] && t[i - k - 1] == path[i - 1];
    assert At(t, i - k + 1) == At(path, i + 1);
    assert i - k == 1 ==> path[i - 1] == '/';
  }

  /** The valid paths under a chroot are the chroot followed by a valid client path. */
  lemma ValidUnderChroot(chroot: CString, tail: CString, sequential: bool)
    requires IsChroot(chroot) && |tail| > 1 && tail[0] == '/'
    ensures ValidPath(chroot + tail, sequential) <==> ValidPath(tail, sequential)
  {
    var path: CString, k := chroot + tail, |chroot|;
    ValidStartsWithSlash(chroot, false);
    assert path[k..] == tail;
    ScannerDecidesGrammar(path, sequential);
    ScannerDecidesGrammar(tail, sequential);
    ScannerDecidesGrammar(chroot, false);
    forall i | 1 <= i <= k ensures !Rejects(path, sequential, i) {
      if i < k {
        assert !Rejects(chroot, false, i);
        assert path[i] == chroot[i] && path[i - 1] == chroot[i - 1];
      }
    }
    forall i | k < i < |path| ensures Rejects(path, sequential, i) <==> Rejects(tail, sequential, i - k) {
      RejectsInTail(path, k, sequential, i);
    }
    if Scans(path, sequential, 1) {
      forall i | 1 <= i < |tail| ensures !Rejects(tail, sequential, i) {
        assert !Rejects(path, sequential, i + k);
      }
    }
  }

  /** Server paths are valid in the client's mode and map back to the client's path. */
  lemma ChrootRoundTrip(chroot: Option<CString>, clientPath: CString, sequential: bool)
    requires chroot.Some? ==> IsChroot(chroot.value)
    requires ValidPath(clientPath, sequential)
    ensures ValidPath(PrependString(chroot, clientPath), sequential)
    ensures SubString(chroot, PrependString(chroot, clientPath)) == clientPath
  {
    ValidStartsWithSlash(clientPath, sequential);
    if chroot.Some? {
      if |clientPath| > 1 {
        ValidUnderChroot(chroot.value, clientPath, sequential);
      } else {
        assert clientPath == "/";
        ValidStartsWithSlash(chroot.value, false);
        ScannerDecidesGrammar(chroot.value, false);
        ScannerDecidesGrammar(chroot.value, sequential);
        assert forall i :: 1 <= i < |chroot.value| && !Rejects(chroot.value, false, i) ==>
                             !Rejects(chroot.value, sequential, i);
      }
    }
  }

  /** At the chroot or below it, component by component. */
  predicate Under(chroot: CString, serverPath: CString) {
    chroot <= serverPath && (|serverPath| == |chroot| || serverPath[|chroot|] == '/')
  }

  /** No client path leaves the chroot: "/" is the chroot itself and any other path stands right behind it. */
  lemma PrependStaysUnder(chroot: CString, clientPath: CString, sequential: bool)
    requires IsChroot(chroot) && ValidPath(clientPath, sequential)
    ensures var r := PrependString(Some(chroot), clientPath);
            && Under(chroot, r)
            && (clientPath == "/" ==> r == chroot) && (clientPath != "/" ==> r[|chroot|..] == clientPath)
  {
    ValidStartsWithSlash(clientPath, sequential);
    if |clientPath| == 1 {
      assert clientPath == "/";
    } else {
      assert (chroot + clientPath)[|chroot|..] == clientPath && (chroot + clientPath)[|chroot|] == clientPath[0];
    }
  }

  /**
    * Every server path there is the client path that `sub_string` gives, prepended; the one
    * exception is the chroot with a slash behind it, which only a sequential mode admits.
    */
  lemma PrependReachesAll(chroot: CString, serverPath: CString, sequential: bool)
    requires IsChroot(chroot) && ValidPath(serverPath, sequential) && Under(chroot, serverPath)
    ensures var p := SubString(Some(chroot), serverPath);
            ValidPath(p, sequential) && (PrependString(Some(chroot), p) == serverPath <==> serverPath != chroot + "/")
    ensures serverPath == chroot + "/" ==> sequential
  {
    ScannerDecidesGrammar(serverPath, sequential);
    SubStringIsClientPathIff(chroot, serverPath, sequential);
    var k := |chroot|;
    if k < |serverPath| {
      assert serverPath == chroot + serverPath[k..];
    }
  }

  /** Two client paths never share a server node. */
  lemma PrependInjective(chroot: Option<CString>, p: CString, q: CString, sequential: bool)
    requires chroot.Some? ==> IsChroot(chroot.value)
    requires ValidPath(p, sequential) && ValidPath(q, sequential)
    requires PrependString(chroot, p) == PrependString(chroot, q)
    ensures p == q
  {
    ChrootRoundTrip(chroot, p, sequential);
    ChrootRoundTrip(chroot, q, sequential);
  }

  /**
    * The prefix test compares bytes, not components: on a server path that has the chroot as
    * a prefix, the stripped path is a client path exactly when the chroot ends at a component
    * boundary.
    */
  lemma SubStringIsClientPathIff(chroot: CString, serverPath: CString, sequential: bool)
    requires IsChroot(chroot) && ValidPath(serverPath, sequential) && chroot <= serverPath
    ensures ValidPath(SubString(Some(chroot), serverPath), sequential) <==>
            |serverPath| == |chroot| || serverPath[|chroot|] == '/'
  {
    var k := |chroot|;
    if k < |serverPath| {
      var tail: CString := serverPath[k..];
      assert serverPath == chroot + tail;
      ValidStartsWithSlash(tail, sequential);
      if tail[0] == '/' && |tail| > 1 {
        ValidUnderChroot(chroot, tail, sequential);
      } else if tail[0] == '/' {
        assert tail == "/";
      }
    }
  }

  /** A sibling of the chroot whose name extends it is stripped to a relative path. */
  lemma SubStringStripsSibling()
    ensures IsChroot("/app") && ValidPath("/apple", false)
    ensures SubString(Some("/app"), "/apple") == "le" && !ValidPath("le", false)
  {
    ScannerDecidesGrammar("/app", false);
    ScannerDecidesGrammar("/apple", false);
    ValidStartsWithSlash("le", false);
    assert "/apple"[4..] == "le";
    assert "/apple" == "/app" + "le";
  }
}
