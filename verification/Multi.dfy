/**
  * Completing an asynchronous multi: the reply is read off the wire sub-result by sub-result,
  * each handed to its operation's entry, before the multi's own completion runs.
  */
module Multi {
  import opened Common
  import opened Jute
  import opened Archive
  import opened Records
  import opened Path
  import opened Chroot

  /** What a sub-operation's reply carries: a path, a stat, or nothing. */
  datatype Kind = StringKind | StatKind | VoidKind

  const CREATE_RESPONSE := TRecord([TString])
  const SET_DATA_RESPONSE := TRecord([STAT])

  function BodySchema(kind: Kind): Schema {
    match kind
    case StringKind => CREATE_RESPONSE
    case StatKind => SET_DATA_RESPONSE
    case VoidKind => TRecord([])
  }

  /** An operation of the multi: its completion kind and the result slot it fills. */
  datatype Entry = Entry(kind: Kind, slot: nat)

  const ZOO_CREATE_OP := 1
  const ZOO_DELETE_OP := 2
  const ZOO_SETDATA_OP := 5
  const ZOO_CHECK_OP := 13
  const ZOO_CREATE_CONTAINER_OP := 19

  function KindOf(opType: int): Option<Kind> {
    if opType == ZOO_CREATE_OP || opType == ZOO_CREATE_CONTAINER_OP then Some(StringKind)
    else if opType == ZOO_DELETE_OP || opType == ZOO_CHECK_OP then Some(VoidKind)
    else if opType == ZOO_SETDATA_OP then Some(StatKind)
    else None
  }

  /** An operation as the program passes it; the flags are those of a create. */
  datatype Op = Op(opType: int, path: CString, flags: int)

  /** The mode a path is checked in. */
  function ModeOf(op: Op): int {
    if KindOf(op.opType) == Some(StringKind) then op.flags else 0
  }

  /** The path the server will see is valid in the operation's mode. */
  ghost predicate GoodPath(chroot: Option<CString>, op: Op) {
    ValidPath(PrependString(chroot, op.path), IsSequence(ModeOf(op)))
  }

  /** The completion list of a multi over these operations: slot i for operation i. */
  predicate EntriesOf(entries: seq<Entry>, ops: seq<Op>) {
    |entries| == |ops|
    && forall i :: 0 <= i < |ops| ==> entries[i].slot == i && KindOf(ops[i].opType) == Some(entries[i].kind)
  }

  /** Request_path_init: the path first, then the session. */
  method CheckPath(chroot: Option<CString>, state: int, op: Op) returns (rc: int)
    ensures rc == if !GoodPath(chroot, op) then ZBADARGUMENTS else if state < 0 then ZINVALIDSTATE else ZOK
  {
    var valid := IsValidPath(Some(PrependString(chroot, op.path)), ModeOf(op));
    rc := if !valid then ZBADARGUMENTS else if state < 0 then ZINVALIDSTATE else ZOK;
  }

  /**
    * Queues one completion entry per operation, in order. An unknown operation refuses the multi
    * at once; an invalid path, a lost session or a closing handle lets it fail at the end.
    */
  method BuildEntries(chroot: Option<CString>, state: int, closeRequested: bool, ops: seq<Op>)
    returns (rc: int, entries: seq<Entry>)
    ensures rc == ZOK || rc == ZUNIMPLEMENTED || rc == ZMARSHALLINGERROR
    ensures rc == ZUNIMPLEMENTED <==> exists i :: 0 <= i < |ops| && KindOf(ops[i].opType).None?
    ensures rc == ZOK ==> !closeRequested && (forall i :: 0 <= i < |ops| ==> GoodPath(chroot, ops[i])) && (ops != [] ==> state >= 0)
    ensures rc == ZMARSHALLINGERROR ==>
              closeRequested || (exists i :: 0 <= i < |ops| && !GoodPath(chroot, ops[i])) || (ops != [] && state < 0)
    ensures rc != ZUNIMPLEMENTED ==> EntriesOf(entries, ops)
  {
    entries, rc := [], ZOK;
    var i := 0;
    while i < |ops|
      invariant 0 <= i <= |ops| && EntriesOf(entries, ops[..i])
      invariant forall j :: 0 <= j < i ==> KindOf(ops[j].opType).Some?
      invariant rc <= 0
      invariant rc == ZOK ==> (forall j :: 0 <= j < i ==> GoodPath(chroot, ops[j])) && (i > 0 ==> state >= 0)
      invariant rc < 0 ==> (exists j :: 0 <= j < i && !GoodPath(chroot, ops[j])) || (i > 0 && state < 0)
    {
      var kind := KindOf(ops[i].opType);
      if kind.None? {
        return ZUNIMPLEMENTED, entries;
      }
      if rc == ZOK {
        rc := CheckPath(chroot, state, ops[i]);
      }
      entries := entries + [Entry(kind.value, i)];
      i := i + 1;
    }
    assert ops[..i] == ops;
    if rc == ZOK && closeRequested {
      rc := ZINVALIDSTATE;
    }
    rc := if rc < 0 then ZMARSHALLINGERROR else ZOK;
  }

  /**
    * One part of the server's reply: an error record, or the operation's response. Either is
    * announced by a header with an error code of its own.
    */
  datatype Part = Error(announced: int32, err: int32) | Done(opType: int32, err: int32, body: Value)

  /** The part answers the entry: a response is of the entry's kind and not marked as an error. */
  predicate Answers(part: Part, entry: Entry) {
    part.Done? ==> part.opType != -1 && Conforms(BodySchema(entry.kind), part.body) && NoNullString(part.body)
  }

  predicate AllAnswer(parts: seq<Part>, entries: seq<Entry>) {
    |parts| == |entries| && forall i :: 0 <= i < |parts| ==> AnswersAt(parts, entries, i)
  }

  predicate AnswersAt(parts: seq<Part>, entries: seq<Entry>, i: nat)
    requires |parts| == |entries| && i < |parts|
  {
    Answers(parts[i], entries[i])
  }

  function Header(opType: int32, done: int32, err: int32): Value {
    Record([Int(opType), Bool(done), Int(err)])
  }

  lemma HeaderConforms(opType: int32, done: int32, err: int32)
    ensures Conforms(MULTI_HEADER, Header(opType, done, err)) && NoNullString(Header(opType, done, err))
  {
    var fs, vs := [TInt, TBool, TInt], [Int(opType), Bool(done), Int(err)];
    assert ConformsAll(fs[3..], vs[3..]);
    assert fs[2..][1..] == fs[3..] && vs[2..][1..] == vs[3..];
    assert ConformsAll(fs[2..], vs[2..]);
    assert fs[1..][1..] == fs[2..] && vs[1..][1..] == vs[2..];
    assert ConformsAll(fs[1..], vs[1..]);
  }

  lemma ErrorConforms(err: int32)
    ensures Conforms(ERROR_RESPONSE, Record([Int(err)])) && NoNullString(Record([Int(err)]))
  {
    assert ConformsAll([TInt][1..], [Int(err)][1..]);
  }

  function EncodeHeader(opType: int32, done: int32, err: int32): seq<byte> {
    HeaderConforms(opType, done, err);
    Encode(MULTI_HEADER, Header(opType, done, err))
  }

  function EncodeError(err: int32): seq<byte> {
    ErrorConforms(err);
    Encode(ERROR_RESPONSE, Record([Int(err)]))
  }

  function EncodeBody(part: Part, entry: Entry): seq<byte>
    requires Answers(part, entry)
  {
    if part.Error? then EncodeError(part.err) else Encode(BodySchema(entry.kind), part.body)
  }

  /** The header that stands before the next part, or the closing one. */
  function NextHeader(parts: seq<Part>): seq<byte> {
    if parts == [] then EncodeHeader(-1, 1, -1)
    else if parts[0].Error? then EncodeHeader(-1, 0, parts[0].announced)
    else EncodeHeader(parts[0].opType, 0, parts[0].err)
  }

  /** What follows that header. */
  function AfterHeader(parts: seq<Part>, entries: seq<Entry>): seq<byte>
    requires AllAnswer(parts, entries)
  {
    if parts == [] then []
    else
      AnswerRest(parts, entries);
      EncodeBody(parts[0], entries[0]) + (NextHeader(parts[1..]) + AfterHeader(parts[1..], entries[1..]))
  }

  /** The bytes of a reply that answers the entries, up to and including the closing header. */
  function Reply(parts: seq<Part>, entries: seq<Entry>): seq<byte>
    requires AllAnswer(parts, entries)
  {
    NextHeader(parts) + AfterHeader(parts, entries)
  }

  /** Calls of user code: a result slot filled, or the multi's own completion. */
  datatype Call = Fill(slot: nat, err: int32, result: Option<Value>) | Own(rc: int32)

  /** What an operation is told: its error code, and its result unless it failed or has none. */
  function Told(part: Part, entry: Entry): Call {
    Fill(entry.slot, part.err,
         if part.Error? || entry.kind == VoidKind then None else Some(Normal(part.body)))
  }

  predicate Counts(err: int32) {
    err != 0 && err as int != ZRUNTIMEINCONSISTENCY
  }

  /** The first error that is neither ok nor a mere consequence of another one. */
  function FirstError(parts: seq<Part>): int32 {
    if parts == [] then 0
    else if parts[0].Error? && Counts(parts[0].err) then parts[0].err
    else FirstError(parts[1..])
  }

  lemma {:induction false} FirstErrorIsFirst(parts: seq<Part>)
    ensures FirstError(parts) == 0 <==> forall i :: 0 <= i < |parts| && parts[i].Error? ==> parts[i].err == 0 || parts[i].err == -2
    ensures FirstError(parts) != 0 ==>
              exists i :: 0 <= i < |parts| && parts[i].Error? && parts[i].err == FirstError(parts) && FirstError(parts) != -2
                          && forall j :: 0 <= j < i && parts[j].Error? ==> parts[j].err == 0 || parts[j].err == -2
  {
    if parts != [] {
      var rest := parts[1..];
      FirstErrorIsFirst(rest);
      assert forall i :: 0 <= i < |rest| ==> rest[i] == parts[i + 1];
      if parts[0].Error? && Counts(parts[0].err) {
        assert parts[0].err == FirstError(parts);
      } else if FirstError(rest) != 0 {
        var i :| 0 <= i < |rest| && rest[i].Error? && rest[i].err == FirstError(rest)
                 && forall j :: 0 <= j < i && rest[j].Error? ==> rest[j].err == 0 || rest[j].err == -2;
        assert parts[i + 1].err == FirstError(parts);
        assert forall j :: 0 < j < i + 1 ==> parts[j] == rest[j - 1];
      }
    }
  }

  /** Reads a record written by the server. */
  method ReadRecord(ia: IArchive, s: Schema, ghost v: Value, ghost tail: seq<byte>) returns (w: Value)
    requires ia.Valid() && Conforms(s, v) && NoNullString(v) && ia.Remaining() == Encode(s, v) + tail
    modifies ia
    ensures ia.Valid() && w == Normal(v) && ia.Remaining() == tail
  {
    RoundTrip(s, v, tail);
    var rc;
    rc, w := Deserialize(ia, s);
  }

  method ReadHeader(ia: IArchive, ghost opType: int32, ghost done: int32, ghost err: int32, ghost tail: seq<byte>)
    returns (t: int32, d: int32, e: int32)
    requires ia.Valid() && ia.Remaining() == EncodeHeader(opType, done, err) + tail
    modifies ia
    ensures ia.Valid() && t == opType && (d == 0 <==> done == 0) && e == err && ia.Remaining() == tail
  {
    HeaderConforms(opType, done, err);
    var w := ReadRecord(ia, MULTI_HEADER, Header(opType, done, err), tail);
    assert w.values == Normals([Int(opType), Bool(done), Int(err)]);
    t, d, e := w.values[0].i, w.values[1].flag, w.values[2].i;
  }

  /** Hands one part to the entry at the head of the list: the body of `deserialize_multi`'s loop. */
  method ReadPart(ia: IArchive, entry: Entry, opType: int32, announced: int32, ghost part: Part, ghost tail: seq<byte>)
    returns (call: Call)
    requires ia.Valid() && Answers(part, entry) && ia.Remaining() == EncodeBody(part, entry) + tail
    requires part.Error? <==> opType == -1
    requires part.Done? ==> announced == part.err
    modifies ia
    ensures ia.Valid() && ia.Remaining() == tail && call == Told(part, entry)
  {
    if opType == -1 {
      ErrorConforms(part.err);
      var w := ReadRecord(ia, ERROR_RESPONSE, Record([Int(part.err)]), tail);
      assert w.values == Normals([Int(part.err)]);
      return Fill(entry.slot, w.values[0].i, None);
    }
    if entry.kind == VoidKind {
      assert EncodeBody(part, entry) == [];
      return Fill(entry.slot, announced, None);
    }
    var w := ReadRecord(ia, BodySchema(entry.kind), part.body, tail);
    return Fill(entry.slot, announced, Some(w));
  }

  method ReadNextHeader(ia: IArchive, ghost parts: seq<Part>, ghost tail: seq<byte>)
    returns (t: int32, d: int32, e: int32)
    requires ia.Valid() && ia.Remaining() == NextHeader(parts) + tail
    modifies ia
    ensures ia.Valid() && ia.Remaining() == tail && HeaderAgrees(t, d, e, parts)
  {
    ghost var error := parts != [] && parts[0].Error?;
    ghost var response := parts != [] && parts[0].Done?;
    t, d, e := ReadHeader(ia,
                          if response then parts[0].opType else -1,
                          if parts == [] then 1 else 0,
                          if error then parts[0].announced else if response then parts[0].err else -1,
                          tail);
  }

  ghost predicate HeaderAgrees(opType: int32, done: int32, err: int32, parts: seq<Part>) {
    && (done != 0 <==> parts == [])
    && (parts != [] && parts[0].Error? ==> opType == -1)
    && (parts != [] && parts[0].Done? ==> opType == parts[0].opType && err == parts[0].err)
  }

  /** Each operation is told its own part. */
  ghost predicate ToldAll(calls: seq<Call>, parts: seq<Part>, entries: seq<Entry>) {
    |calls| == |parts| == |entries| && forall i :: 0 <= i < |calls| ==> calls[i] == Told(parts[i], entries[i])
  }

  lemma {:induction false} FirstErrorSnoc(parts: seq<Part>, part: Part)
    ensures FirstError(parts + [part]) ==
            if FirstError(parts) == 0 && part.Error? && Counts(part.err) then part.err else FirstError(parts)
  {
    if parts != [] {
      assert (parts + [part])[1..] == parts[1..] + [part];
      FirstErrorSnoc(parts[1..], part);
    }
  }

  lemma ToldSnoc(calls: seq<Call>, parts: seq<Part>, entries: seq<Entry>, part: Part, entry: Entry)
    requires ToldAll(calls, parts, entries)
    ensures ToldAll(calls + [Told(part, entry)], parts + [part], entries + [entry])
  {}

  lemma AnswerRest(parts: seq<Part>, entries: seq<Entry>)
    requires AllAnswer(parts, entries) && parts != []
    ensures Answers(parts[0], entries[0]) && AllAnswer(parts[1..], entries[1..])
  {
    assert AnswersAt(parts, entries, 0);
    forall i | 0 <= i < |parts| - 1 ensures AnswersAt(parts[1..], entries[1..], i) {
      assert AnswersAt(parts, entries, i + 1);
    }
  }

  /** One round of the loop: a part goes to its entry, and the next header is read. */
  method ReadRound(ia: IArchive, entry: Entry, opType: int32, err: int32,
                   ghost parts: seq<Part>, ghost entries: seq<Entry>, ghost tail: seq<byte>)
    returns (call: Call, t: int32, d: int32, e: int32)
    requires AllAnswer(parts, entries) && parts != [] && entry == entries[0] && HeaderAgrees(opType, 0, err, parts)
    requires ia.Valid() && ia.Remaining() == AfterHeader(parts, entries) + tail
    modifies ia
    ensures AllAnswer(parts[1..], entries[1..]) && HeaderAgrees(t, d, e, parts[1..])
    ensures ia.Valid() && ia.Remaining() == AfterHeader(parts[1..], entries[1..]) + tail
    ensures call == Told(parts[0], entry) && (opType == -1 <==> parts[0].Error?)
  {
    AnswerRest(parts, entries);
    ghost var header, body := NextHeader(parts[1..]), AfterHeader(parts[1..], entries[1..]);
    Assoc(EncodeBody(parts[0], entry), header + body, tail);
    call := ReadPart(ia, entry, opType, err, parts[0], header + body + tail);
    Assoc(header, body, tail);
    t, d, e := ReadNextHeader(ia, parts[1..], body + tail);
  }

  /** How far the loop has come: the parts split into those told and those left. */
  ghost predicate Reached(rc: int32, calls: seq<Call>, was: seq<Part>, had: seq<Entry>,
                          left: seq<Part>, clist: seq<Entry>, parts: seq<Part>, entries: seq<Entry>) {
    && ToldAll(calls, was, had) && rc == FirstError(was)
    && parts == was + left && entries == had + clist
  }

  lemma ReachedNext(rc: int32, calls: seq<Call>, was: seq<Part>, had: seq<Entry>,
                    left: seq<Part>, clist: seq<Entry>, parts: seq<Part>, entries: seq<Entry>)
    requires Reached(rc, calls, was, had, left, clist, parts, entries) && |left| == |clist| > 0
    ensures Reached(if rc == 0 && left[0].Error? && Counts(left[0].err) then left[0].err else rc,
                    calls + [Told(left[0], clist[0])], was + [left[0]], had + [clist[0]],
                    left[1..], clist[1..], parts, entries)
  {
    FirstErrorSnoc(was, left[0]);
    ToldSnoc(calls, was, had, left[0], clist[0]);
  }

  /** `deserialize_multi`: every operation is told its part, in order, and rc is the first error. */
  method DeserializeMulti(ia: IArchive, entries: seq<Entry>, ghost parts: seq<Part>, ghost tail: seq<byte>)
    returns (rc: int32, calls: seq<Call>)
    requires ia.Valid() && AllAnswer(parts, entries) && ia.Remaining() == Reply(parts, entries) + tail
    modifies ia
    ensures ia.Valid() && ia.Remaining() == tail
    ensures ToldAll(calls, parts, entries) && rc == FirstError(parts)
  {
    rc, calls := 0, [];
    var clist := entries;
    ghost var was, had, left := [], [], parts;
    Assoc(NextHeader(left), AfterHeader(left, clist), tail);
    var opType, done, err := ReadNextHeader(ia, left, AfterHeader(left, clist) + tail);
    while done == 0
      invariant AllAnswer(left, clist) && HeaderAgrees(opType, done, err, left)
      invariant ia.Valid() && ia.Remaining() == AfterHeader(left, clist) + tail
      invariant Reached(rc, calls, was, had, left, clist, parts, entries)
      decreases |left|
    {
      var entry := clist[0];
      ReachedNext(rc, calls, was, had, left, clist, parts, entries);
      var call, t, d, e := ReadRound(ia, entry, opType, err, left, clist, tail);
      if opType == -1 && rc == 0 && Counts(call.err) {
        rc := call.err;
      }
      calls := calls + [call];
      was, had, left := was + [left[0]], had + [entry], left[1..];
      clist := clist[1..];
      opType, done, err := t, d, e;
    }
    assert parts == was && entries == had;
  }

  /** `cleanup_failed_multi`: every operation gets the failure code, in order. */
  method CleanupFailedMulti(entries: seq<Entry>, rc: int32) returns (calls: seq<Call>)
    ensures |calls| == |entries|
    ensures forall i :: 0 <= i < |calls| ==> calls[i] == Fill(entries[i].slot, rc, None)
  {
    calls := [];
    var clist := entries;
    while clist != []
      invariant |calls| + |clist| == |entries| && clist == entries[|calls|..]
      invariant forall i :: 0 <= i < |calls| ==> calls[i] == Fill(entries[i].slot, rc, None)
    {
      calls := calls + [Fill(clist[0].slot, rc, None)];
      clist := clist[1..];
    }
  }

  /**
    * Completing a multi whose reply header carries `headerErr`: each of the operations' slots is
    * filled exactly once, in operation order, and the multi's own completion comes after them all.
    */
  method CompleteMulti(ops: seq<Op>, entries: seq<Entry>, headerErr: int32, ia: IArchive,
                       ghost parts: seq<Part>, ghost tail: seq<byte>)
    returns (calls: seq<Call>)
    requires EntriesOf(entries, ops) && ia.Valid()
    requires headerErr == 0 ==> AllAnswer(parts, entries) && ia.Remaining() == Reply(parts, entries) + tail
    modifies ia
    ensures |calls| == |ops| + 1
    ensures forall i :: 0 <= i < |ops| ==> calls[i].Fill? && calls[i].slot == i
    ensures headerErr != 0 ==>
              && (forall i :: 0 <= i < |ops| ==> calls[i].err == headerErr && calls[i].result == None)
              && calls[|ops|] == Own(headerErr)
    ensures headerErr == 0 ==>
              && (forall i :: 0 <= i < |ops| ==> calls[i] == Told(parts[i], entries[i]))
              && calls[|ops|] == Own(FirstError(parts))
              && ia.Valid() && ia.Remaining() == tail
  {
    var rc := headerErr;
    if headerErr != 0 {
      calls := CleanupFailedMulti(entries, headerErr);
    } else {
      rc, calls := DeserializeMulti(ia, entries, parts, tail);
    }
    calls := calls + [Own(rc)];
  }

  // ---------------------------------------------------------------------
  // By the numbers of the protocol
  // ---------------------------------------------------------------------

  /** create (1) and createContainer (19) answer with a path, setData (5) with a stat, delete (2) and check (13) with nothing. */
  lemma AnswerOfOperation(opType: int)
    ensures KindOf(opType).Some? <==> opType in {1, 2, 5, 13, 19}
    ensures opType == 1 || opType == 19 ==> BodySchema(KindOf(opType).value) == TRecord([TString])
    ensures opType == 5 ==> BodySchema(KindOf(opType).value) == TRecord([STAT])
    ensures opType == 2 || opType == 13 ==> BodySchema(KindOf(opType).value) == TRecord([])
  {
  }

  /** What is read back stands for the same bytes. */
  lemma SameOnTheWire(s: Schema, v: Value)
    requires Conforms(s, v) && NoNullString(v)
    ensures Conforms(s, Normal(v)) && Encode(s, Normal(v)) == Encode(s, v)
  {
    RoundTrip(s, v, []);
    NormalIsCanonical(s, v);
    assert Encode(s, v) + [] == Encode(s, v);
    DecodedIsEncoded(s, Encode(s, v));
    assert Encode(s, Normal(v)) + [] == Encode(s, Normal(v));
  }

  /** What the caller finds in its slot: the code of its own part, and the result exactly of an operation that succeeded and has one. */
  lemma SlotHoldsOwnPart(part: Part, entry: Entry)
    requires Answers(part, entry)
    ensures Told(part, entry).slot == entry.slot && Told(part, entry).err == part.err
    ensures Told(part, entry).result.Some? <==> part.Done? && BodySchema(entry.kind) != TRecord([])
    ensures Told(part, entry).result.Some? ==> Conforms(BodySchema(entry.kind), Told(part, entry).result.value)
                                               && Encode(BodySchema(entry.kind), Told(part, entry).result.value) == EncodeBody(part, entry)
  {
    if part.Done? && entry.kind != VoidKind {
      SameOnTheWire(BodySchema(entry.kind), part.body);
    }
  }

  /** A header is nine bytes: the type, one byte that tells whether it is the last, and the error. */
  lemma HeaderLayout(opType: int32, done: int32, err: int32)
    ensures EncodeHeader(opType, done, err) == EncodeInt(opType) + [if done == 0 then 0 else 1] + EncodeInt(err)
  {
    HeaderConforms(opType, done, err);
    var fs, vs := [TInt, TBool, TInt], [Int(opType), Bool(done), Int(err)];
    FieldStands(fs, vs, 1);
    assert fs[..1] == [TInt] && vs[..1] == [Int(opType)] && fs[2..] == [TInt] && vs[2..] == [Int(err)];
    OneInt(opType);
    OneInt(err);
  }

  lemma OneInt(i: int32)
    ensures ConformsAll([TInt], [Int(i)]) && EncodeFields([TInt], [Int(i)]) == EncodeInt(i)
  {
    assert [TInt][1..] == [] && [Int(i)][1..] == [];
    assert EncodeInt(i) + [] == EncodeInt(i);
  }
}
