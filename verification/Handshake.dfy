/**
  * The handshake, whose messages are laid out by hand: they agree with the generated records,
  * followed by one byte for read-only mode.
  */
module Handshake {
  import opened Common
  import opened Jute
  import opened Records

  const PASSWD_SIZE: nat := 16
  const HANDSHAKE_REQ_SIZE: nat := 45
  const HANDSHAKE_RESP_SIZE: nat := 41

  type Passwd = p: seq<byte> | |p| == PASSWD_SIZE witness seq(PASSWD_SIZE, _ => 0)

  datatype ConnectReq = ConnectReq(protocolVersion: int32, lastZxidSeen: int64, timeOut: int32, sessionId: int64,
                                   passwd: Passwd, readOnly: byte)

  datatype PrimeResponse = PrimeResponse(len: int32, protocolVersion: int32, timeOut: int32, sessionId: int64,
                                         passwdLen: int32, passwd: Passwd, readOnly: byte)

  /** The generated record with the same fields. */
  function RequestRecord(req: ConnectReq): Value {
    Record([Int(req.protocolVersion), Long(req.lastZxidSeen), Int(req.timeOut), Long(req.sessionId), Buffer(Some(req.passwd))])
  }

  function ResponseRecord(r: PrimeResponse): Value {
    Record([Int(r.protocolVersion), Int(r.timeOut), Long(r.sessionId), Buffer(Some(r.passwd))])
  }

  // ---------------------------------------------------------------------
  // The generated encodings, field by field
  // ---------------------------------------------------------------------

  lemma FieldsCons(f: Schema, fs: seq<Schema>, v: Value, vs: seq<Value>)
    requires Conforms(f, v) && ConformsAll(fs, vs)
    ensures ConformsAll([f] + fs, [v] + vs) && EncodeFields([f] + fs, [v] + vs) == Encode(f, v) + EncodeFields(fs, vs)
  {
    assert ([f] + fs)[1..] == fs && ([v] + vs)[1..] == vs;
  }

  lemma PasswdField(p: Passwd)
    ensures ConformsAll([TBuffer], [Buffer(Some(p))])
    ensures EncodeFields([TBuffer], [Buffer(Some(p))]) == EncodeInt(16) + p
  {
    FieldsCons(TBuffer, [], Buffer(Some(p)), []);
    assert [TBuffer] + [] == [TBuffer] && [Buffer(Some(p))] + [] == [Buffer(Some(p))];
    assert Encode(TBuffer, Buffer(Some(p))) + [] == EncodeInt(16) + p;
  }

  /** A long and the password, the end of both messages. */
  lemma SessionFields(id: int64, p: Passwd)
    ensures ConformsAll([TLong, TBuffer], [Long(id), Buffer(Some(p))])
    ensures EncodeFields([TLong, TBuffer], [Long(id), Buffer(Some(p))]) == EncodeLong(id) + (EncodeInt(16) + p)
  {
    PasswdField(p);
    FieldsCons(TLong, [TBuffer], Long(id), [Buffer(Some(p))]);
    assert [TLong] + [TBuffer] == [TLong, TBuffer];
    assert [Long(id)] + [Buffer(Some(p))] == [Long(id), Buffer(Some(p))];
  }

  lemma TimedFields(timeOut: int32, id: int64, p: Passwd)
    ensures ConformsAll([TInt, TLong, TBuffer], [Int(timeOut), Long(id), Buffer(Some(p))])
    ensures EncodeFields([TInt, TLong, TBuffer], [Int(timeOut), Long(id), Buffer(Some(p))]) ==
            EncodeInt(timeOut) + (EncodeLong(id) + (EncodeInt(16) + p))
  {
    SessionFields(id, p);
    FieldsCons(TInt, [TLong, TBuffer], Int(timeOut), [Long(id), Buffer(Some(p))]);
    assert [TInt] + [TLong, TBuffer] == [TInt, TLong, TBuffer];
    assert [Int(timeOut)] + [Long(id), Buffer(Some(p))] == [Int(timeOut), Long(id), Buffer(Some(p))];
  }

  lemma RequestBytes(req: ConnectReq)
    ensures Conforms(CONNECT_REQUEST, RequestRecord(req))
    ensures Encode(CONNECT_REQUEST, RequestRecord(req)) ==
            EncodeInt(req.protocolVersion) + EncodeLong(req.lastZxidSeen) + EncodeInt(req.timeOut) + EncodeLong(req.sessionId)
            + EncodeInt(16) + req.passwd
  {
    var tail, vs := [TInt, TLong, TBuffer], [Int(req.timeOut), Long(req.sessionId), Buffer(Some(req.passwd))];
    TimedFields(req.timeOut, req.sessionId, req.passwd);
    FieldsCons(TLong, tail, Long(req.lastZxidSeen), vs);
    FieldsCons(TInt, [TLong] + tail, Int(req.protocolVersion), [Long(req.lastZxidSeen)] + vs);
    assert [TInt] + ([TLong] + tail) == [TInt, TLong, TInt, TLong, TBuffer];
    assert [Int(req.protocolVersion)] + ([Long(req.lastZxidSeen)] + vs) == RequestRecord(req).values;
    Regroup(EncodeInt(req.protocolVersion), EncodeLong(req.lastZxidSeen), EncodeInt(req.timeOut), EncodeLong(req.sessionId),
            EncodeInt(16), req.passwd);
  }

  lemma Regroup(a: seq<byte>, b: seq<byte>, c: seq<byte>, d: seq<byte>, e: seq<byte>, f: seq<byte>)
    ensures a + (b + (c + (d + (e + f)))) == a + b + c + d + e + f
  {
    Assoc(a, b, c + (d + (e + f)));
    Assoc(a + b, c, d + (e + f));
    Assoc(a + b + c, d, e + f);
    Assoc(a + b + c + d, e, f);
  }

  lemma ResponseBytes(r: PrimeResponse)
    ensures Conforms(CONNECT_RESPONSE, ResponseRecord(r))
    ensures Encode(CONNECT_RESPONSE, ResponseRecord(r)) ==
            EncodeInt(r.protocolVersion) + EncodeInt(r.timeOut) + EncodeLong(r.sessionId) + EncodeInt(16) + r.passwd
  {
    var tail, vs := [TInt, TLong, TBuffer], [Int(r.timeOut), Long(r.sessionId), Buffer(Some(r.passwd))];
    TimedFields(r.timeOut, r.sessionId, r.passwd);
    FieldsCons(TInt, tail, Int(r.protocolVersion), vs);
    assert [TInt] + tail == [TInt, TInt, TLong, TBuffer];
    assert [Int(r.protocolVersion)] + vs == ResponseRecord(r).values;
    Regroup([], EncodeInt(r.protocolVersion), EncodeInt(r.timeOut), EncodeLong(r.sessionId), EncodeInt(16), r.passwd);
    assert [] + EncodeInt(r.protocolVersion) == EncodeInt(r.protocolVersion);
  }

  // ---------------------------------------------------------------------
  // Writing the request
  // ---------------------------------------------------------------------

  /** memcpy behind what has been written. */
  method CopyTo(buffer: array<byte>, offset: nat, bytes: seq<byte>, ghost written: seq<byte>)
    returns (next: nat, ghost written': seq<byte>)
    requires offset + |bytes| <= buffer.Length && buffer[..offset] == written
    modifies buffer
    ensures next == offset + |bytes| && written' == written + bytes && buffer[..next] == written'
  {
    forall i | 0 <= i < |bytes| {
      buffer[offset + i] := bytes[i];
    }
    next, written' := offset + |bytes|, written + bytes;
  }

  /** The bytes sent are the generated encoding and the read-only flag, and fill the buffer. */
  method SerializePrimeConnect(req: ConnectReq, buffer: array<byte>)
    requires buffer.Length == HANDSHAKE_REQ_SIZE
    modifies buffer
    ensures Conforms(CONNECT_REQUEST, RequestRecord(req))
    ensures buffer[..] == Encode(CONNECT_REQUEST, RequestRecord(req)) + [req.readOnly]
  {
    ghost var w := [];
    var offset := 0;
    offset, w := CopyTo(buffer, offset, EncodeInt(req.protocolVersion), w);
    offset, w := CopyTo(buffer, offset, EncodeLong(req.lastZxidSeen), w);
    offset, w := CopyTo(buffer, offset, EncodeInt(req.timeOut), w);
    offset, w := CopyTo(buffer, offset, EncodeLong(req.sessionId), w);
    offset, w := CopyTo(buffer, offset, EncodeInt(PASSWD_SIZE as int32), w);
    offset, w := CopyTo(buffer, offset, req.passwd, w);
    offset, w := CopyTo(buffer, offset, [req.readOnly], w);
    assert buffer[..] == buffer[..offset];
    RequestBytes(req);
    assert [] + EncodeInt(req.protocolVersion) == EncodeInt(req.protocolVersion);
  }

  /** Where the fields of the request stand. */
  lemma RequestParts(req: ConnectReq, m: seq<byte>)
    requires Conforms(CONNECT_REQUEST, RequestRecord(req))
    requires m == Encode(CONNECT_REQUEST, RequestRecord(req)) + [req.readOnly]
    ensures |m| == HANDSHAKE_REQ_SIZE
    ensures m[0..4] == EncodeInt(req.protocolVersion) && m[4..12] == EncodeLong(req.lastZxidSeen)
    ensures m[12..16] == EncodeInt(req.timeOut) && m[16..24] == EncodeLong(req.sessionId)
    ensures m[24..28] == EncodeInt(16) && m[28..44] == req.passwd && m[44] == req.readOnly
  {
    var a, b, c, d, e := EncodeInt(req.protocolVersion), EncodeLong(req.lastZxidSeen), EncodeInt(req.timeOut),
                         EncodeLong(req.sessionId), EncodeInt(16);
    var flag := [req.readOnly];
    var r5 := req.passwd + flag;
    var r4 := e + r5;
    var r3 := d + r4;
    var r2 := c + r3;
    var r1 := b + r2;
    RequestBytes(req);
    Assoc(a + b + c + d + e, req.passwd, flag);
    Regroup(a, b, c, d, e, r5);
    Field(m, 0, a, r1);
    Field(m, 4, b, r2);
    Field(m, 12, c, r3);
    Field(m, 16, d, r4);
    Field(m, 24, e, r5);
    Field(m, 28, req.passwd, flag);
    assert m[44] == m[44..][0];
  }

  // ---------------------------------------------------------------------
  // Reading the response
  // ---------------------------------------------------------------------

  /** What a server sends: the length, the generated record, and the flag. */
  function ResponseMessage(r: PrimeResponse): seq<byte> {
    ResponseBytes(r);
    EncodeInt(r.len) + Encode(CONNECT_RESPONSE, ResponseRecord(r)) + [r.readOnly]
  }

  lemma ResponseParts(r: PrimeResponse)
    ensures var m := ResponseMessage(r);
            && |m| == HANDSHAKE_RESP_SIZE
            && m[0..4] == EncodeInt(r.len) && m[4..8] == EncodeInt(r.protocolVersion) && m[8..12] == EncodeInt(r.timeOut)
            && m[12..20] == EncodeLong(r.sessionId) && m[20..24] == EncodeInt(16) && m[24..40] == r.passwd
            && m[40] == r.readOnly
  {
    var m := ResponseMessage(r);
    ResponseBytes(r);
    var flag := [r.readOnly];
    var r5 := r.passwd + flag;
    var r4 := EncodeInt(16) + r5;
    var r3 := EncodeLong(r.sessionId) + r4;
    var r2 := EncodeInt(r.timeOut) + r3;
    var r1 := EncodeInt(r.protocolVersion) + r2;
    MessageNested(EncodeInt(r.len), EncodeInt(r.protocolVersion), EncodeInt(r.timeOut), EncodeLong(r.sessionId), EncodeInt(16),
                  r.passwd, flag);
    Field(m, 0, EncodeInt(r.len), r1);
    Field(m, 4, EncodeInt(r.protocolVersion), r2);
    Field(m, 8, EncodeInt(r.timeOut), r3);
    Field(m, 12, EncodeLong(r.sessionId), r4);
    Field(m, 20, EncodeInt(16), r5);
    Field(m, 24, r.passwd, flag);
    assert m[40] == m[40..][0];
  }

  /** A field at an offset, and what comes behind it. */
  lemma Field(m: seq<byte>, off: nat, field: seq<byte>, rest: seq<byte>)
    requires off <= |m| && m[off..] == field + rest
    ensures off + |field| <= |m| && m[off..off + |field|] == field && m[off + |field|..] == rest
  {
    assert m[off..off + |field|] == m[off..][..|field|];
    assert m[off + |field|..] == m[off..][|field|..];
  }

  lemma MessageNested(a: seq<byte>, b: seq<byte>, c: seq<byte>, d: seq<byte>, e: seq<byte>, f: seq<byte>, g: seq<byte>)
    ensures (a + (b + c + d + e + f) + g)[0..] == a + (b + (c + (d + (e + (f + g)))))
  {
    Assoc(a, b + c + d + e + f, g);
    Assoc(b + c + d + e, f, g);
    Assoc(b + c + d, e, f + g);
    Assoc(b + c, d, e + (f + g));
    Assoc(b, c, d + (e + (f + g)));
  }

  /** Every response is read back field by field, the password's length as announced. */
  method DeserializePrimeResponse(buffer: seq<byte>, ghost sent: PrimeResponse) returns (r: PrimeResponse)
    requires buffer == ResponseMessage(sent)
    ensures r == sent.(passwdLen := 16)
  {
    ResponseParts(sent);
    IntRoundTrip(sent.len);
    IntRoundTrip(sent.protocolVersion);
    IntRoundTrip(sent.timeOut);
    LongRoundTrip(sent.sessionId);
    IntRoundTrip(16);
    r := PrimeResponse(DecodeInt(buffer[0..4]), DecodeInt(buffer[4..8]), DecodeInt(buffer[8..12]), DecodeLong(buffer[12..20]),
                       DecodeInt(buffer[20..24]), buffer[24..40], buffer[40]);
  }
}
