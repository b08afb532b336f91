/**
  * The generated serializers. Every one instantiates one of two templates: a record chains its
  * fields' calls, a vector writes its count and loops. The templates are methods over schemas.
  */
module Records {
  import opened Jute
  import opened Archive

  // Records that other modules exchange.
  const STRING_VECTOR := TVector(TString)
  const STAT := TRecord([TLong, TLong, TLong, TLong, TInt, TInt, TInt, TLong, TInt, TInt, TLong])
  const SET_WATCHES := TRecord([TLong, STRING_VECTOR, STRING_VECTOR, STRING_VECTOR])
  const MULTI_HEADER := TRecord([TInt, TBool, TInt])
  const ERROR_RESPONSE := TRecord([TInt])
  const CONNECT_REQUEST := TRecord([TInt, TLong, TInt, TLong, TBuffer])
  const CONNECT_RESPONSE := TRecord([TInt, TInt, TLong, TBuffer])

  /** Appends exactly the encoding, for every record type. */
  method Serialize(oa: OArchive, s: Schema, v: Value) returns (rc: int)
    requires Conforms(s, v)
    requires oa.Valid() && oa.off as int + |Encode(s, v)| <= MAX_OUTPUT
    modifies oa, oa.buffer
    ensures rc == 0 && oa.Valid() && (oa.buffer == old(oa.buffer) || fresh(oa.buffer))
    ensures oa.Contents() == old(oa.Contents()) + Encode(s, v)
    decreases s, 0
  {
    match s
    case TBool => rc := oa.SerializeBool(v.flag);
    case TInt => rc := oa.SerializeInt(v.i);
    case TLong => rc := oa.SerializeLong(v.l);
    case TBuffer => rc := oa.SerializeBytes(v.data);
    case TString =>
      TerminatedWhole(v.chars);
      rc := oa.SerializeString(v.chars);
    case TVector(e) => rc := SerializeVector(oa, e, v.count, v.elems);
    case TRecord(fs) => rc := SerializeFields(oa, fs, v.values);
  }

  lemma EncodeElemsStep(e: Schema, elems: seq<Value>, i: nat, before: seq<byte>)
    requires i < |elems| && ConformEach(e, elems)
    ensures before + EncodeElems(e, elems[i..]) == before + Encode(e, elems[i]) + EncodeElems(e, elems[i + 1..])
  {
    assert elems[i..][0] == elems[i] && elems[i..][1..] == elems[i + 1..];
  }

  method SerializeVector(oa: OArchive, e: Schema, count: int32, elems: seq<Value>) returns (rc: int)
    requires Conforms(TVector(e), Vector(count, elems))
    requires oa.Valid() && oa.off as int + 4 + |EncodeElems(e, elems)| <= MAX_OUTPUT
    modifies oa, oa.buffer
    ensures rc == 0 && oa.Valid() && (oa.buffer == old(oa.buffer) || fresh(oa.buffer))
    ensures oa.Contents() == old(oa.Contents()) + EncodeInt(count) + EncodeElems(e, elems)
    decreases e, 2
  {
    rc := oa.SerializeInt(count);
    rc := SerializeElems(oa, e, elems);
  }

  method SerializeElems(oa: OArchive, e: Schema, elems: seq<Value>) returns (rc: int)
    requires ConformEach(e, elems)
    requires oa.Valid() && oa.off as int + |EncodeElems(e, elems)| <= MAX_OUTPUT
    modifies oa, oa.buffer
    ensures rc == 0 && oa.Valid() && (oa.buffer == old(oa.buffer) || fresh(oa.buffer))
    ensures oa.Contents() == old(oa.Contents()) + EncodeElems(e, elems)
    decreases e, 1
  {
    var i := 0;
    rc := 0;
    assert elems[0..] == elems;
    while i < |elems|
      invariant 0 <= i <= |elems| && rc == 0
      invariant oa.Valid() && (oa.buffer == old(oa.buffer) || fresh(oa.buffer))
      invariant old(oa.Contents()) + EncodeElems(e, elems) == oa.Contents() + EncodeElems(e, elems[i..])
    {
      EncodeElemsStep(e, elems, i, oa.Contents());
      rc := Serialize(oa, e, elems[i]);
      i := i + 1;
    }
  }

  method SerializeFields(oa: OArchive, fs: seq<Schema>, vs: seq<Value>) returns (rc: int)
    requires ConformsAll(fs, vs)
    requires oa.Valid() && oa.off as int + |EncodeFields(fs, vs)| <= MAX_OUTPUT
    modifies oa, oa.buffer
    ensures rc == 0 && oa.Valid() && (oa.buffer == old(oa.buffer) || fresh(oa.buffer))
    ensures oa.Contents() == old(oa.Contents()) + EncodeFields(fs, vs)
    decreases fs, 1
  {
    rc := 0;
    if fs != [] {
      rc := Serialize(oa, fs[0], vs[0]);
      rc := SerializeFields(oa, fs[1..], vs[1..]);
    }
  }

  /** Does to the archive what `Decode` does to its bytes, for every record type. */
  method Deserialize(ia: IArchive, s: Schema) returns (rc: int, v: Value)
    requires ia.Valid()
    modifies ia
    ensures ia.Valid() && Parsed(rc, v, ia.Remaining()) == Decode(s, old(ia.Remaining()))
    decreases s, 0
  {
    v := Unset;
    match s
    case TBool => var x; rc, x := ia.DeserializeBool(); v := if rc == 0 then Bool(x) else Unset;
    case TInt => var x; rc, x := ia.DeserializeInt(); v := if rc == 0 then Int(x) else Unset;
    case TLong => var x; rc, x := ia.DeserializeLong(); v := if rc == 0 then Long(x) else Unset;
    case TBuffer => var x; rc, x := ia.DeserializeBuffer(); v := if rc == 0 then Buffer(x) else Unset;
    case TString => var x; rc, x := ia.DeserializeString(); v := if rc == 0 then Str(x) else Unset;
    case TVector(e) => rc, v := DeserializeVector(ia, e);
    case TRecord(fs) => var vs; rc, vs := DeserializeFields(ia, fs); v := Record(vs);
  }

  method DeserializeVector(ia: IArchive, e: Schema) returns (rc: int, v: Value)
    requires ia.Valid()
    modifies ia
    ensures ia.Valid() && Parsed(rc, v, ia.Remaining()) == Decode(TVector(e), old(ia.Remaining()))
    decreases e, 2
  {
    v := Unset;
    var count;
    rc, count := ia.DeserializeInt();
    if rc == 0 {
      var elems;
      rc, elems := DeserializeElems(ia, e, if count < 0 then 0 else count as nat);
      v := Vector(count, elems);
    }
    rc := 0;
  }

  method DeserializeElems(ia: IArchive, e: Schema, count: nat) returns (rc: int, elems: seq<Value>)
    requires ia.Valid()
    modifies ia
    ensures ia.Valid() && Parsed(rc, elems, ia.Remaining()) == DecodeElems(e, count, old(ia.Remaining()))
    decreases e, 1
  {
    rc, elems := 0, [];
    var i := 0;
    ghost var all := DecodeElems(e, count, ia.Remaining());
    assert [] + all.value == all.value;
    while i < count
      invariant 0 <= i <= count && ia.Valid()
      invariant rc == 0 ==> all == AfterPrefix(elems, DecodeElems(e, count - i, ia.Remaining()))
      invariant rc != 0 ==> all == AfterPrefix(elems, Parsed(rc, Unsets(count - i), ia.Remaining()))
    {
      if rc == 0 {
        var x;
        DecodeElemsStep(e, count - i, ia.Remaining(), elems);
        rc, x := Deserialize(ia, e);
        elems := elems + [x];
      } else {
        PrefixAssoc(elems, Unset, Parsed(rc, Unsets(count - i - 1), ia.Remaining()));
        elems := elems + [Unset];
      }
      i := i + 1;
    }
    assert elems + [] == elems;
  }

  ghost function AfterPrefix(prefix: seq<Value>, p: Parsed<seq<Value>>): Parsed<seq<Value>> {
    Parsed(p.rc, prefix + p.value, p.rest)
  }

  lemma PrefixAssoc(prefix: seq<Value>, x: Value, p: Parsed<seq<Value>>)
    ensures AfterPrefix(prefix, AfterPrefix([x], p)) == AfterPrefix(prefix + [x], p)
  {
    assert prefix + ([x] + p.value) == prefix + [x] + p.value;
  }

  lemma DecodeElemsStep(e: Schema, n: nat, b: seq<byte>, prefix: seq<Value>)
    requires n > 0
    ensures var first := Decode(e, b);
            AfterPrefix(prefix, DecodeElems(e, n, b)) ==
            AfterPrefix(prefix + [first.value],
                        if first.rc == 0 then DecodeElems(e, n - 1, first.rest)
                        else Parsed(first.rc, Unsets(n - 1), first.rest))
  {
    var first := Decode(e, b);
    PrefixAssoc(prefix, first.value,
                if first.rc == 0 then DecodeElems(e, n - 1, first.rest)
                else Parsed(first.rc, Unsets(n - 1), first.rest));
  }

  method DeserializeFields(ia: IArchive, fs: seq<Schema>) returns (rc: int, vs: seq<Value>)
    requires ia.Valid()
    modifies ia
    ensures ia.Valid() && Parsed(rc, vs, ia.Remaining()) == DecodeFields(fs, old(ia.Remaining()))
    decreases fs, 1
  {
    rc, vs := 0, [];
    if fs != [] {
      var first, others;
      rc, first := Deserialize(ia, fs[0]);
      if rc != 0 {
        vs := [first] + Unsets(|fs| - 1);
      } else {
        rc, others := DeserializeFields(ia, fs[1..]);
        vs := [first] + others;
      }
    }
  }

  /** Writing a record to a fresh archive and reading the buffer back gives the record. */
  method WriteThenRead(s: Schema, v: Value) returns (rc: int, w: Value)
    requires Conforms(s, v) && NoNullString(v) && |Encode(s, v)| <= MAX_OUTPUT
    ensures rc == 0 && w == Normal(v)
  {
    var oa := new OArchive();
    rc := Serialize(oa, s, v);
    var bytes := oa.buffer[..oa.off];
    assert bytes == oa.Contents() == Encode(s, v) + [];
    var ia := new IArchive(bytes);
    RoundTrip(s, v, []);
    rc, w := Deserialize(ia, s);
  }
}
