/**
  * The jute wire format. A schema describes a generated record; `Encode` is the sequence of
  * bytes its serializer appends and `Decode` what its deserializer does with the bytes left
  * in the archive, error codes and swallowed errors included.
  */
module Jute {
  import opened Common

  newtype byte = x: int | 0 <= x < 256
  newtype int32 = x: int | -0x8000_0000 <= x < 0x8000_0000
  newtype int64 = x: int | -0x8000_0000_0000_0000 <= x < 0x8000_0000_0000_0000

  const E2BIG: int := 7
  const ENOMEM: int := 12
  const EINVAL: int := 22

  datatype Schema =
    | TBool | TInt | TLong | TBuffer | TString
    | TVector(elem: Schema)
    | TRecord(fields: seq<Schema>)

  /** A field's contents. `Unset` is storage the deserializer did not reach. */
  datatype Value =
    | Unset
    | Bool(flag: int32)
    | Int(i: int32)
    | Long(l: int64)
    | Buffer(data: Option<seq<byte>>)
    | Str(chars: Option<seq<byte>>)
    | Vector(count: int32, elems: seq<Value>)
    | Record(values: seq<Value>)

  /** The bytes before a C string's terminator. */
  predicate NoNul(s: seq<byte>) {
    0 !in s
  }

  /** What a serializer may be handed; lengths and counts are 32-bit. */
  predicate Conforms(s: Schema, v: Value)
    decreases s, 0
  {
    match s
    case TBool => v.Bool?
    case TInt => v.Int?
    case TLong => v.Long?
    case TBuffer => v.Buffer? && (v.data.Some? ==> |v.data.value| < 0x8000_0000)
    case TString => v.Str? && (v.chars.Some? ==> |v.chars.value| < 0x8000_0000 && NoNul(v.chars.value))
    case TVector(e) => v.Vector? && |v.elems| == (if v.count < 0 then 0 else v.count as int)
                       && ConformEach(e, v.elems)
    case TRecord(fs) => v.Record? && ConformsAll(fs, v.values)
  }

  predicate ConformEach(e: Schema, vs: seq<Value>)
    decreases e, 1
  {
    forall i :: 0 <= i < |vs| ==> Conforms(e, vs[i])
  }

  predicate ConformsAll(fs: seq<Schema>, vs: seq<Value>)
    decreases fs, 1
  {
    |fs| == |vs| && (fs != [] ==> Conforms(fs[0], vs[0]) && ConformsAll(fs[1..], vs[1..]))
  }

  // ---------------------------------------------------------------------
  // Big-endian integers
  // ---------------------------------------------------------------------

  /** The low `n` bytes of x, most significant first. */
  function BigEndian(x: nat, n: nat): (b: seq<byte>)
    ensures |b| == n
  {
    if n == 0 then [] else BigEndian(x / 256, n - 1) + [(x % 256) as byte]
  }

  function FromBigEndian(b: seq<byte>): nat {
    if b == [] then 0 else FromBigEndian(b[..|b| - 1]) * 256 + b[|b| - 1] as nat
  }

  function Pow256(n: nat): nat {
    if n == 0 then 1 else 256 * Pow256(n - 1)
  }

  lemma {:induction false} BigEndianRoundTrip(x: nat, n: nat)
    requires x < Pow256(n)
    ensures FromBigEndian(BigEndian(x, n)) == x
  {
    if n > 0 {
      var q, d, b := x / 256, x % 256, BigEndian(x, n);
      assert x == q * 256 + d;
      assert q < Pow256(n - 1);
      assert b[..n - 1] == BigEndian(q, n - 1) && b[n - 1] as nat == d;
      BigEndianRoundTrip(q, n - 1);
    }
  }

  lemma {:induction false} FromBigEndianBound(b: seq<byte>)
    ensures FromBigEndian(b) < Pow256(|b|)
  {
    if b != [] {
      FromBigEndianBound(b[..|b| - 1]);
    }
  }

  const INT_BYTES: nat := 4
  const LONG_BYTES: nat := 8

  function EncodeInt(i: int32): (b: seq<byte>)
    ensures |b| == 4
  {
    BigEndian(Unsigned32(i), INT_BYTES)
  }

  function DecodeInt(b: seq<byte>): int32
    requires |b| == 4
  {
    FromBigEndianBound(b);
    assert Pow256(4) == 0x1_0000_0000 by { assert Pow256(2) == 0x1_0000; }
    var x := FromBigEndian(b);
    (if x >= 0x8000_0000 then x - 0x1_0000_0000 else x) as int32
  }

  function EncodeLong(l: int64): (b: seq<byte>)
    ensures |b| == 8
  {
    BigEndian(Unsigned64(l), LONG_BYTES)
  }

  function DecodeLong(b: seq<byte>): int64
    requires |b| == 8
  {
    FromBigEndianBound(b);
    Pow256Of8();
    var x := FromBigEndian(b);
    (if x >= 0x8000_0000_0000_0000 then x - 0x1_0000_0000_0000_0000 else x) as int64
  }

  lemma Pow256Of8()
    ensures Pow256(4) == 0x1_0000_0000 && Pow256(8) == 0x1_0000_0000_0000_0000
  {
    assert Pow256(2) == 0x1_0000;
    assert Pow256(4) == 0x1_0000_0000;
    assert Pow256(6) == 0x1_0000_0000_0000;
  }

  // The order of the bytes.

  /** Two's complement. */
  function Unsigned32(i: int32): (u: nat)
    ensures u < 0x1_0000_0000
  {
    if i < 0 then i as int + 0x1_0000_0000 else i as int
  }

  function Unsigned64(l: int64): (u: nat)
    ensures u < 0x1_0000_0000_0000_0000
  {
    if l < 0 then l as int + 0x1_0000_0000_0000_0000 else l as int
  }

  lemma DivideAfter256(x: nat, b: nat)
    requires b > 0
    ensures x / 256 / b == x / (256 * b)
  {
    var y := x / 256;
    var q, r := y / b, y % b;
    Division(y, b);
    assert q * (256 * b) == 256 * (q * b);
    QuotientIs(x, 256 * b, q, 256 * r + x % 256);
  }

  lemma Division(y: nat, b: nat)
    requires b > 0
    ensures y == y / b * b + y % b
  {
  }

  lemma QuotientIs(x: nat, d: nat, q: nat, r: nat)
    requires d > 0 && x == q * d + r && r < d
    ensures x / d == q
  {
    var k: int, rest: int := x / d - q, x % d;
    assert x == x / d * d + rest;
    assert k * d == x / d * d - q * d;
    OnlyMultiple(k, d, r - rest);
  }

  lemma OnlyMultiple(k: int, d: int, m: int)
    requires d > 0 && k * d == m && -d < m < d
    ensures k == 0
  {
  }

  lemma {:induction false} Pow256Positive(n: nat)
    ensures Pow256(n) > 0
  {
    if n > 0 {
      Pow256Positive(n - 1);
    }
  }

  /** Byte k of n is the digit of 256 to the power n - 1 - k: the most significant one comes first. */
  lemma {:induction false} BigEndianAt(x: nat, n: nat, k: nat)
    requires k < n
    ensures Pow256(n - 1 - k) > 0 && BigEndian(x, n)[k] as int == x / Pow256(n - 1 - k) % 256
  {
    Pow256Positive(n - 1 - k);
    if k == n - 1 {
      assert BigEndian(x, n)[k] as int == x % 256;
    } else {
      BigEndianAt(x / 256, n - 1, k);
      assert BigEndian(x, n)[k] == BigEndian(x / 256, n - 1)[k];
      DivideAfter256(x, Pow256(n - 2 - k));
    }
  }

  /** htonl: the four bytes of an integer, the highest first. */
  lemma IntIsBigEndian(i: int32)
    ensures var u := Unsigned32(i);
            && EncodeInt(i)[0] as int == u / 0x100_0000 && EncodeInt(i)[1] as int == u / 0x1_0000 % 256
            && EncodeInt(i)[2] as int == u / 0x100 % 256 && EncodeInt(i)[3] as int == u % 256
  {
    var u := Unsigned32(i);
    Powers();
    BigEndianAt(u, 4, 0);
    BigEndianAt(u, 4, 1);
    BigEndianAt(u, 4, 2);
    BigEndianAt(u, 4, 3);
  }

  /** zoo_htonll: the eight bytes of a long, the highest first. */
  lemma LongIsBigEndian(l: int64, k: nat)
    requires k < 8
    ensures Pow256(7 - k) > 0 && EncodeLong(l)[k] as int == Unsigned64(l) / Pow256(7 - k) % 256
  {
    BigEndianAt(Unsigned64(l), 8, k);
  }

  lemma Powers()
    ensures Pow256(0) == 1 && Pow256(1) == 0x100 && Pow256(2) == 0x1_0000 && Pow256(3) == 0x100_0000
    ensures Pow256(4) == 0x1_0000_0000 && Pow256(5) == 0x100_0000_0000 && Pow256(6) == 0x1_0000_0000_0000
    ensures Pow256(7) == 0x100_0000_0000_0000
  {
    assert Pow256(1) == 0x100 && Pow256(2) == 0x1_0000;
    assert Pow256(3) == 0x100_0000 && Pow256(4) == 0x1_0000_0000;
    assert Pow256(5) == 0x100_0000_0000 && Pow256(6) == 0x1_0000_0000_0000;
  }

  lemma IntRoundTrip(i: int32)
    ensures DecodeInt(EncodeInt(i)) == i
  {
    Pow256Of8();
    BigEndianRoundTrip(Unsigned32(i), 4);
  }

  lemma LongRoundTrip(l: int64)
    ensures DecodeLong(EncodeLong(l)) == l
  {
    Pow256Of8();
    BigEndianRoundTrip(Unsigned64(l), 8);
  }

  // ---------------------------------------------------------------------
  // Serializing
  // ---------------------------------------------------------------------

  function EncodeBool(i: int32): seq<byte> {
    [if i == 0 then 0 else 1]
  }

  /** Buffers and strings: a length, -1 standing for NULL, and that many bytes. */
  function EncodeBytes(data: Option<seq<byte>>): seq<byte>
    requires data.Some? ==> |data.value| < 0x8000_0000
  {
    match data
    case None => EncodeInt(-1)
    case Some(d) => EncodeInt(|d| as int32) + d
  }

  function Encode(s: Schema, v: Value): seq<byte>
    requires Conforms(s, v)
    decreases s, 0, 0
  {
    match s
    case TBool => EncodeBool(v.flag)
    case TInt => EncodeInt(v.i)
    case TLong => EncodeLong(v.l)
    case TBuffer => EncodeBytes(v.data)
    case TString => EncodeBytes(v.chars)
    case TVector(e) => EncodeInt(v.count) + EncodeElems(e, v.elems)
    case TRecord(fs) => EncodeFields(fs, v.values)
  }

  function EncodeElems(e: Schema, vs: seq<Value>): seq<byte>
    requires ConformEach(e, vs)
    decreases e, 1, |vs|
  {
    if vs == [] then [] else Encode(e, vs[0]) + EncodeElems(e, vs[1..])
  }

  function EncodeFields(fs: seq<Schema>, vs: seq<Value>): seq<byte>
    requires ConformsAll(fs, vs)
    decreases fs, 1, 0
  {
    if fs == [] then [] else Encode(fs[0], vs[0]) + EncodeFields(fs[1..], vs[1..])
  }

  // ---------------------------------------------------------------------
  // Deserializing
  // ---------------------------------------------------------------------

  /** A deserializer's return code, what it stored, and the bytes it left unread. */
  datatype Parsed<+T> = Parsed(rc: int, value: T, rest: seq<byte>)

  function ReadInt(b: seq<byte>): Parsed<int32> {
    if |b| < 4 then Parsed(-E2BIG, 0, b) else Parsed(0, DecodeInt(b[..4]), b[4..])
  }

  function ReadLong(b: seq<byte>): Parsed<int64> {
    if |b| < 8 then Parsed(-E2BIG, 0, b) else Parsed(0, DecodeLong(b[..8]), b[8..])
  }

  /** `*v = priv->buffer[priv->off]` sign-extends a plain `char`. */
  function ReadBool(b: seq<byte>): Parsed<int32> {
    if |b| < 1 then Parsed(-E2BIG, 0, b)
    else Parsed(0, (if b[0] >= 128 then b[0] as int - 256 else b[0] as int) as int32, b[1..])
  }

  function ReadBuffer(b: seq<byte>): Parsed<Option<seq<byte>>> {
    var n := ReadInt(b);
    if n.rc < 0 then Parsed(n.rc, None, n.rest)
    else if |n.rest| < n.value as int then Parsed(-E2BIG, None, n.rest)
    else if n.value == -1 then Parsed(0, None, n.rest)
    else if n.value < 0 then Parsed(-ENOMEM, None, n.rest)
    else Parsed(0, Some(n.rest[..n.value]), n.rest[n.value..])
  }

  function ReadString(b: seq<byte>): Parsed<Option<seq<byte>>> {
    var n := ReadInt(b);
    if n.rc < 0 then Parsed(n.rc, None, n.rest)
    else if |n.rest| < n.value as int then Parsed(-E2BIG, None, n.rest)
    else if n.value < 0 then Parsed(-EINVAL, None, n.rest)
    else Parsed(0, Some(n.rest[..n.value]), n.rest[n.value..])
  }

  function Decode(s: Schema, b: seq<byte>): Parsed<Value>
    decreases s, 0, 0
  {
    match s
    case TBool => var r := ReadBool(b); Parsed(r.rc, if r.rc == 0 then Bool(r.value) else Unset, r.rest)
    case TInt => var r := ReadInt(b); Parsed(r.rc, if r.rc == 0 then Int(r.value) else Unset, r.rest)
    case TLong => var r := ReadLong(b); Parsed(r.rc, if r.rc == 0 then Long(r.value) else Unset, r.rest)
    case TBuffer => var r := ReadBuffer(b); Parsed(r.rc, if r.rc == 0 then Buffer(r.value) else Unset, r.rest)
    case TString => var r := ReadString(b); Parsed(r.rc, if r.rc == 0 then Str(r.value) else Unset, r.rest)
    case TVector(e) =>
      // end_vector's code replaces whatever the elements reported
      var n := ReadInt(b);
      if n.rc != 0 then Parsed(0, Unset, n.rest)
      else
        var r := DecodeElems(e, VectorLength(b), n.rest);
        Parsed(0, Vector(n.value, r.value), r.rest)
    case TRecord(fs) =>
      var r := DecodeFields(fs, b);
      Parsed(r.rc, Record(r.value), r.rest)
  }

  function Unsets(n: nat): (vs: seq<Value>)
    ensures |vs| == n
  {
    if n == 0 then [] else [Unset] + Unsets(n - 1)
  }

  /** The vector loop: after a failed element the remaining ones keep their zeroed storage. */
  function DecodeElems(e: Schema, n: nat, b: seq<byte>): (p: Parsed<seq<Value>>)
    ensures |p.value| == n
    decreases e, 1, n
  {
    if n == 0 then Parsed(0, [], b)
    else
      var first := Decode(e, b);
      if first.rc != 0 then Parsed(first.rc, [first.value] + Unsets(n - 1), first.rest)
      else
        var others := DecodeElems(e, n - 1, first.rest);
        Parsed(others.rc, [first.value] + others.value, others.rest)
  }

  /** A record's fields, each skipped once one has failed. */
  function DecodeFields(fs: seq<Schema>, b: seq<byte>): (p: Parsed<seq<Value>>)
    ensures |p.value| == |fs|
    decreases fs, 1, 0
  {
    if fs == [] then Parsed(0, [], b)
    else
      var first := Decode(fs[0], b);
      if first.rc != 0 then Parsed(first.rc, [first.value] + Unsets(|fs| - 1), first.rest)
      else
        var others := DecodeFields(fs[1..], first.rest);
        Parsed(others.rc, [first.value] + others.value, others.rest)
  }

  // ---------------------------------------------------------------------
  // Round trip
  // ---------------------------------------------------------------------

  /** What a value becomes on the wire: booleans are 0 or 1. */
  function Normal(v: Value): Value {
    match v
    case Bool(i) => Bool(if i == 0 then 0 else 1)
    case Vector(n, vs) => Vector(n, seq(|vs|, i requires 0 <= i < |vs| => Normal(vs[i])))
    case Record(vs) => Record(seq(|vs|, i requires 0 <= i < |vs| => Normal(vs[i])))
    case _ => v
  }

  /** No NULL string anywhere in the value. */
  predicate NoNullString(v: Value) {
    match v
    case Str(s) => s.Some?
    case Vector(_, vs) => forall i :: 0 <= i < |vs| ==> NoNullString(vs[i])
    case Record(vs) => forall i :: 0 <= i < |vs| ==> NoNullString(vs[i])
    case _ => true
  }

  function Normals(vs: seq<Value>): (r: seq<Value>)
    ensures |r| == |vs| && forall i :: 0 <= i < |vs| ==> r[i] == Normal(vs[i])
  {
    seq(|vs|, i requires 0 <= i < |vs| => Normal(vs[i]))
  }

  lemma NormalsCons(vs: seq<Value>)
    requires vs != []
    ensures Normals(vs) == [Normal(vs[0])] + Normals(vs[1..])
  {
    assert forall i :: 1 <= i < |vs| ==> vs[i] == vs[1..][i - 1];
  }

  lemma ReadIntAfterEncode(i: int32, tail: seq<byte>)
    ensures ReadInt(EncodeInt(i) + tail) == Parsed(0, i, tail)
  {
    IntRoundTrip(i);
    assert (EncodeInt(i) + tail)[..4] == EncodeInt(i);
  }

  lemma ReadLongAfterEncode(l: int64, tail: seq<byte>)
    ensures ReadLong(EncodeLong(l) + tail) == Parsed(0, l, tail)
  {
    LongRoundTrip(l);
    assert (EncodeLong(l) + tail)[..8] == EncodeLong(l);
  }

  lemma ReadBytesAfterEncode(data: Option<seq<byte>>, tail: seq<byte>)
    requires data.Some? ==> |data.value| < 0x8000_0000
    ensures ReadBuffer(EncodeBytes(data) + tail) == Parsed(0, data, tail)
    ensures data.Some? ==> ReadString(EncodeBytes(data) + tail) == Parsed(0, data, tail)
    ensures data.None? ==> ReadString(EncodeBytes(data) + tail) == Parsed(-EINVAL, None, tail)
  {
    match data
    case None => ReadIntAfterEncode(-1, tail);
    case Some(d) =>
      ReadIntAfterEncode(|d| as int32, d + tail);
      assert EncodeBytes(data) + tail == EncodeInt(|d| as int32) + (d + tail);
      assert (d + tail)[..|d|] == d;
  }

  /**
    * Deserializing a serialized value gives the value back, booleans normalised, and stops
    * exactly at its last byte, whatever follows: for every schema, however nested.
    */
  lemma {:induction false} RoundTrip(s: Schema, v: Value, tail: seq<byte>)
    requires Conforms(s, v) && NoNullString(v)
    ensures Decode(s, Encode(s, v) + tail) == Parsed(0, Normal(v), tail)
    decreases s, 0, 0
  {
    match s
    case TBool =>
    case TInt => ReadIntAfterEncode(v.i, tail);
    case TLong => ReadLongAfterEncode(v.l, tail);
    case TBuffer => ReadBytesAfterEncode(v.data, tail);
    case TString => ReadBytesAfterEncode(v.chars, tail);
    case TVector(e) =>
      RoundTripElems(e, v.elems, tail);
      VectorRoundTrip(e, v.count, v.elems, tail);
    case TRecord(fs) =>
      RoundTripFields(fs, v.values, tail);
      assert Normal(v) == Record(Normals(v.values));
  }

  /** A vector comes back if its elements do. */
  lemma VectorRoundTrip(e: Schema, count: int32, elems: seq<Value>, tail: seq<byte>)
    requires Conforms(TVector(e), Vector(count, elems))
    requires DecodeElems(e, |elems|, EncodeElems(e, elems) + tail) == Parsed(0, Normals(elems), tail)
    ensures var v := Vector(count, elems); Decode(TVector(e), Encode(TVector(e), v) + tail) == Parsed(0, Normal(v), tail)
  {
    var v, more := Vector(count, elems), EncodeElems(e, elems) + tail;
    ReadIntAfterEncode(count, more);
    Assoc(EncodeInt(count), EncodeElems(e, elems), tail);
    assert Encode(TVector(e), v) + tail == EncodeInt(count) + more;
    assert VectorLength(EncodeInt(count) + more) == |elems|;
    assert Normal(v) == Vector(count, Normals(elems));
  }

  lemma {:induction false} RoundTripElems(e: Schema, vs: seq<Value>, tail: seq<byte>)
    requires ConformEach(e, vs) && forall i :: 0 <= i < |vs| ==> NoNullString(vs[i])
    ensures DecodeElems(e, |vs|, EncodeElems(e, vs) + tail) == Parsed(0, Normals(vs), tail)
    decreases e, 1, |vs|
  {
    if vs == [] {
      assert EncodeElems(e, vs) + tail == tail;
    } else {
      var more := EncodeElems(e, vs[1..]) + tail;
      assert EncodeElems(e, vs) + tail == Encode(e, vs[0]) + more;
      RoundTrip(e, vs[0], more);
      RoundTripElems(e, vs[1..], tail);
      NormalsCons(vs);
    }
  }

  lemma {:induction false} RoundTripFields(fs: seq<Schema>, vs: seq<Value>, tail: seq<byte>)
    requires ConformsAll(fs, vs) && forall i :: 0 <= i < |vs| ==> NoNullString(vs[i])
    ensures DecodeFields(fs, EncodeFields(fs, vs) + tail) == Parsed(0, Normals(vs), tail)
    decreases fs, 1, 0
  {
    if fs == [] {
      assert EncodeFields(fs, vs) + tail == tail;
    } else {
      var more := EncodeFields(fs[1..], vs[1..]) + tail;
      assert EncodeFields(fs, vs) + tail == Encode(fs[0], vs[0]) + more;
      RoundTrip(fs[0], vs[0], more);
      RoundTripFields(fs[1..], vs[1..], tail);
      NormalsCons(vs);
    }
  }

  // ---------------------------------------------------------------------
  // Where the round trip stops, and the converse
  // ---------------------------------------------------------------------

  lemma {:induction false} DecodeYieldsNoNullString(s: Schema, b: seq<byte>)
    ensures NoNullString(Decode(s, b).value)
    decreases s, 0, 0
  {
    match s
    case TVector(e) =>
      ElemsHoldNoNullString(e, VectorLength(b), ReadInt(b).rest);
    case TRecord(fs) => FieldsHoldNoNullString(fs, b);
    case _ =>
  }

  lemma {:induction false} ElemsHoldNoNullString(e: Schema, n: nat, b: seq<byte>)
    ensures forall v :: v in DecodeElems(e, n, b).value ==> NoNullString(v)
    decreases e, 1, n
  {
    if n > 0 {
      DecodeYieldsNoNullString(e, b);
      UnsetsAreUnset(n - 1);
      ElemsHoldNoNullString(e, n - 1, Decode(e, b).rest);
    }
  }

  lemma {:induction false} UnsetsAreUnset(n: nat)
    ensures forall v :: v in Unsets(n) ==> v == Unset
  {
    if n > 0 {
      UnsetsAreUnset(n - 1);
    }
  }

  lemma {:induction false} FieldsHoldNoNullString(fs: seq<Schema>, b: seq<byte>)
    ensures forall v :: v in DecodeFields(fs, b).value ==> NoNullString(v)
    decreases fs, 1, 0
  {
    if fs != [] {
      DecodeYieldsNoNullString(fs[0], b);
      UnsetsAreUnset(|fs| - 1);
      FieldsHoldNoNullString(fs[1..], Decode(fs[0], b).rest);
    }
  }

  lemma {:induction false} NormalKeepsNullStrings(v: Value)
    ensures NoNullString(Normal(v)) <==> NoNullString(v)
  {
    match v
    case Vector(n, vs) =>
      forall i | 0 <= i < |vs| ensures NoNullString(Normals(vs)[i]) <==> NoNullString(vs[i]) { NormalKeepsNullStrings(vs[i]); }
      assert Normal(v) == Vector(n, Normals(vs));
    case Record(vs) =>
      forall i | 0 <= i < |vs| ensures NoNullString(Normals(vs)[i]) <==> NoNullString(vs[i]) { NormalKeepsNullStrings(vs[i]); }
      assert Normal(v) == Record(Normals(vs));
    case _ =>
  }

  /** A NULL string is written as length -1 and refused when read: it alone breaks the round trip. */
  lemma RoundTripIffNoNullString(s: Schema, v: Value, tail: seq<byte>)
    requires Conforms(s, v)
    ensures Decode(s, Encode(s, v) + tail) == Parsed(0, Normal(v), tail) <==> NoNullString(v)
  {
    if NoNullString(v) {
      RoundTrip(s, v, tail);
    } else {
      DecodeYieldsNoNullString(s, Encode(s, v) + tail);
      NormalKeepsNullStrings(v);
    }
  }

  /** No encoding is a proper prefix of another one of the same schema. */
  lemma PrefixFree(s: Schema, v: Value, w: Value)
    requires Conforms(s, v) && NoNullString(v) && Conforms(s, w) && NoNullString(w)
    requires Encode(s, v) <= Encode(s, w)
    ensures Encode(s, v) == Encode(s, w) && Normal(v) == Normal(w)
  {
    var tail := Encode(s, w)[|Encode(s, v)|..];
    assert Encode(s, w) == Encode(s, v) + tail;
    assert Encode(s, w) == Encode(s, w) + [];
    RoundTrip(s, v, tail);
    RoundTrip(s, w, []);
  }

  /** Every part of the value was read, booleans are 0 or 1, and no string ends before its length. */
  predicate Canonical(v: Value) {
    match v
    case Unset => false
    case Bool(i) => i == 0 || i == 1
    case Str(s) => s.None? || NoNul(s.value)
    case Vector(_, vs) => AllCanonical(vs)
    case Record(vs) => AllCanonical(vs)
    case _ => true
  }

  predicate AllCanonical(vs: seq<Value>) {
    forall i :: 0 <= i < |vs| ==> Canonical(vs[i])
  }

  lemma {:induction false} FromBigEndianInjective(b: seq<byte>)
    ensures BigEndian(FromBigEndian(b), |b|) == b
  {
    if b != [] {
      FromBigEndianInjective(b[..|b| - 1]);
      var x, d := FromBigEndian(b[..|b| - 1]), b[|b| - 1] as nat;
      assert (x * 256 + d) / 256 == x && (x * 256 + d) % 256 == d;
      assert b == b[..|b| - 1] + [b[|b| - 1]];
    }
  }

  lemma ReadIntIsEncoded(b: seq<byte>)
    ensures ReadInt(b).rc == 0 ==> b == EncodeInt(ReadInt(b).value) + ReadInt(b).rest
  {
    if |b| >= 4 {
      var head := b[..4];
      FromBigEndianInjective(head);
      FromBigEndianBound(head);
      Pow256Of8();
      assert EncodeInt(DecodeInt(head)) == head;
      assert b == head + b[4..];
    }
  }

  lemma ReadLongIsEncoded(b: seq<byte>)
    ensures ReadLong(b).rc == 0 ==> b == EncodeLong(ReadLong(b).value) + ReadLong(b).rest
  {
    if |b| >= 8 {
      var head := b[..8];
      FromBigEndianInjective(head);
      FromBigEndianBound(head);
      Pow256Of8();
      assert EncodeLong(DecodeLong(head)) == head;
      assert b == head + b[8..];
    }
  }

  lemma ReadBytesIsEncoded(b: seq<byte>, data: Option<seq<byte>>, rest: seq<byte>)
    requires ReadBuffer(b) == Parsed(0, data, rest) || ReadString(b) == Parsed(0, data, rest)
    ensures data.Some? ==> |data.value| < 0x8000_0000
    ensures b == EncodeBytes(data) + rest
  {
    ReadIntIsEncoded(b);
    var n := ReadInt(b);
    assert n.rest == (if data.Some? then data.value else []) + rest;
  }

  /**
    * A deserializer that reached every field and met only 0/1 booleans has reported success
    * and has read exactly the encoding of what it stored.
    */
  lemma {:induction false} DecodedIsEncoded(s: Schema, b: seq<byte>)
    requires Canonical(Decode(s, b).value)
    ensures var r := Decode(s, b);
            r.rc == 0 && Conforms(s, r.value) && b == Encode(s, r.value) + r.rest
    decreases s, 0, 0
  {
    var r := Decode(s, b);
    match s
    case TBool => assert b == [b[0]] + b[1..];
    case TInt => ReadIntIsEncoded(b);
    case TLong => ReadLongIsEncoded(b);
    case TBuffer => ReadBytesIsEncoded(b, r.value.data, r.rest);
    case TString => ReadBytesIsEncoded(b, r.value.chars, r.rest);
    case TVector(e) =>
      DecodedElemsAreEncoded(e, VectorLength(b), ReadInt(b).rest);
      VectorIsEncoded(e, b, r.value.elems, r.rest);
    case TRecord(fs) =>
      DecodedFieldsAreEncoded(fs, b);
  }

  /** The number of elements the vector loop will try to read. */
  function VectorLength(b: seq<byte>): nat {
    var n := ReadInt(b).value;
    if n < 0 then 0 else n as nat
  }

  lemma VectorIsEncoded(e: Schema, b: seq<byte>, elems: seq<Value>, rest: seq<byte>)
    requires ReadInt(b).rc == 0 && |elems| == VectorLength(b) && ConformEach(e, elems)
    requires ReadInt(b).rest == EncodeElems(e, elems) + rest
    ensures b == Encode(TVector(e), Vector(ReadInt(b).value, elems)) + rest
  {
    ReadIntIsEncoded(b);
    assert b == EncodeInt(ReadInt(b).value) + (EncodeElems(e, elems) + rest);
  }

  lemma {:induction false} DecodedElemsAreEncoded(e: Schema, n: nat, b: seq<byte>)
    requires AllCanonical(DecodeElems(e, n, b).value)
    ensures var r := DecodeElems(e, n, b);
            ConformEach(e, r.value) && b == EncodeElems(e, r.value) + r.rest
    decreases e, 1, n
  {
    if n > 0 {
      var first, vs := Decode(e, b), DecodeElems(e, n, b).value;
      assert vs[0] == first.value;
      DecodedIsEncoded(e, b);
      var others := DecodeElems(e, n - 1, first.rest);
      assert vs == [first.value] + others.value && vs[1..] == others.value;
      TailCanonical(vs);
      DecodedElemsAreEncoded(e, n - 1, first.rest);
      EncodeElemsCons(e, first.value, others.value, others.rest);
    }
  }

  lemma {:induction false} DecodedFieldsAreEncoded(fs: seq<Schema>, b: seq<byte>)
    requires AllCanonical(DecodeFields(fs, b).value)
    ensures var r := DecodeFields(fs, b);
            r.rc == 0 && ConformsAll(fs, r.value) && b == EncodeFields(fs, r.value) + r.rest
    decreases fs, 1, 0
  {
    if fs != [] {
      var first, vs := Decode(fs[0], b), DecodeFields(fs, b).value;
      assert vs[0] == first.value;
      DecodedIsEncoded(fs[0], b);
      var others := DecodeFields(fs[1..], first.rest);
      assert vs == [first.value] + others.value && vs[1..] == others.value;
      TailCanonical(vs);
      DecodedFieldsAreEncoded(fs[1..], first.rest);
      assert b == Encode(fs[0], first.value) + (EncodeFields(fs[1..], others.value) + others.rest);
    }
  }

  lemma EncodeElemsCons(e: Schema, v: Value, vs: seq<Value>, rest: seq<byte>)
    requires Conforms(e, v) && ConformEach(e, vs)
    ensures ConformEach(e, [v] + vs)
    ensures EncodeElems(e, [v] + vs) + rest == Encode(e, v) + (EncodeElems(e, vs) + rest)
  {
    assert ([v] + vs)[1..] == vs;
  }

  lemma TailCanonical(vs: seq<Value>)
    requires vs != [] && AllCanonical(vs)
    ensures AllCanonical(vs[1..])
  {
    forall i | 0 <= i < |vs| - 1 ensures Canonical(vs[1..][i]) { assert vs[1..][i] == vs[i + 1]; }
  }

  /** What goes out normalised comes back canonical. */
  lemma {:induction false} NormalIsCanonical(s: Schema, v: Value)
    requires Conforms(s, v)
    ensures Canonical(Normal(v))
    decreases s, 0
  {
    match s
    case TVector(e) =>
      forall i | 0 <= i < |v.elems| ensures Canonical(Normals(v.elems)[i]) { NormalIsCanonical(e, v.elems[i]); }
      assert Normal(v) == Vector(v.count, Normals(v.elems));
    case TRecord(fs) =>
      NormalFieldsAreCanonical(fs, v.values);
      assert Normal(v) == Record(Normals(v.values));
    case _ =>
  }

  lemma {:induction false} NormalFieldsAreCanonical(fs: seq<Schema>, vs: seq<Value>)
    requires ConformsAll(fs, vs)
    ensures AllCanonical(Normals(vs))
    decreases fs, 1
  {
    if fs != [] {
      NormalIsCanonical(fs[0], vs[0]);
      NormalFieldsAreCanonical(fs[1..], vs[1..]);
      NormalsCons(vs);
    }
  }

  /** The inputs that decode to a canonical value are exactly those that start with an encoding. */
  lemma DecodesCanonicallyIffEncoding(s: Schema, b: seq<byte>)
    ensures Canonical(Decode(s, b).value) <==>
            exists v, rest: seq<byte> :: Conforms(s, v) && NoNullString(v) && b == Encode(s, v) + rest
  {
    var r := Decode(s, b);
    if Canonical(r.value) {
      DecodedIsEncoded(s, b);
      DecodeYieldsNoNullString(s, b);
    }
    forall v, rest: seq<byte> | Conforms(s, v) && NoNullString(v) && b == Encode(s, v) + rest
      ensures Canonical(r.value)
    {
      RoundTrip(s, v, rest);
      NormalIsCanonical(s, v);
    }
  }

  // ---------------------------------------------------------------------
  // Strings with a NUL inside
  // ---------------------------------------------------------------------

  /** `strlen`: the stored bytes count up to the first NUL. */
  function StrLen(s: seq<byte>): (n: nat)
    ensures n <= |s| && NoNul(s[..n]) && (n < |s| ==> s[n] == 0)
  {
    if s == [] || s[0] == 0 then 0
    else
      var n := StrLen(s[1..]) + 1;
      assert s[..n] == [s[0]] + s[1..][..n - 1];
      n
  }

  lemma StrLenWhole(s: seq<byte>)
    ensures StrLen(s) == |s| <==> NoNul(s)
  {
    if StrLen(s) == |s| {
      assert s[..|s|] == s;
    }
  }

  /**
    * Writing back a string that was read gives the bytes it was read from if and only if no
    * byte of it is NUL.
    */
  lemma RewrittenStringIffNoNul(b: seq<byte>)
    requires Decode(TString, b).rc == 0
    ensures var r := Decode(TString, b);
            && r.value.Str? && r.value.chars.Some?
            && var s := r.value.chars.value;
            |s| < 0x8000_0000 && (b == EncodeBytes(Some(s[..StrLen(s)])) + r.rest <==> NoNul(s))
  {
    var r := Decode(TString, b);
    var s := r.value.chars.value;
    ReadBytesIsEncoded(b, Some(s), r.rest);
    StrLenWhole(s);
    if NoNul(s) {
      assert s[..StrLen(s)] == s;
    } else {
      assert |EncodeBytes(Some(s[..StrLen(s)]))| < |EncodeBytes(Some(s))|;
    }
  }

  /** One NUL byte, announced as a string of length one, is read without error and is no encoding. */
  lemma NulStringIsNoEncoding()
    ensures var b := EncodeInt(1) + [0];
            && Decode(TString, b) == Parsed(0, Str(Some([0])), [])
            && !(exists v, rest: seq<byte> :: Conforms(TString, v) && NoNullString(v) && b == Encode(TString, v) + rest)
  {
    var b: seq<byte> := EncodeInt(1) + [0];
    ReadIntAfterEncode(1, [0]);
    var one: seq<byte> := [0];
    assert one[..1] == one && one[1..] == [];
    assert 0 in one;
    DecodesCanonicallyIffEncoding(TString, b);
  }

  /** A vector deserializer reports success although its only element was refused. */
  lemma VectorSwallowsElementError()
    ensures Decode(TVector(TString), EncodeInt(1) + EncodeInt(-1)) == Parsed(0, Vector(1, [Unset]), [])
  {
    ReadIntAfterEncode(1, EncodeInt(-1));
    ReadIntAfterEncode(-1, []);
    assert EncodeInt(-1) + [] == EncodeInt(-1);
    assert Decode(TString, EncodeInt(-1)) == Parsed(-EINVAL, Unset, []);
    assert DecodeElems(TString, 1, EncodeInt(-1)).value == [Unset];
  }

  // ---------------------------------------------------------------------
  // When a deserializer's code can be trusted
  // ---------------------------------------------------------------------

  /** Nothing in the value was left unread. */
  predicate Complete(v: Value) {
    match v
    case Unset => false
    case Vector(_, vs) => forall i :: 0 <= i < |vs| ==> Complete(vs[i])
    case Record(vs) => forall i :: 0 <= i < |vs| ==> Complete(vs[i])
    case _ => true
  }

  predicate AllComplete(vs: seq<Value>) {
    forall i :: 0 <= i < |vs| ==> Complete(vs[i])
  }

  /** The schema has no vector at any depth. */
  predicate VectorFree(s: Schema) {
    match s
    case TVector(_) => false
    case TRecord(fs) => forall i :: 0 <= i < |fs| ==> VectorFree(fs[i])
    case _ => true
  }

  /** The first error that any part of the value met, whether or not it was passed on. */
  function FirstFailure(s: Schema, b: seq<byte>): int
    decreases s, 0, 0
  {
    match s
    case TVector(e) => if ReadInt(b).rc != 0 then ReadInt(b).rc else FirstFailureOfElems(e, VectorLength(b), ReadInt(b).rest)
    case TRecord(fs) => FirstFailureOfFields(fs, b)
    case _ => Decode(s, b).rc
  }

  function FirstFailureOfElems(e: Schema, n: nat, b: seq<byte>): int
    decreases e, 1, n
  {
    if n == 0 then 0
    else if FirstFailure(e, b) != 0 then FirstFailure(e, b)
    else FirstFailureOfElems(e, n - 1, Decode(e, b).rest)
  }

  function FirstFailureOfFields(fs: seq<Schema>, b: seq<byte>): int
    decreases fs, 1, 0
  {
    if fs == [] then 0
    else if FirstFailure(fs[0], b) != 0 then FirstFailure(fs[0], b)
    else FirstFailureOfFields(fs[1..], Decode(fs[0], b).rest)
  }

  lemma AllCompleteCons(v: Value, vs: seq<Value>)
    ensures AllComplete([v] + vs) <==> Complete(v) && AllComplete(vs)
  {
    var all := [v] + vs;
    assert all[0] == v;
    assert forall i :: 0 <= i < |vs| ==> vs[i] == all[i + 1];
    assert forall i :: 1 <= i < |all| ==> all[i] == vs[i - 1];
  }

  /**
    * For every schema and every input, the value is complete exactly when no part met an error,
    * and then the code is 0 as well; but the code may be 0 without it.
    */
  lemma {:induction false} CompleteIffNoError(s: Schema, b: seq<byte>)
    ensures Complete(Decode(s, b).value) <==> FirstFailure(s, b) == 0
    ensures FirstFailure(s, b) == 0 ==> Decode(s, b).rc == 0
    decreases s, 0, 0
  {
    match s
    case TVector(e) =>
      if ReadInt(b).rc == 0 {
        ElemsCompleteIffNoError(e, VectorLength(b), ReadInt(b).rest);
      }
    case TRecord(fs) => FieldsCompleteIffNoError(fs, b);
    case _ =>
  }

  lemma {:induction false} ElemsCompleteIffNoError(e: Schema, n: nat, b: seq<byte>)
    ensures AllComplete(DecodeElems(e, n, b).value) <==> FirstFailureOfElems(e, n, b) == 0
    ensures FirstFailureOfElems(e, n, b) == 0 ==> DecodeElems(e, n, b).rc == 0
    decreases e, 1, n
  {
    if n > 0 {
      var first := Decode(e, b);
      CompleteIffNoError(e, b);
      ElemsCompleteIffNoError(e, n - 1, first.rest);
      AllCompleteCons(first.value, if first.rc != 0 then Unsets(n - 1) else DecodeElems(e, n - 1, first.rest).value);
    }
  }

  lemma {:induction false} FieldsCompleteIffNoError(fs: seq<Schema>, b: seq<byte>)
    ensures AllComplete(DecodeFields(fs, b).value) <==> FirstFailureOfFields(fs, b) == 0
    ensures FirstFailureOfFields(fs, b) == 0 ==> DecodeFields(fs, b).rc == 0
    decreases fs, 1, 0
  {
    if fs != [] {
      var first := Decode(fs[0], b);
      CompleteIffNoError(fs[0], b);
      FieldsCompleteIffNoError(fs[1..], first.rest);
      AllCompleteCons(first.value, if first.rc != 0 then Unsets(|fs| - 1) else DecodeFields(fs[1..], first.rest).value);
    }
  }

  /** Without vectors the code is the first error. */
  lemma {:induction false} CodeIsFirstFailure(s: Schema, b: seq<byte>)
    requires VectorFree(s)
    ensures Decode(s, b).rc == FirstFailure(s, b)
    decreases s, 0
  {
    if s.TRecord? {
      FieldsCodeIsFirstFailure(s.fields, b);
    }
  }

  lemma {:induction false} FieldsCodeIsFirstFailure(fs: seq<Schema>, b: seq<byte>)
    requires forall i :: 0 <= i < |fs| ==> VectorFree(fs[i])
    ensures DecodeFields(fs, b).rc == FirstFailureOfFields(fs, b)
    decreases fs, 1
  {
    if fs != [] {
      CodeIsFirstFailure(fs[0], b);
      FieldsCodeIsFirstFailure(fs[1..], Decode(fs[0], b).rest);
    }
  }

  lemma {:induction false} ElemsCodeIsFirstFailure(e: Schema, n: nat, b: seq<byte>)
    requires VectorFree(e)
    ensures DecodeElems(e, n, b).rc == FirstFailureOfElems(e, n, b)
  {
    if n > 0 {
      CodeIsFirstFailure(e, b);
      ElemsCodeIsFirstFailure(e, n - 1, Decode(e, b).rest);
    }
  }

  /** A schema without vectors can be trusted: code 0 means that everything was read. */
  lemma VectorFreeCodeIsTrusted(s: Schema, b: seq<byte>)
    requires VectorFree(s)
    ensures Decode(s, b).rc == 0 <==> Complete(Decode(s, b).value)
  {
    CodeIsFirstFailure(s, b);
    CompleteIffNoError(s, b);
  }

  /**
    * A vector's code says nothing: it is always 0, and the vector is complete exactly when its
    * count was there and the loop over the elements ended without an error.
    */
  lemma VectorCodeSaysNothing(e: Schema, b: seq<byte>)
    ensures Decode(TVector(e), b).rc == 0
    ensures VectorFree(e) ==>
              (Complete(Decode(TVector(e), b).value) <==>
               ReadInt(b).rc == 0 && DecodeElems(e, VectorLength(b), ReadInt(b).rest).rc == 0)
  {
    CompleteIffNoError(TVector(e), b);
    if VectorFree(e) {
      ElemsCodeIsFirstFailure(e, VectorLength(b), ReadInt(b).rest);
    }
  }

  // ---------------------------------------------------------------------
  // What stands where on the wire
  // ---------------------------------------------------------------------

  /** A length as its four bytes. */
  function LengthBytes(n: nat): (b: seq<byte>)
    requires n < 0x8000_0000
    ensures |b| == 4
  {
    [(n / 0x100_0000) as byte, (n / 0x1_0000 % 256) as byte, (n / 0x100 % 256) as byte, (n % 256) as byte]
  }

  /** A boolean is one byte; a buffer or string its length and its bytes, or four bytes 255 for NULL. */
  lemma ScalarLayout(s: Schema, v: Value)
    requires Conforms(s, v)
    ensures s.TBool? ==> Encode(s, v) == [if v.flag == 0 then 0 else 1]
    ensures s.TBuffer? ==> Encode(s, v) == if v.data.None? then [255, 255, 255, 255] else LengthBytes(|v.data.value|) + v.data.value
    ensures s.TString? ==> Encode(s, v) == if v.chars.None? then [255, 255, 255, 255] else LengthBytes(|v.chars.value|) + v.chars.value
    ensures s.TVector? && v.count >= 0 ==> Encode(s, v)[..4] == LengthBytes(|v.elems|)
  {
    IntIsBigEndian(-1);
    assert EncodeInt(-1) == [255, 255, 255, 255];
    if s.TBuffer? && v.data.Some? {
      LengthIsBigEndian(|v.data.value|);
    }
    if s.TString? && v.chars.Some? {
      LengthIsBigEndian(|v.chars.value|);
    }
    if s.TVector? && v.count >= 0 {
      LengthIsBigEndian(|v.elems|);
    }
  }

  lemma LengthIsBigEndian(n: nat)
    requires n < 0x8000_0000
    ensures EncodeInt(n as int32) == LengthBytes(n)
  {
    IntIsBigEndian(n as int32);
    assert Unsigned32(n as int32) == n;
  }

  /** Each field stands right behind those before it and right before those after it. */
  lemma {:induction false} FieldStands(fs: seq<Schema>, vs: seq<Value>, i: nat)
    requires ConformsAll(fs, vs) && i < |fs|
    ensures ConformsAll(fs[..i], vs[..i]) && Conforms(fs[i], vs[i]) && ConformsAll(fs[i + 1..], vs[i + 1..])
    ensures EncodeFields(fs, vs) == EncodeFields(fs[..i], vs[..i]) + Encode(fs[i], vs[i]) + EncodeFields(fs[i + 1..], vs[i + 1..])
  {
    if i > 0 {
      var gs, ws := fs[1..], vs[1..];
      FieldStands(gs, ws, i - 1);
      assert gs[..i - 1] == fs[..i][1..] && ws[..i - 1] == vs[..i][1..];
      assert gs[i..] == fs[i + 1..] && ws[i..] == vs[i + 1..];
      assert EncodeFields(fs[..i], vs[..i]) == Encode(fs[0], vs[0]) + EncodeFields(gs[..i - 1], ws[..i - 1]);
      Assoc(Encode(fs[0], vs[0]), EncodeFields(gs[..i - 1], ws[..i - 1]), Encode(fs[i], vs[i]));
      Assoc(Encode(fs[0], vs[0]), EncodeFields(gs[..i - 1], ws[..i - 1]) + Encode(fs[i], vs[i]), EncodeFields(gs[i..], ws[i..]));
    } else {
      assert fs[..0] == [] && vs[..0] == [];
    }
  }

  /** So does each element of a vector. */
  lemma {:induction false} ElementStands(e: Schema, vs: seq<Value>, i: nat)
    requires ConformEach(e, vs) && i < |vs|
    ensures EncodeElems(e, vs) == EncodeElems(e, vs[..i]) + Encode(e, vs[i]) + EncodeElems(e, vs[i + 1..])
  {
    if i == 0 {
      assert vs[..0] == [];
    } else {
      var first, ws := Encode(e, vs[0]), vs[1..];
      ElementStands(e, ws, i - 1);
      assert ws[i - 1] == vs[i] && ws[i..] == vs[i + 1..];
      FrontElement(e, vs, i);
      Assoc(first, EncodeElems(e, ws[..i - 1]), Encode(e, vs[i]));
      Assoc(first, EncodeElems(e, ws[..i - 1]) + Encode(e, vs[i]), EncodeElems(e, ws[i..]));
    }
  }

  lemma FrontElement(e: Schema, vs: seq<Value>, i: nat)
    requires ConformEach(e, vs) && 0 < i <= |vs|
    ensures EncodeElems(e, vs[..i]) == Encode(e, vs[0]) + EncodeElems(e, vs[1..][..i - 1])
  {
    assert vs[..i][0] == vs[0] && vs[..i][1..] == vs[1..][..i - 1];
  }

  // ---------------------------------------------------------------------
  // Errors by their cause
  // ---------------------------------------------------------------------

  /** The number in the first four bytes, as a signed integer. */
  function Announced(b: seq<byte>): int
    requires |b| >= 4
  {
    DecodeInt(b[..4]) as int
  }

  /** Too little input is -7 (E2BIG). */
  lemma FixedSizeErrors(b: seq<byte>)
    ensures Decode(TBool, b).rc == if |b| < 1 then -7 else 0
    ensures Decode(TInt, b).rc == if |b| < 4 then -7 else 0
    ensures Decode(TLong, b).rc == if |b| < 8 then -7 else 0
  {
  }

  /** So it is for a string, whose length must not be negative: that is -22 (EINVAL). */
  lemma StringErrors(b: seq<byte>)
    ensures Decode(TString, b).rc ==
            if |b| < 4 then -7 else if Announced(b) < 0 then -22 else if Announced(b) > |b| - 4 then -7 else 0
  {
    assert Decode(TString, b).rc == ReadString(b).rc;
  }

  /** A buffer of length -1 is NULL; any other negative length is -12 (ENOMEM). */
  lemma BufferErrors(b: seq<byte>)
    ensures Decode(TBuffer, b).rc ==
            if |b| < 4 then -7 else if Announced(b) < -1 then -12 else if Announced(b) > |b| - 4 then -7 else 0
    ensures |b| >= 4 && Announced(b) == -1 ==> Decode(TBuffer, b).value == Buffer(None)
  {
    assert Decode(TBuffer, b).rc == ReadBuffer(b).rc;
  }

  lemma PrefixOfSum(a: seq<byte>, b: seq<byte>, k: nat)
    requires k <= |a| + |b|
    ensures (a + b)[..k] == if k <= |a| then a[..k] else a + b[..k - |a|]
  {
  }

  lemma TruncatedBytes(data: seq<byte>, k: nat)
    requires |data| < 0x8000_0000 && k < 4 + |data|
    ensures var b := EncodeBytes(Some(data))[..k]; ReadBuffer(b).rc == -7 && ReadString(b).rc == -7
  {
    var n := EncodeInt(|data| as int32);
    PrefixOfSum(n, data, k);
    if k > 4 {
      ReadIntAfterEncode(|data| as int32, data[..k - 4]);
    } else if k == 4 {
      ReadIntAfterEncode(|data| as int32, []);
      assert n + [] == n && n[..4] == n;
    }
  }

  /** Where there are no vectors, an encoding cut short anywhere is refused as too little input. */
  lemma {:induction false} TruncatedIsRefused(s: Schema, v: Value, k: nat)
    requires VectorFree(s) && Conforms(s, v) && NoNullString(v) && k < |Encode(s, v)|
    ensures Decode(s, Encode(s, v)[..k]).rc == -7
    decreases s, 0
  {
    match s
    case TBuffer => if v.data.Some? { TruncatedBytes(v.data.value, k); }
    case TString => TruncatedBytes(v.chars.value, k);
    case TRecord(fs) => TruncatedFields(fs, v.values, k);
    case _ =>
  }

  lemma {:induction false} TruncatedFields(fs: seq<Schema>, vs: seq<Value>, k: nat)
    requires (forall i :: 0 <= i < |fs| ==> VectorFree(fs[i])) && ConformsAll(fs, vs)
    requires (forall i :: 0 <= i < |vs| ==> NoNullString(vs[i])) && k < |EncodeFields(fs, vs)|
    ensures DecodeFields(fs, EncodeFields(fs, vs)[..k]).rc == -7
    decreases fs, 1
  {
    var first, rest := Encode(fs[0], vs[0]), EncodeFields(fs[1..], vs[1..]);
    PrefixOfSum(first, rest, k);
    if k < |first| {
      TruncatedIsRefused(fs[0], vs[0], k);
    } else {
      assert (first + rest)[..k] == first + rest[..k - |first|];
      RoundTrip(fs[0], vs[0], rest[..k - |first|]);
      TruncatedFields(fs[1..], vs[1..], k - |first|);
    }
  }
}
