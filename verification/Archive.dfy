/**
  * The archives of recordio.c: an output buffer that doubles as it fills, and an input buffer
  * with a read offset. Lengths and offsets are 32-bit, so overflow is a proof obligation.
  */
module Archive {
  import opened Common
  import opened Jute

  /** Up to this many bytes of output the 32-bit capacity cannot overflow. */
  const MAX_OUTPUT: int := 0x2000_0000

  /** 128 doubled any number of times. */
  predicate IsCapacity(n: int) {
    n == 128 || (n > 128 && n % 2 == 0 && IsCapacity(n / 2))
  }

  class OArchive {
    var len: int32
    var off: int32
    var buffer: array<byte>

    ghost predicate Valid()
      reads this
    {
      && 0 <= off <= len && buffer.Length == len as int
      && IsCapacity(len as int)
      && (len == 128 || len as int <= 4 * off as int)
    }

    /** The bytes written so far. */
    ghost function Contents(): seq<byte>
      requires Valid()
      reads this, buffer
    {
      buffer[..off]
    }

    constructor ()
      ensures Valid() && fresh(buffer) && Contents() == []
    {
      off := 0;
      buffer := new byte[128];
      len := 128;
    }

    /** Doubles the capacity until it reaches newlen and moves the bytes over. */
    method ResizeBuffer(newlen: int32)
      requires Valid() && len <= newlen <= 0x4000_0000
      modifies this`len, this`buffer
      ensures len as int == buffer.Length && IsCapacity(len as int)
      ensures newlen <= len && (len == old(len) || len as int < 2 * newlen as int)
      ensures fresh(buffer) && buffer[..old(len)] == old(buffer[..])
    {
      while len < newlen
        invariant IsCapacity(len as int) && len >= old(len) && buffer == old(buffer)
        invariant len == old(len) || len as int < 2 * newlen as int
      {
        assert (len as int * 2) / 2 == len as int && (len as int * 2) % 2 == 0;
        len := len * 2;
      }
      var moved := new byte[len];
      var source := buffer;
      forall i | 0 <= i < source.Length {
        moved[i] := source[i];
      }
      buffer := moved;
    }

    /** The shape shared by every `oa_serialize_*`: make room for the bytes, copy, advance. */
    method Put(bytes: seq<byte>) returns (rc: int)
      requires Valid() && off as int + |bytes| <= MAX_OUTPUT
      modifies this, buffer
      ensures rc == 0 && Valid() && (buffer == old(buffer) || fresh(buffer))
      ensures Contents() == old(Contents()) + bytes
      ensures buffer == old(buffer) ==> len == old(len)
    {
      var n := |bytes| as int32;
      if len - off < n {
        ResizeBuffer(len + n);
      }
      forall i | 0 <= i < |bytes| {
        buffer[off as int + i] := bytes[i];
      }
      off := off + n;
      rc := 0;
      assert buffer[..off] == old(buffer[..off]) + bytes;
    }

    method SerializeInt(d: int32) returns (rc: int)
      requires Valid() && off as int + 4 <= MAX_OUTPUT
      modifies this, buffer
      ensures rc == 0 && Valid() && (buffer == old(buffer) || fresh(buffer))
      ensures Contents() == old(Contents()) + EncodeInt(d)
    {
      rc := Put(EncodeInt(d));
    }

    method SerializeLong(d: int64) returns (rc: int)
      requires Valid() && off as int + 8 <= MAX_OUTPUT
      modifies this, buffer
      ensures rc == 0 && Valid() && (buffer == old(buffer) || fresh(buffer))
      ensures Contents() == old(Contents()) + EncodeLong(d)
    {
      rc := Put(EncodeLong(d));
    }

    method SerializeBool(i: int32) returns (rc: int)
      requires Valid() && off as int + 1 <= MAX_OUTPUT
      modifies this, buffer
      ensures rc == 0 && Valid() && (buffer == old(buffer) || fresh(buffer))
      ensures Contents() == old(Contents()) + EncodeBool(i)
    {
      rc := Put([if i == 0 then 0 else 1]);
    }

    method SerializeBytes(data: Option<seq<byte>>) returns (rc: int)
      requires data.Some? ==> |data.value| < 0x8000_0000
      requires Valid() && off as int + |EncodeBytes(data)| <= MAX_OUTPUT
      modifies this, buffer
      ensures rc == 0 && Valid() && (buffer == old(buffer) || fresh(buffer))
      ensures Contents() == old(Contents()) + EncodeBytes(data)
    {
      if data.None? {
        rc := SerializeInt(-1);
        return;
      }
      ghost var before := Contents();
      rc := SerializeInt(|data.value| as int32);
      rc := Put(data.value);
      Assoc(before, EncodeInt(|data.value| as int32), data.value);
    }

    /** The stored bytes up to the first NUL, whatever lies behind it. */
    method SerializeString(data: Option<seq<byte>>) returns (rc: int)
      requires data.Some? ==> |data.value| < 0x8000_0000
      requires Valid() && off as int + |EncodeBytes(Terminated(data))| <= MAX_OUTPUT
      modifies this, buffer
      ensures rc == 0 && Valid() && (buffer == old(buffer) || fresh(buffer))
      ensures Contents() == old(Contents()) + EncodeBytes(Terminated(data))
      ensures data.Some? && NoNul(data.value) ==> Contents() == old(Contents()) + EncodeBytes(data)
    {
      TerminatedWhole(data);
      rc := SerializeBytes(Terminated(data));
    }
  }

  /** A C string as its readers see it. */
  function Terminated(data: Option<seq<byte>>): (r: Option<seq<byte>>)
    ensures data.Some? ==> r.Some? && |r.value| <= |data.value|
    ensures data.None? ==> r.None?
  {
    if data.None? then None else Some(data.value[..StrLen(data.value)])
  }

  lemma TerminatedWhole(data: Option<seq<byte>>)
    ensures data.Some? && NoNul(data.value) ==> Terminated(data) == data
  {
    if data.Some? {
      StrLenWhole(data.value);
      assert data.value[..|data.value|] == data.value;
    }
  }

  class IArchive {
    const buffer: seq<byte>
    var off: nat

    ghost predicate Valid()
      reads this
    {
      off <= |buffer|
    }

    /** The bytes not read yet. */
    function Remaining(): seq<byte>
      requires Valid()
      reads this
    {
      buffer[off..]
    }

    constructor (bytes: seq<byte>)
      ensures Valid() && Remaining() == bytes
    {
      buffer := bytes;
      off := 0;
    }

    method DeserializeInt() returns (rc: int, v: int32)
      requires Valid()
      modifies this
      ensures Valid() && Parsed(rc, v, Remaining()) == ReadInt(old(Remaining()))
    {
      if |buffer| - off < 4 {
        return -E2BIG, 0;
      }
      v := DecodeInt(buffer[off..off + 4]);
      assert buffer[off..off + 4] == Remaining()[..4];
      off := off + 4;
      rc := 0;
    }

    method DeserializeLong() returns (rc: int, v: int64)
      requires Valid()
      modifies this
      ensures Valid() && Parsed(rc, v, Remaining()) == ReadLong(old(Remaining()))
    {
      if |buffer| - off < 8 {
        return -E2BIG, 0;
      }
      v := DecodeLong(buffer[off..off + 8]);
      assert buffer[off..off + 8] == Remaining()[..8];
      off := off + 8;
      rc := 0;
    }

    method DeserializeBool() returns (rc: int, v: int32)
      requires Valid()
      modifies this
      ensures Valid() && Parsed(rc, v, Remaining()) == ReadBool(old(Remaining()))
    {
      if |buffer| - off < 1 {
        return -E2BIG, 0;
      }
      var c := buffer[off];
      v := (if c >= 128 then c as int - 256 else c as int) as int32;
      off := off + 1;
      rc := 0;
    }

    method DeserializeBuffer() returns (rc: int, b: Option<seq<byte>>)
      requires Valid()
      modifies this
      ensures Valid() && Parsed(rc, b, Remaining()) == ReadBuffer(old(Remaining()))
    {
      b := None;
      var n;
      rc, n := DeserializeInt();
      if rc < 0 {
        return;
      }
      if |buffer| - off < n as int {
        return -E2BIG, None;
      }
      if n == -1 {
        return;
      }
      if n < 0 {
        return -ENOMEM, None;
      }
      b := Some(buffer[off..off + n as int]);
      assert buffer[off..off + n as int] == Remaining()[..n];
      off := off + n as int;
    }

    method DeserializeString() returns (rc: int, s: Option<seq<byte>>)
      requires Valid()
      modifies this
      ensures Valid() && Parsed(rc, s, Remaining()) == ReadString(old(Remaining()))
    {
      s := None;
      var n;
      rc, n := DeserializeInt();
      if rc < 0 {
        return;
      }
      if |buffer| - off < n as int {
        return -E2BIG, None;
      }
      if n < 0 {
        return -EINVAL, None;
      }
      s := Some(buffer[off..off + n as int]);
      assert buffer[off..off + n as int] == Remaining()[..n];
      off := off + n as int;
    }
  }

  // ---------------------------------------------------------------------
  // Byte order
  // ---------------------------------------------------------------------

  function Reversed(s: seq<byte>): (r: seq<byte>)
    ensures |r| == |s| && forall i :: 0 <= i < |s| ==> r[i] == s[|s| - 1 - i]
  {
    seq(|s|, i requires 0 <= i < |s| => s[|s| - 1 - i])
  }

  /** The byte of a long that has the given power of 256. */
  function Digit(l: int64, power: nat): byte {
    Pow256Positive(power);
    (Unsigned64(l) / Pow256(power) % 256) as byte
  }

  /** How the host keeps a 64-bit integer in memory: the highest or the lowest byte first. */
  function HostBytes(l: int64, bigEndianHost: bool): (b: seq<byte>)
    ensures |b| == 8 && forall k :: 0 <= k < 8 ==> b[k] == Digit(l, if bigEndianHost then 7 - k else k)
  {
    seq(8, k requires 0 <= k < 8 => Digit(l, if bigEndianHost then 7 - k else k))
  }

  lemma NetworkOrder(l: int64)
    ensures EncodeLong(l) == HostBytes(l, true) && Reversed(EncodeLong(l)) == HostBytes(l, false)
  {
    forall k | 0 <= k < 8 ensures EncodeLong(l)[k] == Digit(l, 7 - k) {
      LongIsBigEndian(l, k);
    }
  }

  /** The swap leaves the network order in memory on either kind of host, and undoes itself. */
  method ZooHtonll(s: array<byte>, bigEndianHost: bool)
    requires s.Length == 8
    modifies s
    ensures s[..] == if bigEndianHost then old(s[..]) else Reversed(old(s[..]))
    ensures forall l :: old(s[..]) == HostBytes(l, bigEndianHost) ==> s[..] == EncodeLong(l)
    ensures forall l :: old(s[..]) == EncodeLong(l) ==> s[..] == HostBytes(l, bigEndianHost)
  {
    forall l ensures EncodeLong(l) == HostBytes(l, true) && Reversed(EncodeLong(l)) == HostBytes(l, false) {
      NetworkOrder(l);
    }
    if bigEndianHost {
      return;
    }
    var i := 0;
    while i < 4
      invariant 0 <= i <= 4
      invariant forall k :: 0 <= k < i ==> s[k] == old(s[7 - k]) && s[7 - k] == old(s[k])
      invariant forall k :: i <= k < 8 - i ==> s[k] == old(s[k])
    {
      var tmp := s[i];
      s[i] := s[8 - i - 1];
      s[8 - i - 1] := tmp;
      i := i + 1;
    }
    assert s[..] == Reversed(old(s[..]));
    assert Reversed(s[..]) == old(s[..]);
  }
}
