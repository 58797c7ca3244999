/** The reading side of a packet wrapper: a client version and a shared
    buffer, both fixed at construction, and typed reads that advance the
    buffer's reader index. */
module Wrapper {
  import opened Wire
  import opened Versions
  import opened Buffers
  import Utf8

  /** The character limit of `readString()` without an argument. */
  const DEFAULT_MAX_STRING_LENGTH: int32 := 32767

  datatype StringError = BadPrefix | EncodedTooLong | NegativeLength | Truncated | TooManyChars

  /** Outcome of a string read; `next` is where the reader index stands
      afterwards (on a failure: where the exception was raised). */
  datatype StringRead = StringOk(value: string, next: nat) | StringFailed(error: StringError, next: nat)

  /** The limit on the encoded byte length, computed in 32-bit arithmetic
      as the source does. */
  function EncodedLimit(maxLen: int32): int32 {
    Wrap32(maxLen * 4)
  }

  /** readString(maxLen): a varint byte length, checked against
      `4 * maxLen` and against zero before any payload byte is taken, then
      the payload decoded as UTF-8 and its length in UTF-16 units checked
      against `maxLen`. */
  function ReadStringAt(s: seq<byte>, pos: nat, maxLen: int32): (r: StringRead)
    requires pos <= |s|
    ensures pos <= r.next <= |s|
    ensures r.StringOk? ==> Utf16Length(r.value) <= maxLen && pos < r.next
  {
    match ReadVarInt(s, pos)
    case None => StringFailed(BadPrefix, pos)
    case Some((j, p)) =>
      if j > EncodedLimit(maxLen) then StringFailed(EncodedTooLong, p)
      else if j < 0 then StringFailed(NegativeLength, p)
      else if p + j > |s| then StringFailed(Truncated, p)
      else
        var str := Utf8.Decode(s[p..p + j]);
        if Utf8.Utf16Length(str) > maxLen then StringFailed(TooManyChars, p + j)
        else StringOk(str, p + j)
  }

  function Utf16Length(s: string): nat {
    Utf8.Utf16Length(s)
  }

  /** The matching writer: varint byte length, then the UTF-8 bytes. */
  function EncodeString(str: string): (r: seq<byte>)
    requires |Utf8.Encode(str)| < TWO_31
    ensures |r| > |Utf8.Encode(str)|
  {
    EncodeVarInt(|Utf8.Encode(str)|) + Utf8.Encode(str)
  }

  /** A length prefix above the byte limit, or a negative one, fails with
      the reader index just past the prefix: no payload byte is consumed. */
  lemma LengthCheckedBeforePayload(s: seq<byte>, pos: nat, maxLen: int32, j: int32, p: nat)
    requires pos <= |s| && ReadVarInt(s, pos) == Some((j, p))
    requires j > EncodedLimit(maxLen) || j < 0
    ensures ReadStringAt(s, pos, maxLen).StringFailed?
    ensures ReadStringAt(s, pos, maxLen).next == p
    ensures ReadStringAt(s, pos, maxLen).error in {EncodedTooLong, NegativeLength}
  {
  }

  /** A successful read consumed exactly the prefix and the `j` bytes it
      announced, and returned their decoding. */
  lemma SuccessConsumesPrefixAndPayload(s: seq<byte>, pos: nat, maxLen: int32)
    requires pos <= |s| && ReadStringAt(s, pos, maxLen).StringOk?
    ensures ReadVarInt(s, pos).Some?
    ensures var (j, p) := ReadVarInt(s, pos).value;
      0 <= j <= EncodedLimit(maxLen) && ReadStringAt(s, pos, maxLen).next == p + j
      && ReadStringAt(s, pos, maxLen).value == Utf8.Decode(s[p..p + j])
  {
  }

  /** Below 2^29 characters the 32-bit product does not overflow. */
  lemma EncodedLimitExact(maxLen: int32)
    requires 0 <= maxLen < 0x2000_0000
    ensures EncodedLimit(maxLen) == maxLen * 4
  {
    assert 0 <= maxLen * 4 < TWO_31;
    assert (maxLen * 4) % TWO_32 == maxLen * 4;
  }

  /** A string read that passes every check returns the decoded payload. */
  lemma ReadStringAccepts(s: seq<byte>, pos: nat, maxLen: int32, j: int32, p: nat, str: string)
    requires pos <= |s| && ReadVarInt(s, pos) == Some((j, p))
    requires 0 <= j <= EncodedLimit(maxLen) && p + j <= |s|
    requires Utf8.Decode(s[p..p + j]) == str && Utf16Length(str) <= maxLen
    ensures ReadStringAt(s, pos, maxLen) == StringOk(str, p + j)
  {
  }

  /** A written string's prefix reads back as its byte count. */
  lemma ReadEncodeStringPrefix(s: seq<byte>, pos: nat, str: string)
    requires |Utf8.Encode(str)| < TWO_31 && Placed(s, pos, EncodeString(str))
    ensures ReadVarInt(s, pos) == Some((|Utf8.Encode(str)| as int32, pos + |EncodeVarInt(|Utf8.Encode(str)|)|))
  {
    PlacedSplit(s, pos, EncodeVarInt(|Utf8.Encode(str)|), Utf8.Encode(str));
    ReadEncodeVarInt(s, pos, |Utf8.Encode(str)|);
  }

  /** A written string's payload decodes back to the string. */
  lemma ReadEncodeStringPayload(s: seq<byte>, pos: nat, str: string, p: nat, j: nat)
    requires |Utf8.Encode(str)| < TWO_31 && Placed(s, pos, EncodeString(str))
    requires p == pos + |EncodeVarInt(|Utf8.Encode(str)|)| && j == |Utf8.Encode(str)|
    ensures p + j <= |s| && Utf8.Decode(s[p..p + j]) == str
  {
    PlacedSplit(s, pos, EncodeVarInt(|Utf8.Encode(str)|), Utf8.Encode(str));
    PlacedSlice(s, p, Utf8.Encode(str));
    Utf8.DecodeEncode(str);
  }

  /** Read-after-write: a string within the character limit reads back
      unchanged and the reader index lands right after it. */
  lemma ReadEncodeString(s: seq<byte>, pos: nat, str: string, maxLen: int32)
    requires 0 <= maxLen < 0x2000_0000 && Utf16Length(str) <= maxLen
    requires Placed(s, pos, EncodeString(str))
    ensures ReadStringAt(s, pos, maxLen) == StringOk(str, pos + |EncodeString(str)|)
  {
    var j := |Utf8.Encode(str)|;
    var p := pos + |EncodeVarInt(j)|;
    ReadEncodeStringPrefix(s, pos, str);
    ReadEncodeStringPayload(s, pos, str, p, j);
    Utf8.EncodedLengthBound(str);
    EncodedLimitExact(maxLen);
    ReadStringAccepts(s, pos, maxLen, j as int32, p, str);
  }

  /** Value part of a read result. */
  function Value<T>(o: Option<(T, nat)>): Option<T> {
    match o case None => None case Some((v, _)) => Some(v)
  }

  class PacketWrapper {
    const version: ClientVersion
    const byteBuf: ByteBuf

    constructor (version: ClientVersion, byteBuf: ByteBuf)
      ensures this.version == version && this.byteBuf == byteBuf
    {
      this.version := version;
      this.byteBuf := byteBuf;
    }

    /** A wrapper bound to no known version. */
    static method CreateUniversalPacketWrapper(byteBuf: ByteBuf) returns (w: PacketWrapper)
      ensures fresh(w) && w.version == UNKNOWN && w.byteBuf == byteBuf
    {
      w := new PacketWrapper(UNKNOWN, byteBuf);
    }

    method ReadByte() returns (r: Option<int8>)
      requires byteBuf.Valid()
      modifies byteBuf`readerIndex
      ensures byteBuf.Valid()
      ensures r == Value(Wire.ReadByte(byteBuf.bytes, old(byteBuf.readerIndex)))
      ensures byteBuf.readerIndex == old(byteBuf.readerIndex) + (if r.Some? then 1 else 0)
    {
      var res := Wire.ReadByte(byteBuf.bytes, byteBuf.readerIndex);
      r := None;
      if res.Some? {
        r := Some(res.value.0);
        byteBuf.readerIndex := res.value.1;
      }
    }

    method ReadInt() returns (r: Option<int32>)
      requires byteBuf.Valid()
      modifies byteBuf`readerIndex
      ensures byteBuf.Valid()
      ensures r == Value(Wire.ReadInt(byteBuf.bytes, old(byteBuf.readerIndex)))
      ensures byteBuf.readerIndex == old(byteBuf.readerIndex) + (if r.Some? then 4 else 0)
    {
      var res := Wire.ReadInt(byteBuf.bytes, byteBuf.readerIndex);
      r := None;
      if res.Some? {
        r := Some(res.value.0);
        byteBuf.readerIndex := res.value.1;
      }
    }

    method ReadVarInt() returns (r: Option<int32>)
      requires byteBuf.Valid()
      modifies byteBuf`readerIndex
      ensures byteBuf.Valid()
      ensures r == Value(Wire.ReadVarInt(byteBuf.bytes, old(byteBuf.readerIndex)))
      ensures r.Some? ==> byteBuf.readerIndex == Wire.ReadVarInt(byteBuf.bytes, old(byteBuf.readerIndex)).value.1
      ensures r.None? ==> byteBuf.readerIndex == old(byteBuf.readerIndex)
    {
      var res := Wire.ReadVarInt(byteBuf.bytes, byteBuf.readerIndex);
      r := None;
      if res.Some? {
        r := Some(res.value.0);
        byteBuf.readerIndex := res.value.1;
      }
    }

    method ReadUnsignedShort() returns (r: Option<nat>)
      requires byteBuf.Valid()
      modifies byteBuf`readerIndex
      ensures byteBuf.Valid()
      ensures r == Value(Wire.ReadUnsignedShort(byteBuf.bytes, old(byteBuf.readerIndex)))
      ensures byteBuf.readerIndex == old(byteBuf.readerIndex) + (if r.Some? then 2 else 0)
    {
      var res := Wire.ReadUnsignedShort(byteBuf.bytes, byteBuf.readerIndex);
      r := None;
      if res.Some? {
        r := Some(res.value.0);
        byteBuf.readerIndex := res.value.1;
      }
    }

    method ReadShort() returns (r: Option<int16>)
      requires byteBuf.Valid()
      modifies byteBuf`readerIndex
      ensures byteBuf.Valid()
      ensures r == Value(Wire.ReadShort(byteBuf.bytes, old(byteBuf.readerIndex)))
      ensures byteBuf.readerIndex == old(byteBuf.readerIndex) + (if r.Some? then 2 else 0)
    {
      var res := Wire.ReadShort(byteBuf.bytes, byteBuf.readerIndex);
      r := None;
      if res.Some? {
        r := Some(res.value.0);
        byteBuf.readerIndex := res.value.1;
      }
    }

    method ReadLong() returns (r: Option<int64>)
      requires byteBuf.Valid()
      modifies byteBuf`readerIndex
      ensures byteBuf.Valid()
      ensures r == Value(Wire.ReadLong(byteBuf.bytes, old(byteBuf.readerIndex)))
      ensures byteBuf.readerIndex == old(byteBuf.readerIndex) + (if r.Some? then 8 else 0)
    {
      var res := Wire.ReadLong(byteBuf.bytes, byteBuf.readerIndex);
      r := None;
      if res.Some? {
        r := Some(res.value.0);
        byteBuf.readerIndex := res.value.1;
      }
    }

    method ReadBoolean() returns (r: Option<bool>)
      requires byteBuf.Valid()
      modifies byteBuf`readerIndex
      ensures byteBuf.Valid()
      ensures r == Value(Wire.ReadBoolean(byteBuf.bytes, old(byteBuf.readerIndex)))
      ensures byteBuf.readerIndex == old(byteBuf.readerIndex) + (if r.Some? then 1 else 0)
    {
      var res := Wire.ReadBoolean(byteBuf.bytes, byteBuf.readerIndex);
      r := None;
      if res.Some? {
        r := Some(res.value.0);
        byteBuf.readerIndex := res.value.1;
      }
    }

    /** readString(maxLen), step by step as the source does it. */
    method ReadString(maxLen: int32) returns (r: StringRead)
      requires byteBuf.Valid()
      modifies byteBuf`readerIndex
      ensures byteBuf.Valid()
      ensures r == ReadStringAt(byteBuf.bytes, old(byteBuf.readerIndex), maxLen)
      ensures byteBuf.readerIndex == r.next
    {
      var start := byteBuf.readerIndex;
      var j := ReadVarInt();
      if j.None? {
        return StringFailed(BadPrefix, start);
      }
      var p := byteBuf.readerIndex;
      if j.value > EncodedLimit(maxLen) {
        return StringFailed(EncodedTooLong, p);
      }
      if j.value < 0 {
        return StringFailed(NegativeLength, p);
      }
      if |byteBuf.bytes| - p < j.value {
        return StringFailed(Truncated, p);
      }
      var payload := byteBuf.bytes[p..p + j.value];
      byteBuf.readerIndex := p + j.value;
      var s := Utf8.Decode(payload);
      if Utf8.Utf16Length(s) > maxLen {
        return StringFailed(TooManyChars, byteBuf.readerIndex);
      }
      return StringOk(s, byteBuf.readerIndex);
    }

    /** readString() is readString(32767). */
    method ReadStringDefault() returns (r: StringRead)
      requires byteBuf.Valid()
      modifies byteBuf`readerIndex
      ensures byteBuf.Valid()
      ensures r == ReadStringAt(byteBuf.bytes, old(byteBuf.readerIndex), DEFAULT_MAX_STRING_LENGTH)
      ensures byteBuf.readerIndex == r.next
    {
      r := ReadString(DEFAULT_MAX_STRING_LENGTH);
    }

    /** readByteArray(length): a fresh array of exactly `length` bytes taken
        from the reader index, which moves past them. A negative length or
        too few readable bytes is an error. */
    method ReadByteArray(length: int32) returns (r: Option<array<byte>>)
      requires byteBuf.Valid()
      modifies byteBuf`readerIndex
      ensures byteBuf.Valid()
      ensures r.Some? <==> 0 <= length && old(byteBuf.readerIndex) + length <= |byteBuf.bytes|
      ensures r.Some? ==> (fresh(r.value)
        && r.value[..] == byteBuf.bytes[old(byteBuf.readerIndex)..old(byteBuf.readerIndex) + length]
        && byteBuf.readerIndex == old(byteBuf.readerIndex) + length)
      ensures r.None? ==> byteBuf.readerIndex == old(byteBuf.readerIndex)
    {
      if length < 0 {
        return None;
      }
      var ret := new byte[length];
      var start := byteBuf.readerIndex;
      if |byteBuf.bytes| - start < length {
        return None;
      }
      var i := 0;
      while i < length
        invariant 0 <= i <= length
        invariant ret[..i] == byteBuf.bytes[start..start + i]
      {
        ret[i] := byteBuf.bytes[start + i];
        i := i + 1;
      }
      byteBuf.readerIndex := start + length;
      r := Some(ret);
    }

    /** readUUID: the most significant long, then the least significant. */
    method ReadUUID() returns (r: Option<UUID>)
      requires byteBuf.Valid()
      modifies byteBuf`readerIndex
      ensures byteBuf.Valid()
      ensures r == Value(Wire.ReadUUID(byteBuf.bytes, old(byteBuf.readerIndex)))
      ensures r.Some? ==> byteBuf.readerIndex == old(byteBuf.readerIndex) + 16
    {
      var msb := ReadLong();
      if msb.None? {
        return None;
      }
      var lsb := ReadLong();
      if lsb.None? {
        return None;
      }
      r := Some(UUID(msb.value, lsb.value));
    }
  }
}
