/** Wire-level values shared by every packet codec: bytes, the Java integer
    widths, fixed-width big-endian numbers, variable-length integers and
    UUIDs. A decoder reads a byte sequence at a cursor position and returns
    the value together with the position after it, or None when the bytes
    are missing or malformed. */
module Wire {

  newtype byte = b: int | 0 <= b < 256

  datatype Option<+T> = None | Some(value: T)

  const TWO_7: int := 0x80
  const TWO_15: int := 0x8000
  const TWO_31: int := 0x8000_0000
  const TWO_32: int := 0x1_0000_0000
  const TWO_63: int := 0x8000_0000_0000_0000
  const TWO_64: int := 0x1_0000_0000_0000_0000

  /** Java's signed integer types. */
  type int8 = x: int | -TWO_7 <= x < TWO_7
  type int16 = x: int | -TWO_15 <= x < TWO_15
  type int32 = x: int | -TWO_31 <= x < TWO_31
  type int64 = x: int | -TWO_63 <= x < TWO_63

  /** IEEE-754 values are kept opaque: only their raw bit patterns travel. */
  type F32 = x: int | 0 <= x < TWO_32
  type F64 = x: int | 0 <= x < TWO_64

  /** Two's-complement reading of a signed 32-bit value, and back. */
  function ToUnsigned32(x: int32): (u: nat)
    ensures u < TWO_32
    ensures ToSigned32(u) == x
  {
    if x < 0 then x + TWO_32 else x
  }

  function ToSigned32(u: nat): (x: int32)
    requires u < TWO_32
  {
    if u >= TWO_31 then u - TWO_32 else u
  }

  /** Truncation of any integer to its low 32 bits, read as signed (Java's
      `(int)` cast and int overflow). */
  function Wrap32(x: int): (r: int32)
    ensures (r - x) % TWO_32 == 0
  {
    ToSigned32(x % TWO_32)
  }

  // ---------------------------------------------------------------------
  // ---------------------------------------------------------------------
  // Placement of encoded bytes inside a buffer

  /** The position just past `e` written at `pos`. */
  function After(pos: nat, e: seq<byte>): nat {
    pos + |e|
  }

  /** Appending in two steps appends the concatenation. */
  lemma AppendAssoc(a: seq<byte>, b: seq<byte>, c: seq<byte>)
    ensures (a + b) + c == a + (b + c)
  {
  }

  /** The `i`th byte of `e`. Placed below speaks of bytes through it so that
      its quantifier is only instantiated where a proof names a byte. */
  function ByteAt(e: seq<byte>, i: nat): byte
    requires i < |e|
  {
    e[i]
  }

  /** `e` sits in `s` starting at `pos`. */
  predicate Placed(s: seq<byte>, pos: nat, e: seq<byte>) {
    pos + |e| <= |s| && forall i: nat {:trigger ByteAt(e, i)} :: i < |e| ==> s[pos + i] == ByteAt(e, i)
  }

  /** The bytes at `pos` are `e` itself. */
  lemma PlacedSlice(s: seq<byte>, pos: nat, e: seq<byte>)
    requires Placed(s, pos, e)
    ensures pos + |e| <= |s| && s[pos..pos + |e|] == e
  {
    var t := s[pos..pos + |e|];
    forall i | 0 <= i < |e|
      ensures t[i] == e[i]
    {
      assert ByteAt(e, i) == e[i];
    }
  }

  /** Whatever sits at `pos` as `a + b` has `a` at `pos` and `b` right after. */
  lemma PlacedSplit(s: seq<byte>, pos: nat, a: seq<byte>, b: seq<byte>)
    requires Placed(s, pos, a + b)
    ensures Placed(s, pos, a) && Placed(s, After(pos, a), b)
  {
    forall i: nat | i < |a|
      ensures s[pos + i] == ByteAt(a, i)
    {
      assert ByteAt(a + b, i) == ByteAt(a, i);
    }
    forall i: nat | i < |b|
      ensures s[pos + |a| + i] == ByteAt(b, i)
    {
      assert ByteAt(a + b, |a| + i) == ByteAt(b, i);
    }
  }

  lemma PlacedSplit3(s: seq<byte>, pos: nat, a: seq<byte>, b: seq<byte>, c: seq<byte>)
    requires Placed(s, pos, a + b + c)
    ensures Placed(s, pos, a) && Placed(s, After(pos, a), b) && Placed(s, After(After(pos, a), b), c)
  {
    PlacedSplit(s, pos, a + b, c);
    PlacedSplit(s, pos, a, b);
  }

  lemma PlacedSplit4(s: seq<byte>, pos: nat, a: seq<byte>, b: seq<byte>, c: seq<byte>, d: seq<byte>)
    requires Placed(s, pos, a + b + c + d)
    ensures Placed(s, pos, a) && Placed(s, After(pos, a), b)
    ensures Placed(s, After(After(pos, a), b), c) && Placed(s, After(After(After(pos, a), b), c), d)
  {
    PlacedSplit(s, pos, a + b + c, d);
    PlacedSplit3(s, pos, a, b, c);
  }

  // ---------------------------------------------------------------------
  // Fixed-width big-endian numbers (Netty's ByteBuf is big-endian).

  function Pow256(n: nat): (r: nat)
    ensures r > 0
  {
    if n == 0 then 1 else 256 * Pow256(n - 1)
  }

  /** The low `width` bytes of `v`, most significant first. */
  function EncodeBE(v: nat, width: nat): (r: seq<byte>)
    ensures |r| == width
  {
    if width == 0 then [] else EncodeBE(v / 256, width - 1) + [(v % 256) as byte]
  }

  /** The unsigned big-endian value of the `width` bytes at `pos`. */
  function DecodeBE(s: seq<byte>, pos: nat, width: nat): (u: nat)
    requires pos + width <= |s|
    ensures u < Pow256(width)
  {
    if width == 0 then 0 else DecodeBE(s, pos, width - 1) * 256 + s[pos + width - 1] as nat
  }

  lemma {:induction false} DecodeEncodeBE(s: seq<byte>, pos: nat, v: nat, width: nat)
    requires v < Pow256(width) && Placed(s, pos, EncodeBE(v, width))
    ensures DecodeBE(s, pos, width) == v
  {
    if width > 0 {
      var e := EncodeBE(v, width);
      PlacedSplit(s, pos, EncodeBE(v / 256, width - 1), [(v % 256) as byte]);
      assert s[pos + width - 1] == ByteAt([(v % 256) as byte], 0);
      DecodeEncodeBE(s, pos, v / 256, width - 1);
    }
  }

  lemma Pow256Values()
    ensures Pow256(1) == TWO_8 && Pow256(2) == TWO_16
    ensures Pow256(4) == TWO_32 && Pow256(8) == TWO_64
  {
    assert Pow256(2) == TWO_16;
    assert Pow256(4) == TWO_32;
    assert Pow256(8) == TWO_64 by {
      assert Pow256(8) == Pow256(4) * Pow256(4) by {
        assert Pow256(8) == 256 * 256 * 256 * 256 * Pow256(4);
      }
    }
  }

  const TWO_8: int := 0x100
  const TWO_16: int := 0x1_0000

  /** Two's complement on 8, 16 and 64 bits (32 bits is above). */
  function ToUnsigned(x: int, half: int): (u: nat)
    requires -half <= x < half
    ensures u < 2 * half
  {
    if x < 0 then x + 2 * half else x
  }

  function ToSigned(u: nat, half: int): (x: int)
    requires u < 2 * half
    ensures -half <= x < half
    ensures ToUnsigned(x, half) == u
  {
    if u >= half then u - 2 * half else u
  }

  // Java's primitive encodings.

  function EncodeByte(x: int8): (r: seq<byte>) ensures |r| == 1
  { EncodeBE(ToUnsigned(x, TWO_7), 1) }
  function EncodeShort(x: int16): (r: seq<byte>) ensures |r| == 2
  { EncodeBE(ToUnsigned(x, TWO_15), 2) }
  function EncodeInt(x: int32): (r: seq<byte>) ensures |r| == 4
  { EncodeBE(ToUnsigned32(x), 4) }
  function EncodeLong(x: int64): (r: seq<byte>) ensures |r| == 8
  { EncodeBE(ToUnsigned(x, TWO_63), 8) }
  function EncodeFloat(x: F32): (r: seq<byte>) ensures |r| == 4
  { EncodeBE(x, 4) }
  function EncodeDouble(x: F64): (r: seq<byte>) ensures |r| == 8
  { EncodeBE(x, 8) }
  function EncodeBoolean(b: bool): (r: seq<byte>) ensures |r| == 1
  { if b then [1] else [0] }

  function ReadByte(s: seq<byte>, pos: nat): (r: Option<(int8, nat)>)
    ensures r.Some? <==> pos < |s|
    ensures r.Some? ==> r.value.1 == pos + 1
  {
    if pos < |s| then Some((ToSigned(s[pos] as nat, TWO_7), pos + 1)) else None
  }

  function ReadShort(s: seq<byte>, pos: nat): (r: Option<(int16, nat)>)
    ensures r.Some? <==> pos + 2 <= |s|
    ensures r.Some? ==> r.value.1 == pos + 2
  {
    if pos + 2 <= |s| then Pow256Values(); Some((ToSigned(DecodeBE(s, pos, 2), TWO_15), pos + 2)) else None
  }

  /** Netty's readUnsignedShort. */
  function ReadUnsignedShort(s: seq<byte>, pos: nat): (r: Option<(nat, nat)>)
    ensures r.Some? <==> pos + 2 <= |s|
    ensures r.Some? ==> r.value.0 < TWO_16 && r.value.1 == pos + 2
  {
    if pos + 2 <= |s| then Pow256Values(); Some((DecodeBE(s, pos, 2), pos + 2)) else None
  }

  function ReadInt(s: seq<byte>, pos: nat): (r: Option<(int32, nat)>)
    ensures r.Some? <==> pos + 4 <= |s|
    ensures r.Some? ==> r.value.1 == pos + 4
  {
    if pos + 4 <= |s| then Pow256Values(); Some((ToSigned32(DecodeBE(s, pos, 4)), pos + 4)) else None
  }

  function ReadLong(s: seq<byte>, pos: nat): (r: Option<(int64, nat)>)
    ensures r.Some? <==> pos + 8 <= |s|
    ensures r.Some? ==> r.value.1 == pos + 8
  {
    if pos + 8 <= |s| then Pow256Values(); Some((ToSigned(DecodeBE(s, pos, 8), TWO_63), pos + 8)) else None
  }

  function ReadFloat(s: seq<byte>, pos: nat): (r: Option<(F32, nat)>)
    ensures r.Some? <==> pos + 4 <= |s|
    ensures r.Some? ==> r.value.1 == pos + 4
  {
    if pos + 4 <= |s| then Pow256Values(); Some((DecodeBE(s, pos, 4), pos + 4)) else None
  }

  function ReadDouble(s: seq<byte>, pos: nat): (r: Option<(F64, nat)>)
    ensures r.Some? <==> pos + 8 <= |s|
    ensures r.Some? ==> r.value.1 == pos + 8
  {
    if pos + 8 <= |s| then Pow256Values(); Some((DecodeBE(s, pos, 8), pos + 8)) else None
  }

  /** Netty's readBoolean: any non-zero byte is true. */
  function ReadBoolean(s: seq<byte>, pos: nat): (r: Option<(bool, nat)>)
    ensures r.Some? <==> pos < |s|
    ensures r.Some? ==> r.value == (s[pos] != 0, pos + 1)
  {
    if pos < |s| then Some((s[pos] != 0, pos + 1)) else None
  }

  lemma ReadEncodeByte(s: seq<byte>, pos: nat, x: int8)
    requires Placed(s, pos, EncodeByte(x))
    ensures ReadByte(s, pos) == Some((x, After(pos, EncodeByte(x))))
  {
    assert s[pos] == ByteAt(EncodeByte(x), 0);
  }

  lemma ReadEncodeShort(s: seq<byte>, pos: nat, x: int16)
    requires Placed(s, pos, EncodeShort(x))
    ensures ReadShort(s, pos) == Some((x, After(pos, EncodeShort(x))))
  { Pow256Values(); DecodeEncodeBE(s, pos, ToUnsigned(x, TWO_15), 2); }

  lemma ReadEncodeInt(s: seq<byte>, pos: nat, x: int32)
    requires Placed(s, pos, EncodeInt(x))
    ensures ReadInt(s, pos) == Some((x, After(pos, EncodeInt(x))))
  { Pow256Values(); DecodeEncodeBE(s, pos, ToUnsigned32(x), 4); }

  lemma ReadEncodeLong(s: seq<byte>, pos: nat, x: int64)
    requires Placed(s, pos, EncodeLong(x))
    ensures ReadLong(s, pos) == Some((x, After(pos, EncodeLong(x))))
  { Pow256Values(); DecodeEncodeBE(s, pos, ToUnsigned(x, TWO_63), 8); }

  lemma ReadEncodeFloat(s: seq<byte>, pos: nat, x: F32)
    requires Placed(s, pos, EncodeFloat(x))
    ensures ReadFloat(s, pos) == Some((x, After(pos, EncodeFloat(x))))
  { Pow256Values(); DecodeEncodeBE(s, pos, x, 4); }

  lemma ReadEncodeDouble(s: seq<byte>, pos: nat, x: F64)
    requires Placed(s, pos, EncodeDouble(x))
    ensures ReadDouble(s, pos) == Some((x, After(pos, EncodeDouble(x))))
  { Pow256Values(); DecodeEncodeBE(s, pos, x, 8); }

  /** The value 1 or 0 written by writeBoolean reads back. */
  lemma ReadEncodeBoolean(s: seq<byte>, pos: nat, b: bool)
    requires Placed(s, pos, EncodeBoolean(b))
    ensures ReadBoolean(s, pos) == Some((b, After(pos, EncodeBoolean(b))))
  {
    assert s[pos] == ByteAt(EncodeBoolean(b), 0);
  }

  // ---------------------------------------------------------------------
  // Variable-length integers: 7 bits per byte, least significant group
  // first, high bit set on every byte but the last, at most 5 groups.

  const VARINT_MAX_GROUPS: nat := 5

  function EncodeVarUInt(u: nat): (r: seq<byte>)
    ensures 1 <= |r|
    decreases u
  {
    if u < 128 then [u as byte] else [(128 + u % 128) as byte] + EncodeVarUInt(u / 128)
  }

  /** Reads at most `groups` groups; None when the buffer ends first or the
      last permitted group still carries the continuation bit. */
  function ReadVarUInt(s: seq<byte>, pos: nat, groups: nat): (r: Option<(nat, nat)>)
    ensures r.Some? ==> pos < r.value.1 <= pos + groups && r.value.1 <= |s|
    decreases groups
  {
    if groups == 0 || pos >= |s| then None
    else if s[pos] < 128 then Some((s[pos] as nat, pos + 1))
    else
      match ReadVarUInt(s, pos + 1, groups - 1)
      case None => None
      case Some((v, p)) => Some(((s[pos] - 128) as nat + 128 * v, p))
  }

  function Pow128(n: nat): (r: nat)
    ensures r > 0
  {
    if n == 0 then 1 else 128 * Pow128(n - 1)
  }

  lemma {:induction false} VarUIntLength(u: nat, k: nat)
    requires 1 <= k && u < Pow128(k)
    ensures |EncodeVarUInt(u)| <= k
    decreases k
  {
    if u >= 128 {
      assert k > 1;
      VarUIntLength(u / 128, k - 1);
    }
  }

  lemma {:induction false} ReadEncodeVarUInt(s: seq<byte>, pos: nat, u: nat, groups: nat)
    requires Placed(s, pos, EncodeVarUInt(u)) && |EncodeVarUInt(u)| <= groups
    ensures ReadVarUInt(s, pos, groups) == Some((u, pos + |EncodeVarUInt(u)|))
    decreases u
  {
    var e := EncodeVarUInt(u);
    assert s[pos] == ByteAt(e, 0);
    if u >= 128 {
      PlacedSplit(s, pos, [(128 + u % 128) as byte], EncodeVarUInt(u / 128));
      ReadEncodeVarUInt(s, pos + 1, u / 128, groups - 1);
    }
  }

  /** writeVarInt: the two's-complement bit pattern, in groups. */
  function EncodeVarInt(x: int32): (r: seq<byte>)
    ensures 1 <= |r| <= VARINT_MAX_GROUPS
  {
    assert Pow128(5) == TWO_32 * 8;
    VarUIntLength(ToUnsigned32(x), 5);
    EncodeVarUInt(ToUnsigned32(x))
  }

  /** readVarInt: bits past the 32nd are shifted out, as in Java. */
  function ReadVarInt(s: seq<byte>, pos: nat): (r: Option<(int32, nat)>)
    ensures r.Some? ==> pos < r.value.1 <= pos + VARINT_MAX_GROUPS && r.value.1 <= |s|
  {
    match ReadVarUInt(s, pos, VARINT_MAX_GROUPS)
    case None => None
    case Some((u, p)) => Some((ToSigned32(u % TWO_32), p))
  }

  /** readVarInt keeps the low 32 bits of what the groups spell. */
  lemma ReadVarIntStep(s: seq<byte>, pos: nat, u: nat, p: nat)
    requires u < TWO_32 && ReadVarUInt(s, pos, VARINT_MAX_GROUPS) == Some((u, p))
    ensures ReadVarInt(s, pos) == Some((ToSigned32(u), p))
  {
    assert u % TWO_32 == u;
  }

  lemma ReadEncodeVarInt(s: seq<byte>, pos: nat, x: int32)
    requires Placed(s, pos, EncodeVarInt(x))
    ensures ReadVarInt(s, pos) == Some((x, After(pos, EncodeVarInt(x))))
  {
    var u := ToUnsigned32(x);
    var e := EncodeVarInt(x);
    assert e == EncodeVarUInt(u) && |e| <= VARINT_MAX_GROUPS;
    ReadEncodeVarUInt(s, pos, u, VARINT_MAX_GROUPS);
    ReadVarIntStep(s, pos, u, pos + |e|);
  }

  /** A value needing a sixth group is refused. */
  lemma SixGroupsRefused(s: seq<byte>, pos: nat)
    requires pos + 5 <= |s| && forall i :: pos <= i < pos + 5 ==> s[i] >= 128
    ensures ReadVarInt(s, pos) == None
  {
    assert ReadVarUInt(s, pos + 4, 1) == None;
    assert ReadVarUInt(s, pos + 3, 2) == None;
    assert ReadVarUInt(s, pos + 2, 3) == None;
    assert ReadVarUInt(s, pos + 1, 4) == None;
  }

  // ---------------------------------------------------------------------
  // UUIDs: most significant long, then least significant long.

  datatype UUID = UUID(mostSigBits: int64, leastSigBits: int64)

  function EncodeUUID(u: UUID): (r: seq<byte>)
    ensures |r| == 16
  {
    EncodeLong(u.mostSigBits) + EncodeLong(u.leastSigBits)
  }

  function ReadUUID(s: seq<byte>, pos: nat): (r: Option<(UUID, nat)>)
    ensures r.Some? <==> pos + 16 <= |s|
    ensures r.Some? ==> r.value.1 == pos + 16
  {
    match ReadLong(s, pos)
    case None => None
    case Some((msb, p)) =>
      match ReadLong(s, p)
      case None => None
      case Some((lsb, q)) => Some((UUID(msb, lsb), q))
  }

  lemma ReadEncodeUUID(s: seq<byte>, pos: nat, u: UUID)
    requires Placed(s, pos, EncodeUUID(u))
    ensures ReadUUID(s, pos) == Some((u, After(pos, EncodeUUID(u))))
  {
    var a, b := EncodeLong(u.mostSigBits), EncodeLong(u.leastSigBits);
    PlacedSplit(s, pos, a, b);
    ReadEncodeLong(s, pos, u.mostSigBits);
    ReadEncodeLong(s, After(pos, a), u.leastSigBits);
  }
}
