/** The api-side packet wrapper: a server version and a buffer that is
    read through its reader index and written by appending. The primitive
    reads and writes are specified by the functions of `Wire`; identifiers,
    optional values and registry-backed ("mapped") entities are built on
    them here. */
module Codec {
  import opened Wire
  import opened Versions
  import opened Buffers
  import Wrapper
  import Utf8

  /** Java's `(short)` cast, which `writeShort(int)` applies. */
  function TruncateToShort(x: int): (r: int16)
    ensures (r - x) % TWO_16 == 0
    ensures -TWO_15 <= x < TWO_15 ==> r == x
  {
    (x + TWO_15) % TWO_16 - TWO_15
  }

  /** Java's `(byte)` cast, which `writeByte(int)` applies. */
  function TruncateToByte(x: int): (r: int8)
    ensures (r - x) % 256 == 0
    ensures -TWO_7 <= x < TWO_7 ==> r == x
  {
    (x + TWO_7) % 256 - TWO_7
  }

  // ---------------------------------------------------------------------
  // Identifiers: a resource location travels as a string of at most 32767
  // characters.

  const MAX_IDENTIFIER_LENGTH: int32 := 32767

  predicate IsIdentifier(id: string) {
    Utf8.Utf16Length(id) <= MAX_IDENTIFIER_LENGTH
  }

  function ReadIdentifierAt(s: seq<byte>, pos: nat): (r: Option<(string, nat)>)
    requires pos <= |s|
    ensures r.Some? ==> IsIdentifier(r.value.0) && pos < r.value.1 <= |s|
  {
    match Wrapper.ReadStringAt(s, pos, MAX_IDENTIFIER_LENGTH)
    case StringOk(id, next) => Some((id, next))
    case StringFailed(_, _) => None
  }

  function EncodeIdentifier(id: string): (r: seq<byte>)
    requires IsIdentifier(id)
  {
    Utf8.EncodedLengthBound(id);
    Wrapper.EncodeString(id)
  }

  lemma ReadEncodeIdentifier(s: seq<byte>, pos: nat, id: string)
    requires IsIdentifier(id) && Placed(s, pos, EncodeIdentifier(id))
    ensures ReadIdentifierAt(s, pos) == Some((id, pos + |EncodeIdentifier(id)|))
  {
    Wrapper.ReadEncodeString(s, pos, id, MAX_IDENTIFIER_LENGTH);
  }

  // ---------------------------------------------------------------------
  // Optional floats: a boolean presence flag, then the value if present.

  function ReadOptionalFloatAt(s: seq<byte>, pos: nat): (r: Option<(Option<F32>, nat)>)
    ensures r.Some? ==> pos < r.value.1 <= |s|
    ensures r.Some? ==> (r.value.0.Some? <==> s[pos] != 0)
  {
    match ReadBoolean(s, pos)
    case None => None
    case Some((present, p)) =>
      if !present then Some((None, p))
      else match ReadFloat(s, p)
        case None => None
        case Some((x, q)) => Some((Some(x), q))
  }

  function EncodeOptionalFloat(o: Option<F32>): seq<byte> {
    match o
    case None => EncodeBoolean(false)
    case Some(x) => EncodeBoolean(true) + EncodeFloat(x)
  }

  lemma ReadEncodeOptionalFloat(s: seq<byte>, pos: nat, o: Option<F32>)
    requires Placed(s, pos, EncodeOptionalFloat(o))
    ensures ReadOptionalFloatAt(s, pos) == Some((o, pos + |EncodeOptionalFloat(o)|))
  {
    match o
    case None =>
      ReadEncodeBoolean(s, pos, false);
    case Some(x) =>
      PlacedSplit(s, pos, EncodeBoolean(true), EncodeFloat(x));
      ReadEncodeBoolean(s, pos, true);
      ReadEncodeFloat(s, pos + 1, x);
  }

  // ---------------------------------------------------------------------
  // Mapped entities: registry entries that travel as a numeric id valid for
  // the client version.

  /** A registry category as the codec sees it: the id of an entry at a
      version (None when the entry is not registered there) and the entry
      with a given id (None when the id is unknown). */
  datatype Registry<T(==)> = Registry(ids: map<(T, ClientVersion), int32>, entries: map<(ClientVersion, int32), T>)
  {
    /** The id of `t` at version `v`, if it is registered there. */
    function idOf(t: T, v: ClientVersion): Option<int32> {
      if (t, v) in ids then Some(ids[(t, v)]) else None
    }

    /** The entry with id `id` at version `v`, if there is one. */
    function byId(v: ClientVersion, id: int32): Option<T> {
      if (v, id) in entries then Some(entries[(v, id)]) else None
    }
  }

  /** The registry's two lookups agree at version `v`, and every id leaves
      room for the `+ 1` of the mapped-or-direct encoding. */
  ghost predicate Inverse<T(!new)>(reg: Registry<T>, v: ClientVersion) {
    forall t :: reg.idOf(t, v).Some? ==>
      0 <= reg.idOf(t, v).value < TWO_31 - 1 && reg.byId(v, reg.idOf(t, v).value) == Some(t)
  }

  /** readMappedEntity: a varint id; an id the registry does not know is a
      decode error. */
  function ReadMappedEntityAt<T>(s: seq<byte>, pos: nat, reg: Registry<T>, v: ClientVersion): (r: Option<(T, nat)>)
    ensures r.Some? ==> pos < r.value.1 <= |s|
    ensures r.Some? <==> ReadVarInt(s, pos).Some? && reg.byId(v, ReadVarInt(s, pos).value.0).Some?
  {
    match ReadVarInt(s, pos)
    case None => None
    case Some((id, p)) =>
      match reg.byId(v, id)
      case None => None
      case Some(t) => Some((t, p))
  }

  /** writeMappedEntity: the entry's id as a varint; an entry without an id
      at this version cannot be written. */
  function EncodeMappedEntity<T>(t: T, reg: Registry<T>, v: ClientVersion): Option<seq<byte>> {
    match reg.idOf(t, v)
    case None => None
    case Some(id) => Some(EncodeVarInt(id))
  }

  lemma ReadEncodeMappedEntity<T(!new)>(s: seq<byte>, pos: nat, t: T, reg: Registry<T>, v: ClientVersion)
    requires Inverse(reg, v) && EncodeMappedEntity(t, reg, v).Some?
    requires Placed(s, pos, EncodeMappedEntity(t, reg, v).value)
    ensures ReadMappedEntityAt(s, pos, reg, v) == Some((t, pos + |EncodeMappedEntity(t, reg, v).value|))
  {
    ReadEncodeVarInt(s, pos, reg.idOf(t, v).value);
  }

  // ---------------------------------------------------------------------
  // The wrapper object.

  class PacketWrapper {
    const serverVersion: ServerVersion
    const buffer: ByteBuf

    constructor (serverVersion: ServerVersion, buffer: ByteBuf)
      ensures this.serverVersion == serverVersion && this.buffer == buffer
    {
      this.serverVersion := serverVersion;
      this.buffer := buffer;
    }

    function ClientVersion(): ClientVersion {
      ToClientVersion(serverVersion)
    }

    /** The reader index after a read whose outcome is `res`: past the value
        on success, where it was on failure. */
    twostate predicate Advanced<T>(new res: Option<(T, nat)>, new r: Option<T>)
      reads buffer
    {
      r == Wrapper.Value(res)
      && buffer.readerIndex == (if res.Some? then res.value.1 else old(buffer.readerIndex))
    }

    /** Moves the reader index past a value a reader found at it. */
    method Take<T>(res: Option<(T, nat)>) returns (r: Option<T>)
      requires buffer.Valid()
      requires res.Some? ==> buffer.readerIndex <= res.value.1 <= |buffer.bytes|
      modifies buffer`readerIndex
      ensures buffer.Valid() && Advanced(res, r)
    {
      r := None;
      if res.Some? {
        r := Some(res.value.0);
        buffer.readerIndex := res.value.1;
      }
    }

    method ReadVarInt() returns (r: Option<int32>)
      requires buffer.Valid()
      modifies buffer`readerIndex
      ensures buffer.Valid() && Advanced(Wire.ReadVarInt(buffer.bytes, old(buffer.readerIndex)), r)
    {
      r := Take(Wire.ReadVarInt(buffer.bytes, buffer.readerIndex));
    }

    method ReadInt() returns (r: Option<int32>)
      requires buffer.Valid()
      modifies buffer`readerIndex
      ensures buffer.Valid() && Advanced(Wire.ReadInt(buffer.bytes, old(buffer.readerIndex)), r)
    {
      r := Take(Wire.ReadInt(buffer.bytes, buffer.readerIndex));
    }

    method ReadShort() returns (r: Option<int16>)
      requires buffer.Valid()
      modifies buffer`readerIndex
      ensures buffer.Valid() && Advanced(Wire.ReadShort(buffer.bytes, old(buffer.readerIndex)), r)
    {
      r := Take(Wire.ReadShort(buffer.bytes, buffer.readerIndex));
    }

    method ReadByte() returns (r: Option<int8>)
      requires buffer.Valid()
      modifies buffer`readerIndex
      ensures buffer.Valid() && Advanced(Wire.ReadByte(buffer.bytes, old(buffer.readerIndex)), r)
    {
      r := Take(Wire.ReadByte(buffer.bytes, buffer.readerIndex));
    }

    method ReadFloat() returns (r: Option<F32>)
      requires buffer.Valid()
      modifies buffer`readerIndex
      ensures buffer.Valid() && Advanced(Wire.ReadFloat(buffer.bytes, old(buffer.readerIndex)), r)
    {
      r := Take(Wire.ReadFloat(buffer.bytes, buffer.readerIndex));
    }

    method ReadDouble() returns (r: Option<F64>)
      requires buffer.Valid()
      modifies buffer`readerIndex
      ensures buffer.Valid() && Advanced(Wire.ReadDouble(buffer.bytes, old(buffer.readerIndex)), r)
    {
      r := Take(Wire.ReadDouble(buffer.bytes, buffer.readerIndex));
    }

    method ReadUUID() returns (r: Option<UUID>)
      requires buffer.Valid()
      modifies buffer`readerIndex
      ensures buffer.Valid() && Advanced(Wire.ReadUUID(buffer.bytes, old(buffer.readerIndex)), r)
    {
      r := Take(Wire.ReadUUID(buffer.bytes, buffer.readerIndex));
    }

    method ReadString(maxLen: int32) returns (r: Option<string>)
      requires buffer.Valid()
      modifies buffer`readerIndex
      ensures buffer.Valid()
      ensures var res := Wrapper.ReadStringAt(buffer.bytes, old(buffer.readerIndex), maxLen);
        r == (if res.StringOk? then Some(res.value) else None)
        && (res.StringOk? ==> buffer.readerIndex == res.next)
    {
      var res := Wrapper.ReadStringAt(buffer.bytes, buffer.readerIndex, maxLen);
      r := None;
      if res.StringOk? {
        r := Some(res.value);
        buffer.readerIndex := res.next;
      }
    }

    method ReadIdentifier() returns (r: Option<string>)
      requires buffer.Valid()
      modifies buffer`readerIndex
      ensures buffer.Valid() && Advanced(ReadIdentifierAt(buffer.bytes, old(buffer.readerIndex)), r)
    {
      r := Take(ReadIdentifierAt(buffer.bytes, buffer.readerIndex));
    }

    method ReadOptionalFloat() returns (r: Option<Option<F32>>)
      requires buffer.Valid()
      modifies buffer`readerIndex
      ensures buffer.Valid() && Advanced(ReadOptionalFloatAt(buffer.bytes, old(buffer.readerIndex)), r)
    {
      r := Take(ReadOptionalFloatAt(buffer.bytes, buffer.readerIndex));
    }

    method ReadMappedEntity<T>(reg: Registry<T>) returns (r: Option<T>)
      requires buffer.Valid()
      modifies buffer`readerIndex
      ensures buffer.Valid()
      ensures Advanced(ReadMappedEntityAt(buffer.bytes, old(buffer.readerIndex), reg, ClientVersion()), r)
    {
      r := Take(ReadMappedEntityAt(buffer.bytes, buffer.readerIndex, reg, ClientVersion()));
    }

    /** Appends encoded bytes; the reader index stays. */
    method Put(b: seq<byte>)
      requires buffer.Valid()
      modifies buffer
      ensures buffer.Valid() && buffer.bytes == old(buffer.bytes) + b
      ensures buffer.readerIndex == old(buffer.readerIndex)
    {
      buffer.WriteBytes(b);
    }

    method WriteVarInt(x: int32)
      requires buffer.Valid()
      modifies buffer
      ensures buffer.Valid() && buffer.bytes == old(buffer.bytes) + EncodeVarInt(x)
      ensures buffer.readerIndex == old(buffer.readerIndex)
    {
      Put(EncodeVarInt(x));
    }

    method WriteInt(x: int32)
      requires buffer.Valid()
      modifies buffer
      ensures buffer.Valid() && buffer.bytes == old(buffer.bytes) + EncodeInt(x)
      ensures buffer.readerIndex == old(buffer.readerIndex)
    {
      Put(EncodeInt(x));
    }

    /** writeShort(int) keeps the low 16 bits. */
    method WriteShort(x: int)
      requires buffer.Valid()
      modifies buffer
      ensures buffer.Valid() && buffer.bytes == old(buffer.bytes) + EncodeShort(TruncateToShort(x))
      ensures buffer.readerIndex == old(buffer.readerIndex)
    {
      Put(EncodeShort(TruncateToShort(x)));
    }

    /** writeByte(int) keeps the low 8 bits. */
    method WriteByte(x: int)
      requires buffer.Valid()
      modifies buffer
      ensures buffer.Valid() && buffer.bytes == old(buffer.bytes) + EncodeByte(TruncateToByte(x))
      ensures buffer.readerIndex == old(buffer.readerIndex)
    {
      Put(EncodeByte(TruncateToByte(x)));
    }

    method WriteFloat(x: F32)
      requires buffer.Valid()
      modifies buffer
      ensures buffer.Valid() && buffer.bytes == old(buffer.bytes) + EncodeFloat(x)
      ensures buffer.readerIndex == old(buffer.readerIndex)
    {
      Put(EncodeFloat(x));
    }

    method WriteDouble(x: F64)
      requires buffer.Valid()
      modifies buffer
      ensures buffer.Valid() && buffer.bytes == old(buffer.bytes) + EncodeDouble(x)
      ensures buffer.readerIndex == old(buffer.readerIndex)
    {
      Put(EncodeDouble(x));
    }

    method WriteUUID(u: UUID)
      requires buffer.Valid()
      modifies buffer
      ensures buffer.Valid() && buffer.bytes == old(buffer.bytes) + EncodeUUID(u)
      ensures buffer.readerIndex == old(buffer.readerIndex)
    {
      Put(EncodeUUID(u));
    }

    method WriteString(str: string)
      requires buffer.Valid() && |Utf8.Encode(str)| < TWO_31
      modifies buffer
      ensures buffer.Valid() && buffer.bytes == old(buffer.bytes) + Wrapper.EncodeString(str)
      ensures buffer.readerIndex == old(buffer.readerIndex)
    {
      Put(Wrapper.EncodeString(str));
    }

    method WriteIdentifier(id: string)
      requires buffer.Valid() && IsIdentifier(id)
      modifies buffer
      ensures buffer.Valid() && buffer.bytes == old(buffer.bytes) + EncodeIdentifier(id)
      ensures buffer.readerIndex == old(buffer.readerIndex)
    {
      Put(EncodeIdentifier(id));
    }

    method WriteOptionalFloat(o: Option<F32>)
      requires buffer.Valid()
      modifies buffer
      ensures buffer.Valid() && buffer.bytes == old(buffer.bytes) + EncodeOptionalFloat(o)
      ensures buffer.readerIndex == old(buffer.readerIndex)
    {
      Put(EncodeOptionalFloat(o));
    }

    method WriteMappedEntity<T>(t: T, reg: Registry<T>)
      requires buffer.Valid() && EncodeMappedEntity(t, reg, ClientVersion()).Some?
      modifies buffer
      ensures buffer.Valid()
      ensures buffer.bytes == old(buffer.bytes) + EncodeMappedEntity(t, reg, ClientVersion()).value
      ensures buffer.readerIndex == old(buffer.readerIndex)
    {
      Put(EncodeMappedEntity(t, reg, ClientVersion()).value);
    }
  }
}
