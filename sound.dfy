/** A sound event reference: either a registry id or, when the sound is not
    registered, its identifier and optional fixed range written inline. */
module SoundCodec {
  import opened Wire
  import opened Versions
  import opened Buffers
  import opened Codec
  import Wrapper

  /** A sound's identifier and its optional fixed range. Registered and
      static sounds carry the same two values. */
  datatype Sound = Sound(soundId: string, range: Option<F32>)

  predicate IsSound(snd: Sound) {
    IsIdentifier(snd.soundId)
  }

  /** readDirect: an identifier, then an optional float range. */
  function ReadDirectAt(s: seq<byte>, pos: nat): (r: Option<(Sound, nat)>)
    requires pos <= |s|
    ensures r.Some? ==> IsSound(r.value.0) && pos < r.value.1 <= |s|
    ensures r.Some? <==> (ReadIdentifierAt(s, pos).Some?
      && ReadOptionalFloatAt(s, ReadIdentifierAt(s, pos).value.1).Some?)
  {
    match ReadIdentifierAt(s, pos)
    case None => None
    case Some((id, p)) =>
      match ReadOptionalFloatAt(s, p)
      case None => None
      case Some((range, q)) => Some((Sound(id, range), q))
  }

  function EncodeDirect(snd: Sound): seq<byte>
    requires IsSound(snd)
  {
    EncodeIdentifier(snd.soundId) + EncodeOptionalFloat(snd.range)
  }

  /** readDirect is its two reads in sequence. */
  lemma ReadDirectSteps(s: seq<byte>, pos: nat, id: string, p: nat, range: Option<F32>, q: nat)
    requires pos <= |s| && ReadIdentifierAt(s, pos) == Some((id, p))
    requires ReadOptionalFloatAt(s, p) == Some((range, q))
    ensures ReadDirectAt(s, pos) == Some((Sound(id, range), q))
  {
  }

  lemma EncodeDirectLength(snd: Sound)
    requires IsSound(snd)
    ensures |EncodeDirect(snd)| == |EncodeIdentifier(snd.soundId)| + |EncodeOptionalFloat(snd.range)|
  {
  }

  lemma ReadEncodeDirectId(s: seq<byte>, pos: nat, snd: Sound, p: nat)
    requires IsSound(snd) && Placed(s, pos, EncodeDirect(snd))
    requires p == pos + |EncodeIdentifier(snd.soundId)|
    ensures pos <= |s| && ReadIdentifierAt(s, pos) == Some((snd.soundId, p))
  {
    PlacedSplit(s, pos, EncodeIdentifier(snd.soundId), EncodeOptionalFloat(snd.range));
    ReadEncodeIdentifier(s, pos, snd.soundId);
  }

  lemma ReadEncodeDirectRange(s: seq<byte>, pos: nat, snd: Sound, p: nat, q: nat)
    requires IsSound(snd) && Placed(s, pos, EncodeDirect(snd))
    requires p == pos + |EncodeIdentifier(snd.soundId)| && q == p + |EncodeOptionalFloat(snd.range)|
    ensures p <= |s| && ReadOptionalFloatAt(s, p) == Some((snd.range, q))
  {
    PlacedSplit(s, pos, EncodeIdentifier(snd.soundId), EncodeOptionalFloat(snd.range));
    ReadEncodeOptionalFloat(s, p, snd.range);
  }

  /** Direct read-after-write keeps the identifier and the range. */
  lemma ReadEncodeDirect(s: seq<byte>, pos: nat, snd: Sound)
    requires IsSound(snd) && Placed(s, pos, EncodeDirect(snd))
    ensures ReadDirectAt(s, pos) == Some((snd, pos + |EncodeDirect(snd)|))
  {
    var p := pos + |EncodeIdentifier(snd.soundId)|;
    EncodeDirectLength(snd);
    ReadEncodeDirectId(s, pos, snd, p);
    ReadEncodeDirectRange(s, pos, snd, p, pos + |EncodeDirect(snd)|);
    ReadDirectSteps(s, pos, snd.soundId, p, snd.range, pos + |EncodeDirect(snd)|);
  }

  /** read: a varint; 0 introduces a direct sound, any other value n names
      registry id n - 1 (32-bit arithmetic), and an unknown id is a decode
      error. */
  function ReadAt(s: seq<byte>, pos: nat, reg: Registry<Sound>, v: ClientVersion): (r: Option<(Sound, nat)>)
    requires pos <= |s|
    ensures r.Some? ==> pos < r.value.1 <= |s|
    ensures r.Some? ==> ReadVarInt(s, pos).Some?
    ensures r.Some? && ReadVarInt(s, pos).value.0 != 0 ==>
      reg.byId(v, Wrap32(ReadVarInt(s, pos).value.0 - 1)) == Some(r.value.0)
  {
    match ReadVarInt(s, pos)
    case None => None
    case Some((n, p)) =>
      if n == 0 then ReadDirectAt(s, p)
      else match reg.byId(v, Wrap32(n - 1))
        case None => None
        case Some(snd) => Some((snd, p))
  }

  /** write: a registered sound as its id plus one; otherwise 0 and the
      direct encoding. */
  function Encode(snd: Sound, reg: Registry<Sound>, v: ClientVersion): seq<byte>
    requires IsSound(snd)
  {
    match reg.idOf(snd, v)
    case Some(id) => EncodeVarInt(Wrap32(id + 1))
    case None => EncodeVarInt(0) + EncodeDirect(snd)
  }

  /** A registered sound reads back through the registry. */
  lemma ReadEncodeRegistered(s: seq<byte>, pos: nat, snd: Sound, reg: Registry<Sound>, v: ClientVersion)
    requires IsSound(snd) && Inverse(reg, v) && reg.idOf(snd, v).Some?
    requires Placed(s, pos, Encode(snd, reg, v))
    ensures ReadAt(s, pos, reg, v) == Some((snd, pos + |Encode(snd, reg, v)|))
  {
    var id := reg.idOf(snd, v).value;
    assert 0 <= id < TWO_31 - 1 && reg.byId(v, id) == Some(snd);
    var n: int32 := id + 1;
    assert Wrap32(id + 1) == n && Wrap32(n - 1) == id;
    ReadEncodeVarInt(s, pos, n);
  }

  /** A zero varint hands over to readDirect. */
  lemma ReadDirectFallback(s: seq<byte>, pos: nat, reg: Registry<Sound>, v: ClientVersion, p: nat, snd: Sound, q: nat)
    requires pos <= |s| && ReadVarInt(s, pos) == Some((0, p))
    requires p <= |s| && ReadDirectAt(s, p) == Some((snd, q))
    ensures ReadAt(s, pos, reg, v) == Some((snd, q))
  {
  }

  lemma ReadEncodeUnregisteredPrefix(s: seq<byte>, pos: nat, snd: Sound, e: seq<byte>, p: nat)
    requires IsSound(snd) && e == EncodeVarInt(0) + EncodeDirect(snd) && Placed(s, pos, e)
    requires p == pos + |EncodeVarInt(0)|
    ensures pos <= |s| && ReadVarInt(s, pos) == Some((0, p))
  {
    PlacedSplit(s, pos, EncodeVarInt(0), EncodeDirect(snd));
    ReadEncodeVarInt(s, pos, 0);
  }

  lemma ReadEncodeUnregisteredDirect(s: seq<byte>, pos: nat, snd: Sound, e: seq<byte>, p: nat)
    requires IsSound(snd) && e == EncodeVarInt(0) + EncodeDirect(snd) && Placed(s, pos, e)
    requires p == pos + |EncodeVarInt(0)|
    ensures p <= |s| && ReadDirectAt(s, p) == Some((snd, pos + |e|))
  {
    PlacedSplit(s, pos, EncodeVarInt(0), EncodeDirect(snd));
    ReadEncodeDirect(s, p, snd);
  }

  /** An unregistered sound reads back through the direct fallback. */
  lemma ReadEncodeUnregistered(s: seq<byte>, pos: nat, snd: Sound, reg: Registry<Sound>, v: ClientVersion, e: seq<byte>)
    requires IsSound(snd) && e == EncodeVarInt(0) + EncodeDirect(snd) && Placed(s, pos, e)
    ensures ReadAt(s, pos, reg, v) == Some((snd, pos + |e|))
  {
    var p := pos + |EncodeVarInt(0)|;
    ReadEncodeUnregisteredPrefix(s, pos, snd, e, p);
    ReadEncodeUnregisteredDirect(s, pos, snd, e, p);
    ReadDirectFallback(s, pos, reg, v, p, snd, pos + |e|);
  }

  /** Read-after-write through the registry or the direct fallback. */
  lemma ReadEncode(s: seq<byte>, pos: nat, snd: Sound, reg: Registry<Sound>, v: ClientVersion)
    requires Inverse(reg, v) && IsSound(snd) && Placed(s, pos, Encode(snd, reg, v))
    ensures ReadAt(s, pos, reg, v) == Some((snd, pos + |Encode(snd, reg, v)|))
  {
    if reg.idOf(snd, v).Some? {
      ReadEncodeRegistered(s, pos, snd, reg, v);
    } else {
      ReadEncodeUnregistered(s, pos, snd, reg, v, Encode(snd, reg, v));
    }
  }

  method ReadDirect(w: PacketWrapper) returns (r: Option<Sound>)
    requires w.buffer.Valid()
    modifies w.buffer`readerIndex
    ensures w.buffer.Valid()
    ensures r == Wrapper.Value(ReadDirectAt(w.buffer.bytes, old(w.buffer.readerIndex)))
    ensures r.Some? ==> w.buffer.readerIndex == ReadDirectAt(w.buffer.bytes, old(w.buffer.readerIndex)).value.1
  {
    var soundId := w.ReadIdentifier();
    if soundId.None? {
      return None;
    }
    var range := w.ReadOptionalFloat();
    if range.None? {
      return None;
    }
    r := Some(Sound(soundId.value, range.value));
  }

  method Read(w: PacketWrapper, reg: Registry<Sound>) returns (r: Option<Sound>)
    requires w.buffer.Valid()
    modifies w.buffer`readerIndex
    ensures w.buffer.Valid()
    ensures r == Wrapper.Value(ReadAt(w.buffer.bytes, old(w.buffer.readerIndex), reg, w.ClientVersion()))
    ensures r.Some? ==>
      w.buffer.readerIndex == ReadAt(w.buffer.bytes, old(w.buffer.readerIndex), reg, w.ClientVersion()).value.1
  {
    var n := w.ReadVarInt();
    if n.None? {
      return None;
    }
    if n.value == 0 {
      r := ReadDirect(w);
      return;
    }
    r := reg.byId(w.ClientVersion(), Wrap32(n.value as int - 1));
  }

  method WriteDirect(w: PacketWrapper, snd: Sound)
    requires w.buffer.Valid() && IsSound(snd)
    modifies w.buffer
    ensures w.buffer.Valid() && w.buffer.bytes == old(w.buffer.bytes) + EncodeDirect(snd)
    ensures w.buffer.readerIndex == old(w.buffer.readerIndex)
  {
    w.WriteIdentifier(snd.soundId);
    w.WriteOptionalFloat(snd.range);
  }

  method Write(w: PacketWrapper, snd: Sound, reg: Registry<Sound>)
    requires w.buffer.Valid() && IsSound(snd)
    modifies w.buffer
    ensures w.buffer.Valid() && w.buffer.bytes == old(w.buffer.bytes) + Encode(snd, reg, w.ClientVersion())
    ensures w.buffer.readerIndex == old(w.buffer.readerIndex)
  {
    var id := reg.idOf(snd, w.ClientVersion());
    if id.Some? {
      w.WriteVarInt(Wrap32(id.value as int + 1));
      return;
    }
    ghost var before := w.buffer.bytes;
    w.WriteVarInt(0);
    WriteDirect(w, snd);
    AppendAssoc(before, EncodeVarInt(0), EncodeDirect(snd));
  }
}
