/** A particle: a registry-backed particle type and the data that type
    carries. The type is written as a mapped entity, then the type writes
    its own data. */
module Particles {
  import opened Wire
  import opened Versions
  import opened Buffers
  import opened Codec
  import Wrapper
  import DustColorTransition

  /** How a particle type reads and writes its data. Only the data shapes
      in this model are listed. */
  datatype DataKind = NoData | DustColorTransitionData

  datatype ParticleType = ParticleType(name: string, kind: DataKind)

  datatype ParticleData =
    | Empty
    | DustTransition(fields: DustColorTransition.DustFields)

  /** The data belongs to the type: the type parameter `T` of the source. */
  predicate Fits(t: ParticleType, d: ParticleData) {
    match t.kind
    case NoData => d == Empty
    case DustColorTransitionData => d.DustTransition?
  }

  /** type.readData(wrapper). */
  function ReadDataAt(s: seq<byte>, pos: nat, t: ParticleType, v: ServerVersion): (r: Option<(ParticleData, nat)>)
    ensures r.Some? ==> Fits(t, r.value.0) && pos <= r.value.1
  {
    match t.kind
    case NoData => Some((Empty, pos))
    case DustColorTransitionData =>
      match DustColorTransition.ReadAt(s, pos, v)
      case None => None
      case Some((f, p)) =>
        DustColorTransition.ReadIsSevenFloats(s, pos, v);
        Some((DustTransition(f), p))
  }

  /** type.writeData(wrapper, data). */
  function EncodeData(t: ParticleType, d: ParticleData, v: ServerVersion): seq<byte>
    requires Fits(t, d)
  {
    match d
    case Empty => []
    case DustTransition(f) => DustColorTransition.Encode(v, f)
  }

  /** read: the mapped particle type, then that type's data. */
  function ReadAt(s: seq<byte>, pos: nat, reg: Registry<ParticleType>, v: ServerVersion): (r: Option<((ParticleType, ParticleData), nat)>)
    ensures r.Some? ==> ReadMappedEntityAt(s, pos, reg, ToClientVersion(v)).Some?
    ensures r.Some? ==> r.value.0.0 == ReadMappedEntityAt(s, pos, reg, ToClientVersion(v)).value.0
    ensures r.Some? ==> Fits(r.value.0.0, r.value.0.1) && pos < r.value.1
  {
    match ReadMappedEntityAt(s, pos, reg, ToClientVersion(v))
    case None => None
    case Some((t, p)) =>
      match ReadDataAt(s, p, t, v)
      case None => None
      case Some((d, q)) => Some(((t, d), q))
  }

  function Encode(t: ParticleType, d: ParticleData, reg: Registry<ParticleType>, v: ServerVersion): Option<seq<byte>>
    requires Fits(t, d)
  {
    match EncodeMappedEntity(t, reg, ToClientVersion(v))
    case None => None
    case Some(head) => Some(head + EncodeData(t, d, v))
  }

  lemma ReadEncodeData(s: seq<byte>, pos: nat, t: ParticleType, d: ParticleData, v: ServerVersion)
    requires Fits(t, d) && Placed(s, pos, EncodeData(t, d, v))
    ensures ReadDataAt(s, pos, t, v) == Some((d, pos + |EncodeData(t, d, v)|))
  {
    match d
    case Empty =>
    case DustTransition(f) =>
      DustColorTransition.ReadEncode(s, pos, v, f);
      DustColorTransition.EncodeIsSevenFloats(v, f);
  }

  /** read is its two reads in sequence. */
  lemma ReadSteps(s: seq<byte>, pos: nat, reg: Registry<ParticleType>, v: ServerVersion,
                  t: ParticleType, p: nat, d: ParticleData, q: nat)
    requires ReadMappedEntityAt(s, pos, reg, ToClientVersion(v)) == Some((t, p))
    requires ReadDataAt(s, p, t, v) == Some((d, q))
    ensures ReadAt(s, pos, reg, v) == Some(((t, d), q))
  {
  }

  lemma EncodeLength(t: ParticleType, d: ParticleData, reg: Registry<ParticleType>, v: ServerVersion)
    requires Fits(t, d) && Encode(t, d, reg, v).Some?
    ensures |Encode(t, d, reg, v).value|
      == |EncodeMappedEntity(t, reg, ToClientVersion(v)).value| + |EncodeData(t, d, v)|
  {
  }

  lemma ReadEncodeType(s: seq<byte>, pos: nat, t: ParticleType, d: ParticleData, reg: Registry<ParticleType>,
                       v: ServerVersion, p: nat)
    requires Inverse(reg, ToClientVersion(v)) && Fits(t, d) && Encode(t, d, reg, v).Some?
    requires Placed(s, pos, Encode(t, d, reg, v).value)
    requires p == pos + |EncodeMappedEntity(t, reg, ToClientVersion(v)).value|
    ensures ReadMappedEntityAt(s, pos, reg, ToClientVersion(v)) == Some((t, p))
  {
    PlacedSplit(s, pos, EncodeMappedEntity(t, reg, ToClientVersion(v)).value, EncodeData(t, d, v));
    ReadEncodeMappedEntity(s, pos, t, reg, ToClientVersion(v));
  }

  /** Once the type has been read back, its data follows it. */
  lemma ReadDataAfterType(s: seq<byte>, pos: nat, reg: Registry<ParticleType>, v: ServerVersion,
                          t: ParticleType, p: nat, d: ParticleData)
    requires ReadMappedEntityAt(s, pos, reg, ToClientVersion(v)) == Some((t, p))
    requires Fits(t, d) && Placed(s, p, EncodeData(t, d, v))
    ensures ReadAt(s, pos, reg, v) == Some(((t, d), p + |EncodeData(t, d, v)|))
  {
    ReadEncodeData(s, p, t, d, v);
    ReadSteps(s, pos, reg, v, t, p, d, p + |EncodeData(t, d, v)|);
  }

  lemma ReadEncodeAfterType(s: seq<byte>, pos: nat, t: ParticleType, d: ParticleData, reg: Registry<ParticleType>,
                            v: ServerVersion, p: nat)
    requires Fits(t, d) && Encode(t, d, reg, v).Some?
    requires Placed(s, pos, Encode(t, d, reg, v).value)
    requires p == pos + |EncodeMappedEntity(t, reg, ToClientVersion(v)).value|
    requires ReadMappedEntityAt(s, pos, reg, ToClientVersion(v)) == Some((t, p))
    ensures ReadAt(s, pos, reg, v) == Some(((t, d), pos + |Encode(t, d, reg, v).value|))
  {
    EncodeLength(t, d, reg, v);
    PlacedSplit(s, pos, EncodeMappedEntity(t, reg, ToClientVersion(v)).value, EncodeData(t, d, v));
    ReadDataAfterType(s, pos, reg, v, t, p, d);
  }

  /** Read-after-write: type first, then its data, in the same order. */
  lemma ReadEncode(s: seq<byte>, pos: nat, t: ParticleType, d: ParticleData, reg: Registry<ParticleType>, v: ServerVersion)
    requires Inverse(reg, ToClientVersion(v)) && Fits(t, d) && Encode(t, d, reg, v).Some?
    requires Placed(s, pos, Encode(t, d, reg, v).value)
    ensures ReadAt(s, pos, reg, v) == Some(((t, d), pos + |Encode(t, d, reg, v).value|))
  {
    var p := pos + |EncodeMappedEntity(t, reg, ToClientVersion(v)).value|;
    ReadEncodeType(s, pos, t, d, reg, v, p);
    ReadEncodeAfterType(s, pos, t, d, reg, v, p);
  }

  class Particle {
    var particleType: ParticleType
    var data: ParticleData

    constructor (particleType: ParticleType, data: ParticleData)
      ensures this.particleType == particleType && this.data == data
    {
      this.particleType := particleType;
      this.data := data;
    }

    /** The one-argument constructor attaches the empty data. */
    constructor OfType(particleType: ParticleType)
      ensures this.particleType == particleType && this.data == Empty
    {
      this.particleType := particleType;
      this.data := Empty;
    }

    method SetType(t: ParticleType)
      modifies this
      ensures particleType == t && data == old(data)
    {
      particleType := t;
    }

    method SetData(d: ParticleData)
      modifies this
      ensures data == d && particleType == old(particleType)
    {
      data := d;
    }

    static method ReadData(w: PacketWrapper, t: ParticleType) returns (r: Option<ParticleData>)
      requires w.buffer.Valid()
      modifies w.buffer`readerIndex
      ensures w.buffer.Valid()
      ensures var res := ReadDataAt(w.buffer.bytes, old(w.buffer.readerIndex), t, w.serverVersion);
        r == Wrapper.Value(res) && (res.Some? ==> w.buffer.readerIndex == res.value.1)
    {
      match t.kind
      case NoData =>
        r := Some(Empty);
      case DustColorTransitionData =>
        var dust := DustColorTransition.ParticleDustColorTransitionData.Read(w);
        if dust.None? {
          return None;
        }
        r := Some(DustTransition(dust.value.Fields()));
    }

    static method Read(w: PacketWrapper, reg: Registry<ParticleType>) returns (r: Option<Particle>)
      requires w.buffer.Valid()
      modifies w.buffer`readerIndex
      ensures w.buffer.Valid()
      ensures var res := ReadAt(w.buffer.bytes, old(w.buffer.readerIndex), reg, w.serverVersion);
        r.Some? <==> res.Some?
      ensures r.Some? ==>
        var res := ReadAt(w.buffer.bytes, old(w.buffer.readerIndex), reg, w.serverVersion);
        fresh(r.value) && (r.value.particleType, r.value.data) == res.value.0
        && w.buffer.readerIndex == res.value.1
    {
      var t := w.ReadMappedEntity(reg);
      if t.None? {
        return None;
      }
      var d := ReadData(w, t.value);
      if d.None? {
        return None;
      }
      var particle := new Particle(t.value, d.value);
      r := Some(particle);
    }

    static method WriteData(w: PacketWrapper, t: ParticleType, d: ParticleData)
      requires w.buffer.Valid() && Fits(t, d)
      modifies w.buffer
      ensures w.buffer.Valid() && w.buffer.bytes == old(w.buffer.bytes) + EncodeData(t, d, w.serverVersion)
      ensures w.buffer.readerIndex == old(w.buffer.readerIndex)
    {
      match d
      case Empty =>
        assert old(w.buffer.bytes) + [] == w.buffer.bytes;
      case DustTransition(f) =>
        var dust := new DustColorTransition.ParticleDustColorTransitionData(f.scale, f.startRed, f.startGreen,
          f.startBlue, f.endRed, f.endGreen, f.endBlue);
        DustColorTransition.ParticleDustColorTransitionData.Write(w, dust);
    }

    static method Write(w: PacketWrapper, particle: Particle, reg: Registry<ParticleType>)
      requires w.buffer.Valid() && Fits(particle.particleType, particle.data)
      requires Encode(particle.particleType, particle.data, reg, w.serverVersion).Some?
      modifies w.buffer
      ensures w.buffer.Valid()
      ensures w.buffer.bytes == old(w.buffer.bytes) + Encode(particle.particleType, particle.data, reg, w.serverVersion).value
      ensures w.buffer.readerIndex == old(w.buffer.readerIndex)
    {
      ghost var before := w.buffer.bytes;
      ghost var head := EncodeMappedEntity(particle.particleType, reg, w.ClientVersion()).value;
      w.WriteMappedEntity(particle.particleType, reg);
      WriteData(w, particle.particleType, particle.data);
      AppendAssoc(before, head, EncodeData(particle.particleType, particle.data, w.serverVersion));
    }
  }
}
