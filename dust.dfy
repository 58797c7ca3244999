/** The data of the dust-colour-transition particle: a scale and two RGB
    colours, all single-precision floats. From 1.20.5 on, the scale moves
    from between the two colours to after them. */
module DustColorTransition {
  import opened Wire
  import opened Versions
  import opened Buffers
  import opened Codec
  import Wrapper

  /** Vector3f: three floats. */
  datatype Vector3f = Vector3f(x: F32, y: F32, z: F32)

  /** A colour channel as the Color class holds it: an int in 0..255. */
  type Channel = c: int | 0 <= c < 256

  datatype Color = Color(red: Channel, green: Channel, blue: Channel)

  const FRACTION: int := 0x80_0000

  /** Java's int-to-float widening, exact on 0..255: the IEEE 754 single
      precision bit pattern whose biased exponent is 127 plus the position
      of the highest set bit, with the bits below it as the fraction. */
  function ChannelToFloat(c: Channel): F32 {
    if c >= 128 then 134 * FRACTION + (c - 128) * 0x1_0000
    else if c >= 64 then 133 * FRACTION + (c - 64) * 0x2_0000
    else if c >= 32 then 132 * FRACTION + (c - 32) * 0x4_0000
    else if c >= 16 then 131 * FRACTION + (c - 16) * 0x8_0000
    else if c >= 8 then 130 * FRACTION + (c - 8) * 0x10_0000
    else if c >= 4 then 129 * FRACTION + (c - 4) * 0x20_0000
    else if c >= 2 then 128 * FRACTION + (c - 2) * 0x40_0000
    else if c == 1 then 127 * FRACTION
    else 0
  }

  /** Reads a float bit pattern back as the integer it holds, for the
      patterns `ChannelToFloat` produces (-1 for any other). */
  function FloatToChannel(bits: F32): int {
    var exponent, fraction := bits / FRACTION, bits % FRACTION;
    if bits == 0 then 0
    else if exponent == 134 then 128 + fraction / 0x1_0000
    else if exponent == 133 then 64 + fraction / 0x2_0000
    else if exponent == 132 then 32 + fraction / 0x4_0000
    else if exponent == 131 then 16 + fraction / 0x8_0000
    else if exponent == 130 then 8 + fraction / 0x10_0000
    else if exponent == 129 then 4 + fraction / 0x20_0000
    else if exponent == 128 then 2 + fraction / 0x40_0000
    else if exponent == 127 then 1
    else -1
  }

  lemma SplitFloat(exponent: int, fraction: int)
    requires 0 <= fraction < FRACTION
    ensures (exponent * FRACTION + fraction) / FRACTION == exponent
    ensures (exponent * FRACTION + fraction) % FRACTION == fraction
  {
  }

  /** The widening is exact: the channel value comes back from its float. */
  lemma FloatToChannelInverse(c: Channel)
    ensures FloatToChannel(ChannelToFloat(c)) == c
  {
    if c >= 128 { SplitFloat(134, (c - 128) * 0x1_0000); }
    else if c >= 64 { SplitFloat(133, (c - 64) * 0x2_0000); }
    else if c >= 32 { SplitFloat(132, (c - 32) * 0x4_0000); }
    else if c >= 16 { SplitFloat(131, (c - 16) * 0x8_0000); }
    else if c >= 8 { SplitFloat(130, (c - 8) * 0x10_0000); }
    else if c >= 4 { SplitFloat(129, (c - 4) * 0x20_0000); }
    else if c >= 2 { SplitFloat(128, (c - 2) * 0x40_0000); }
    else if c == 1 { SplitFloat(127, 0); }
  }

  /** The seven fields, in the declaration order of the source class. */
  datatype DustFields = DustFields(scale: F32, startRed: F32, startGreen: F32, startBlue: F32,
                                   endRed: F32, endGreen: F32, endBlue: F32)

  /** Three floats: red, green, blue. */
  function ReadRGBAt(s: seq<byte>, pos: nat): (r: Option<(Vector3f, nat)>)
    ensures r.Some? <==> pos + 12 <= |s|
    ensures r.Some? ==> r.value.1 == pos + 12
  {
    match ReadFloat(s, pos)
    case None => None
    case Some((x, p)) =>
      match ReadFloat(s, p)
      case None => None
      case Some((y, q)) =>
        match ReadFloat(s, q)
        case None => None
        case Some((z, t)) => Some((Vector3f(x, y, z), t))
  }

  function EncodeRGB(c: Vector3f): (r: seq<byte>)
    ensures |r| == 12
  {
    EncodeFloat(c.x) + EncodeFloat(c.y) + EncodeFloat(c.z)
  }

  lemma ReadEncodeRGB(s: seq<byte>, pos: nat, c: Vector3f)
    requires Placed(s, pos, EncodeRGB(c))
    ensures ReadRGBAt(s, pos) == Some((c, pos + 12))
  {
    PlacedSplit(s, pos, EncodeFloat(c.x) + EncodeFloat(c.y), EncodeFloat(c.z));
    PlacedSplit(s, pos, EncodeFloat(c.x), EncodeFloat(c.y));
    ReadEncodeFloat(s, pos, c.x);
    ReadEncodeFloat(s, pos + 4, c.y);
    ReadEncodeFloat(s, pos + 8, c.z);
  }

  /** A scale read only when `gate` holds; otherwise `default` is kept. */
  function ReadScaleIf(gate: bool, s: seq<byte>, pos: nat, default: F32): (r: Option<(F32, nat)>)
  {
    if gate then ReadFloat(s, pos) else Some((default, pos))
  }

  function EncodeScaleIf(gate: bool, scale: F32): seq<byte> {
    if gate then EncodeFloat(scale) else []
  }

  /** read: start colour, the scale if older than 1.20.5, end colour, the
      scale if 1.20.5 or newer. */
  function ReadAt(s: seq<byte>, pos: nat, v: ServerVersion): Option<(DustFields, nat)> {
    match ReadRGBAt(s, pos)
    case None => None
    case Some((start, p)) =>
      match ReadScaleIf(IsOlderThan(v, V_1_20_5), s, p, 0)
      case None => None
      case Some((early, q)) =>
        match ReadRGBAt(s, q)
        case None => None
        case Some((end, t)) =>
          match ReadScaleIf(IsNewerThanOrEquals(v, V_1_20_5), s, t, early)
          case None => None
          case Some((scale, u)) =>
            Some((DustFields(scale, start.x, start.y, start.z, end.x, end.y, end.z), u))
  }

  function Start(d: DustFields): Vector3f {
    Vector3f(d.startRed, d.startGreen, d.startBlue)
  }

  function End(d: DustFields): Vector3f {
    Vector3f(d.endRed, d.endGreen, d.endBlue)
  }

  /** write: the same gates as `read`. */
  function Encode(v: ServerVersion, d: DustFields): seq<byte> {
    EncodeRGB(Start(d)) + EncodeScaleIf(IsOlderThan(v, V_1_20_5), d.scale)
    + EncodeRGB(End(d)) + EncodeScaleIf(IsNewerThanOrEquals(v, V_1_20_5), d.scale)
  }

  /** The two gates are complementary, so every version writes exactly
      seven floats. */
  lemma EncodeIsSevenFloats(v: ServerVersion, d: DustFields)
    ensures |Encode(v, d)| == 28
  {
    OlderIsNotNewerOrEqual(v, V_1_20_5);
  }

  /** ... and reads exactly seven floats: the read succeeds exactly when 28
      bytes are available and stops after them. */
  lemma ReadIsSevenFloats(s: seq<byte>, pos: nat, v: ServerVersion)
    ensures ReadAt(s, pos, v).Some? <==> pos + 28 <= |s|
    ensures ReadAt(s, pos, v).Some? ==> ReadAt(s, pos, v).value.1 == pos + 28
  {
    OlderIsNotNewerOrEqual(v, V_1_20_5);
  }

  /** Where the scale sits: the fourth float before 1.20.5, the seventh
      from 1.20.5 on. */
  lemma ScalePosition(s: seq<byte>, pos: nat, v: ServerVersion)
    requires ReadAt(s, pos, v).Some?
    ensures var at := if IsOlderThan(v, V_1_20_5) then pos + 12 else pos + 24;
      ReadFloat(s, at).Some? && ReadAt(s, pos, v).value.0.scale == ReadFloat(s, at).value.0
  {
    OlderIsNotNewerOrEqual(v, V_1_20_5);
  }

  /** Read-after-write gives back the seven fields, for every version. */
  lemma ReadEncode(s: seq<byte>, pos: nat, v: ServerVersion, d: DustFields)
    requires Placed(s, pos, Encode(v, d))
    ensures ReadAt(s, pos, v) == Some((d, pos + 28))
  {
    OlderIsNotNewerOrEqual(v, V_1_20_5);
    var a := EncodeRGB(Start(d));
    var b := EncodeScaleIf(IsOlderThan(v, V_1_20_5), d.scale);
    var c := EncodeRGB(End(d));
    var e := EncodeScaleIf(IsNewerThanOrEquals(v, V_1_20_5), d.scale);
    PlacedSplit(s, pos, a + b + c, e);
    PlacedSplit(s, pos, a + b, c);
    PlacedSplit(s, pos, a, b);
    ReadEncodeRGB(s, pos, Start(d));
    ReadEncodeRGB(s, pos + |a| + |b|, End(d));
    if IsOlderThan(v, V_1_20_5) {
      ReadEncodeFloat(s, pos + 12, d.scale);
    } else {
      ReadEncodeFloat(s, pos + 24, d.scale);
    }
  }

  class ParticleDustColorTransitionData {
    var scale: F32
    var startRed: F32
    var startGreen: F32
    var startBlue: F32
    var endRed: F32
    var endGreen: F32
    var endBlue: F32

    function Fields(): DustFields
      reads this
    {
      DustFields(scale, startRed, startGreen, startBlue, endRed, endGreen, endBlue)
    }

    constructor (scale: F32, startRed: F32, startGreen: F32, startBlue: F32,
                 endRed: F32, endGreen: F32, endBlue: F32)
      ensures Fields() == DustFields(scale, startRed, startGreen, startBlue, endRed, endGreen, endBlue)
    {
      this.scale := scale;
      this.startRed := startRed;
      this.startGreen := startGreen;
      this.startBlue := startBlue;
      this.endRed := endRed;
      this.endGreen := endGreen;
      this.endBlue := endBlue;
    }

    /** x, y, z of each vector become red, green, blue. */
    constructor FromVectors(scale: F32, startRGB: Vector3f, endRGB: Vector3f)
      ensures Fields() == DustFields(scale, startRGB.x, startRGB.y, startRGB.z, endRGB.x, endRGB.y, endRGB.z)
      ensures Start(Fields()) == startRGB && End(Fields()) == endRGB
    {
      this.scale := scale;
      this.startRed := startRGB.x;
      this.startGreen := startRGB.y;
      this.startBlue := startRGB.z;
      this.endRed := endRGB.x;
      this.endGreen := endRGB.y;
      this.endBlue := endRGB.z;
    }

    /** The int channels of each colour, widened to float, in order. */
    constructor FromColors(scale: F32, start: Color, end: Color)
      ensures Fields() == DustFields(scale,
        ChannelToFloat(start.red), ChannelToFloat(start.green), ChannelToFloat(start.blue),
        ChannelToFloat(end.red), ChannelToFloat(end.green), ChannelToFloat(end.blue))
    {
      this.scale := scale;
      this.startRed := ChannelToFloat(start.red);
      this.startGreen := ChannelToFloat(start.green);
      this.startBlue := ChannelToFloat(start.blue);
      this.endRed := ChannelToFloat(end.red);
      this.endGreen := ChannelToFloat(end.green);
      this.endBlue := ChannelToFloat(end.blue);
    }

    method SetScale(x: F32)
      modifies this
      ensures Fields() == old(Fields()).(scale := x)
    {
      scale := x;
    }

    method SetStartRed(x: F32)
      modifies this
      ensures Fields() == old(Fields()).(startRed := x)
    {
      startRed := x;
    }

    method SetStartGreen(x: F32)
      modifies this
      ensures Fields() == old(Fields()).(startGreen := x)
    {
      startGreen := x;
    }

    method SetStartBlue(x: F32)
      modifies this
      ensures Fields() == old(Fields()).(startBlue := x)
    {
      startBlue := x;
    }

    method SetEndRed(x: F32)
      modifies this
      ensures Fields() == old(Fields()).(endRed := x)
    {
      endRed := x;
    }

    method SetEndGreen(x: F32)
      modifies this
      ensures Fields() == old(Fields()).(endGreen := x)
    {
      endGreen := x;
    }

    method SetEndBlue(x: F32)
      modifies this
      ensures Fields() == old(Fields()).(endBlue := x)
    {
      endBlue := x;
    }

    /** This particle data always has content. */
    predicate IsEmpty()
      ensures !IsEmpty()
    {
      false
    }

    static method ReadRGB(w: PacketWrapper) returns (r: Option<Vector3f>)
      requires w.buffer.Valid()
      modifies w.buffer`readerIndex
      ensures w.buffer.Valid()
      ensures var res := ReadRGBAt(w.buffer.bytes, old(w.buffer.readerIndex));
        r == Wrapper.Value(res) && (res.Some? ==> w.buffer.readerIndex == res.value.1)
    {
      var red := w.ReadFloat();
      var green := w.ReadFloat();
      var blue := w.ReadFloat();
      if red.None? || green.None? || blue.None? {
        return None;
      }
      r := Some(Vector3f(red.value, green.value, blue.value));
    }

    static method ReadScale(w: PacketWrapper, gate: bool, default: F32) returns (r: Option<F32>)
      requires w.buffer.Valid()
      modifies w.buffer`readerIndex
      ensures w.buffer.Valid()
      ensures var res := ReadScaleIf(gate, w.buffer.bytes, old(w.buffer.readerIndex), default);
        r == Wrapper.Value(res) && (res.Some? ==> w.buffer.readerIndex == res.value.1)
    {
      r := Some(default);
      if gate {
        r := w.ReadFloat();
      }
    }

    static method Read(w: PacketWrapper) returns (r: Option<ParticleDustColorTransitionData>)
      requires w.buffer.Valid()
      modifies w.buffer`readerIndex
      ensures w.buffer.Valid()
      ensures var res := ReadAt(w.buffer.bytes, old(w.buffer.readerIndex), w.serverVersion);
        r.Some? <==> res.Some?
      ensures r.Some? ==>
        var res := ReadAt(w.buffer.bytes, old(w.buffer.readerIndex), w.serverVersion);
        fresh(r.value) && r.value.Fields() == res.value.0 && w.buffer.readerIndex == res.value.1
    {
      var start := ReadRGB(w);
      if start.None? {
        return None;
      }
      var early := ReadScale(w, IsOlderThan(w.serverVersion, V_1_20_5), 0);
      if early.None? {
        return None;
      }
      var end := ReadRGB(w);
      if end.None? {
        return None;
      }
      var scale := ReadScale(w, IsNewerThanOrEquals(w.serverVersion, V_1_20_5), early.value);
      if scale.None? {
        return None;
      }
      var c, d := start.value, end.value;
      var data := new ParticleDustColorTransitionData(scale.value, c.x, c.y, c.z, d.x, d.y, d.z);
      r := Some(data);
    }

    static method WriteRGB(w: PacketWrapper, c: Vector3f)
      requires w.buffer.Valid()
      modifies w.buffer
      ensures w.buffer.Valid() && w.buffer.bytes == old(w.buffer.bytes) + EncodeRGB(c)
      ensures w.buffer.readerIndex == old(w.buffer.readerIndex)
    {
      ghost var before := w.buffer.bytes;
      w.WriteFloat(c.x);
      w.WriteFloat(c.y);
      AppendAssoc(before, EncodeFloat(c.x), EncodeFloat(c.y));
      w.WriteFloat(c.z);
      AppendAssoc(before, EncodeFloat(c.x) + EncodeFloat(c.y), EncodeFloat(c.z));
    }

    static method WriteScale(w: PacketWrapper, gate: bool, scale: F32)
      requires w.buffer.Valid()
      modifies w.buffer
      ensures w.buffer.Valid() && w.buffer.bytes == old(w.buffer.bytes) + EncodeScaleIf(gate, scale)
      ensures w.buffer.readerIndex == old(w.buffer.readerIndex)
    {
      if gate {
        w.WriteFloat(scale);
      } else {
        assert w.buffer.bytes == old(w.buffer.bytes) + [];
      }
    }

    static method Write(w: PacketWrapper, data: ParticleDustColorTransitionData)
      requires w.buffer.Valid()
      modifies w.buffer
      ensures w.buffer.Valid() && w.buffer.bytes == old(w.buffer.bytes) + Encode(w.serverVersion, old(data.Fields()))
      ensures w.buffer.readerIndex == old(w.buffer.readerIndex)
    {
      var d := data.Fields();
      var a := EncodeRGB(Start(d));
      var b := EncodeScaleIf(IsOlderThan(w.serverVersion, V_1_20_5), d.scale);
      var c := EncodeRGB(End(d));
      var e := EncodeScaleIf(IsNewerThanOrEquals(w.serverVersion, V_1_20_5), d.scale);
      ghost var before := w.buffer.bytes;
      WriteRGB(w, Start(d));
      WriteScale(w, IsOlderThan(w.serverVersion, V_1_20_5), d.scale);
      AppendAssoc(before, a, b);
      WriteRGB(w, End(d));
      AppendAssoc(before, a + b, c);
      WriteScale(w, IsNewerThanOrEquals(w.serverVersion, V_1_20_5), d.scale);
      AppendAssoc(before, a + b + c, e);
    }
  }
}
