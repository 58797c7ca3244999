/** The attribute-update packet wrapper itself: the entity id and property
    list it holds, and read()/write() as the loops the wrapper runs over the
    buffer. Each loop is proved against the list functions of
    `UpdateAttributes`, whose read-after-write lemmas then apply. */
module UpdateAttributesPacket {
  import opened Wire
  import opened Versions
  import opened Buffers
  import opened Codec
  import Wrapper
  import opened Lists
  import opened UpdateAttributes

  class WrapperPlayServerUpdateAttributes {
    const wrapper: PacketWrapper
    var entityID: int32
    var properties: seq<Property>

    /** The constructor used to send a packet: the fields as given. */
    constructor (wrapper: PacketWrapper, entityID: int32, properties: seq<Property>)
      ensures this.wrapper == wrapper && this.entityID == entityID && this.properties == properties
    {
      this.wrapper := wrapper;
      this.entityID := entityID;
      this.properties := properties;
    }

    function GetEntityId(): int32
      reads this
    {
      entityID
    }

    function GetProperties(): seq<Property>
      reads this
    {
      properties
    }

    method SetEntityId(id: int32)
      modifies this
      ensures entityID == id && properties == old(properties)
    {
      entityID := id;
    }

    method SetProperties(ps: seq<Property>)
      modifies this
      ensures properties == ps && entityID == old(entityID)
    {
      properties := ps;
    }

    /** copy(): takes over both fields of the other wrapper. */
    method Copy(other: WrapperPlayServerUpdateAttributes)
      modifies this
      ensures entityID == old(other.entityID) && properties == old(other.properties)
    {
      entityID := other.entityID;
      properties := other.properties;
    }

    // -------------------------------------------------------------------
    // read()

    /** UUID, amount, operation byte; the byte must index VALUES. */
    static method ReadModifier(w: PacketWrapper) returns (r: Option<PropertyModifier>)
      requires w.buffer.Valid()
      modifies w.buffer`readerIndex
      ensures w.buffer.Valid()
      ensures var res := ReadModifierAt(w.buffer.bytes, old(w.buffer.readerIndex));
        r == Wrapper.Value(res) && (res.Some? ==> w.buffer.readerIndex == res.value.1)
    {
      var uuid := w.ReadUUID();
      if uuid.None? {
        return None;
      }
      var amount := w.ReadDouble();
      if amount.None? {
        return None;
      }
      var operationIndex := w.ReadByte();
      if operationIndex.None? {
        return None;
      }
      var operation := OperationAt(operationIndex.value);
      if operation.None? {
        return None;
      }
      r := Some(PropertyModifier(uuid.value, amount.value, operation.value));
    }

    /** One pass of the modifier loop, as a step of the list read. */
    static method ReadNextModifier(w: PacketWrapper, ghost start: nat, ghost j: nat, ghost n: nat, ghost ms: seq<PropertyModifier>)
      returns (r: Option<PropertyModifier>)
      requires w.buffer.Valid() && j < n
      requires ReadModifiersAt(w.buffer.bytes, start, j) == Some((ms, w.buffer.readerIndex))
      modifies w.buffer`readerIndex
      ensures w.buffer.Valid()
      ensures r.None? ==> ReadModifiersAt(w.buffer.bytes, start, n).None?
      ensures r.Some? ==> ReadModifiersAt(w.buffer.bytes, start, j + 1) == Some((ms + [r.value], w.buffer.readerIndex))
    {
      ReadListNext(w.buffer.bytes, start, j, ReadModifierAt, ms, w.buffer.readerIndex);
      r := ReadModifier(w);
      if r.None? {
        ReadListFailureSticks(w.buffer.bytes, start, j + 1, n, ReadModifierAt);
      }
    }

    /** The modifier loop: `n` modifiers in wire order. */
    static method ReadModifiers(w: PacketWrapper, n: nat) returns (r: Option<seq<PropertyModifier>>)
      requires w.buffer.Valid()
      modifies w.buffer`readerIndex
      ensures w.buffer.Valid()
      ensures var res := ReadModifiersAt(w.buffer.bytes, old(w.buffer.readerIndex), n);
        r == Wrapper.Value(res) && (res.Some? ==> w.buffer.readerIndex == res.value.1)
    {
      ghost var s, start := w.buffer.bytes, w.buffer.readerIndex;
      var modifiers: seq<PropertyModifier> := [];
      var j := 0;
      while j < n
        invariant 0 <= j <= n && w.buffer.Valid() && w.buffer.bytes == s
        invariant ReadModifiersAt(s, start, j) == Some((modifiers, w.buffer.readerIndex))
      {
        var m := ReadNextModifier(w, start, j, n, modifiers);
        if m.None? {
          return None;
        }
        modifiers := modifiers + [m.value];
        j := j + 1;
      }
      r := Some(modifiers);
    }

    /** The modifier count (a short on 1.7.10, a varint otherwise), then
        the modifier loop; a negative count fails. */
    static method ReadModifierList(w: PacketWrapper) returns (r: Option<seq<PropertyModifier>>)
      requires w.buffer.Valid()
      modifies w.buffer`readerIndex
      ensures w.buffer.Valid()
      ensures var res := ReadModifierListAt(w.buffer.bytes, old(w.buffer.readerIndex), w.serverVersion);
        r == Wrapper.Value(res) && (res.Some? ==> w.buffer.readerIndex == res.value.1)
    {
      var modifiersLength: Option<int32>;
      if w.serverVersion == V_1_7_10 {
        var n := w.ReadShort();
        modifiersLength := if n.Some? then Some(n.value as int32) else None;
      } else {
        modifiersLength := w.ReadVarInt();
      }
      if modifiersLength.None? || modifiersLength.value < 0 {
        return None;
      }
      r := ReadModifiers(w, modifiersLength.value);
    }

    /** The attribute by the version's encoding; unknown ids and names give
        a null attribute. */
    static method ReadAttribute(w: PacketWrapper, reg: AttributeLookup) returns (r: Option<Option<Attribute>>)
      requires w.buffer.Valid()
      modifies w.buffer`readerIndex
      ensures w.buffer.Valid()
      ensures var res := ReadAttributeAt(w.buffer.bytes, old(w.buffer.readerIndex), w.serverVersion, reg);
        r == Wrapper.Value(res) && (res.Some? ==> w.buffer.readerIndex == res.value.1)
    {
      if IsNewerThanOrEquals(w.serverVersion, V_1_20_5) {
        var id := w.ReadVarInt();
        if id.None? {
          return None;
        }
        r := Some(reg.ids.byId(w.ClientVersion(), id.value));
      } else if IsNewerThanOrEquals(w.serverVersion, V_1_16) {
        var name := w.ReadIdentifier();
        if name.None? {
          return None;
        }
        r := Some(reg.ByName(name.value));
      } else {
        var name := w.ReadString(64);
        if name.None? {
          return None;
        }
        r := Some(reg.ByLegacyName(name.value));
      }
    }

    /** One pass of the property loop. */
    static method ReadProperty(w: PacketWrapper, reg: AttributeLookup) returns (r: Option<Property>)
      requires w.buffer.Valid()
      modifies w.buffer`readerIndex
      ensures w.buffer.Valid()
      ensures var res := PropertyReader(w.serverVersion, reg)(w.buffer.bytes, old(w.buffer.readerIndex));
        r == Wrapper.Value(res) && (res.Some? ==> w.buffer.readerIndex == res.value.1)
    {
      var attribute := ReadAttribute(w, reg);
      if attribute.None? {
        return None;
      }
      var value := w.ReadDouble();
      if value.None? {
        return None;
      }
      var modifiers := ReadModifierList(w);
      if modifiers.None? {
        return None;
      }
      r := Some(Property(attribute.value, value.value, modifiers.value));
    }

    /** One pass of the property loop, as a step of the list read. */
    static method ReadNextProperty(w: PacketWrapper, reg: AttributeLookup, ghost start: nat, ghost i: nat, ghost n: nat,
                                   ghost ps: seq<Property>)
      returns (r: Option<Property>)
      requires w.buffer.Valid() && i < n
      requires ReadPropertiesAt(w.buffer.bytes, start, i, w.serverVersion, reg) == Some((ps, w.buffer.readerIndex))
      modifies w.buffer`readerIndex
      ensures w.buffer.Valid()
      ensures r.None? ==> ReadPropertiesAt(w.buffer.bytes, start, n, w.serverVersion, reg).None?
      ensures r.Some? ==>
        ReadPropertiesAt(w.buffer.bytes, start, i + 1, w.serverVersion, reg) == Some((ps + [r.value], w.buffer.readerIndex))
    {
      ghost var s, v, p := w.buffer.bytes, w.serverVersion, w.buffer.readerIndex;
      ReadListStep(s, start, i, n, PropertyReader(v, reg), ps, p);
      r := ReadProperty(w, reg);
    }

    /** The property loop: `n` properties in wire order. */
    static method ReadProperties(w: PacketWrapper, reg: AttributeLookup, n: nat) returns (r: Option<seq<Property>>)
      requires w.buffer.Valid()
      modifies w.buffer`readerIndex
      ensures w.buffer.Valid()
      ensures var res := ReadPropertiesAt(w.buffer.bytes, old(w.buffer.readerIndex), n, w.serverVersion, reg);
        r == Wrapper.Value(res) && (res.Some? ==> w.buffer.readerIndex == res.value.1)
    {
      ghost var s, start := w.buffer.bytes, w.buffer.readerIndex;
      var properties: seq<Property> := [];
      var i := 0;
      while i < n
        invariant 0 <= i <= n && w.buffer.Valid() && w.buffer.bytes == s
        invariant ReadPropertiesAt(s, start, i, w.serverVersion, reg) == Some((properties, w.buffer.readerIndex))
      {
        var property := ReadNextProperty(w, reg, start, i, n, properties);
        if property.None? {
          return None;
        }
        properties := properties + [property.value];
        i := i + 1;
      }
      r := Some(properties);
    }

    /** The entity id: an int on 1.7.10, a varint otherwise. */
    static method ReadEntityId(w: PacketWrapper) returns (r: Option<int32>)
      requires w.buffer.Valid()
      modifies w.buffer`readerIndex
      ensures w.buffer.Valid()
      ensures var res := ReadEntityIdAt(w.buffer.bytes, old(w.buffer.readerIndex), w.serverVersion);
        r == Wrapper.Value(res) && (res.Some? ==> w.buffer.readerIndex == res.value.1)
    {
      if w.serverVersion == V_1_7_10 {
        r := w.ReadInt();
      } else {
        r := w.ReadVarInt();
      }
    }

    /** The property count: a varint from 1.17, an int before. */
    static method ReadPropertyCount(w: PacketWrapper) returns (r: Option<int32>)
      requires w.buffer.Valid()
      modifies w.buffer`readerIndex
      ensures w.buffer.Valid()
      ensures var res := ReadPropertyCountAt(w.buffer.bytes, old(w.buffer.readerIndex), w.serverVersion);
        r == Wrapper.Value(res) && (res.Some? ==> w.buffer.readerIndex == res.value.1)
    {
      if IsNewerThanOrEquals(w.serverVersion, V_1_17) {
        r := w.ReadVarInt();
      } else {
        r := w.ReadInt();
      }
    }

    /** read(): on success the fields hold the entity id and the properties
        in wire order, and the reader index is past the packet. A failed
        read may already have set the entity id, and once the count is read
        the properties are empty: the partial list is not kept. */
    method Read(ids: Registry<Attribute>, names: map<string, Attribute>) returns (ok: bool)
      requires wrapper.buffer.Valid()
      modifies this, wrapper.buffer`readerIndex
      ensures wrapper.buffer.Valid()
      ensures var res := ReadPacketAt(wrapper.buffer.bytes, old(wrapper.buffer.readerIndex),
                                      wrapper.serverVersion, PacketLookup(ids, names));
        ok == res.Some?
        && (ok ==> (entityID, properties) == res.value.0 && wrapper.buffer.readerIndex == res.value.1)
    {
      var reg := PacketLookup(ids, names);
      var id := ReadEntityId(wrapper);
      if id.None? {
        return false;
      }
      entityID := id.value;
      var propertyCount := ReadPropertyCount(wrapper);
      if propertyCount.None? || propertyCount.value < 0 {
        return false;
      }
      properties := [];
      var ps := ReadProperties(wrapper, reg, propertyCount.value);
      if ps.None? {
        return false;
      }
      properties := ps.value;
      ok := true;
    }

    // -------------------------------------------------------------------
    // write()

    static method WriteModifier(w: PacketWrapper, m: PropertyModifier)
      requires w.buffer.Valid()
      modifies w.buffer
      ensures w.buffer.Valid() && w.buffer.bytes == old(w.buffer.bytes) + EncodeModifier(m)
      ensures w.buffer.readerIndex == old(w.buffer.readerIndex)
    {
      ghost var before := w.buffer.bytes;
      var a, b := EncodeUUID(m.uuid), EncodeDouble(m.amount);
      w.WriteUUID(m.uuid);
      w.WriteDouble(m.amount);
      AppendAssoc(before, a, b);
      w.WriteByte(Ordinal(m.operation));
      AppendAssoc(before, a + b, EncodeByte(TruncateToByte(Ordinal(m.operation))));
    }

    /** The count (a short on 1.7.10, truncated as writeShort does), then
        each modifier in order. */
    static method WriteModifierList(w: PacketWrapper, ms: seq<PropertyModifier>)
      requires w.buffer.Valid() && |ms| < TWO_31
      modifies w.buffer
      ensures w.buffer.Valid()
      ensures w.buffer.bytes == old(w.buffer.bytes) + EncodeModifierList(w.serverVersion, ms)
      ensures w.buffer.readerIndex == old(w.buffer.readerIndex)
    {
      ghost var before := w.buffer.bytes;
      if w.serverVersion == V_1_7_10 {
        w.WriteShort(|ms|);
      } else {
        w.WriteVarInt(|ms|);
      }
      ghost var head := EncodeModifierCount(w.serverVersion, |ms|);
      var j := 0;
      while j < |ms|
        invariant 0 <= j <= |ms| && w.buffer.Valid() && w.buffer.readerIndex == old(w.buffer.readerIndex)
        invariant w.buffer.bytes == before + head + EncodeModifiers(ms[..j])
      {
        EncodeListStep(before + head, ms, j, EncodeModifier);
        WriteModifier(w, ms[j]);
        j := j + 1;
      }
      assert ms[..|ms|] == ms;
      AppendAssoc(before, head, EncodeModifiers(ms));
    }

    static method WriteAttribute(w: PacketWrapper, reg: AttributeLookup, a: Option<Attribute>)
      requires w.buffer.Valid() && AttributeEncodable(w.serverVersion, reg, a)
      modifies w.buffer
      ensures w.buffer.Valid() && w.buffer.bytes == old(w.buffer.bytes) + EncodeAttribute(w.serverVersion, reg, a)
      ensures w.buffer.readerIndex == old(w.buffer.readerIndex)
    {
      if IsNewerThanOrEquals(w.serverVersion, V_1_20_5) {
        w.WriteVarInt(reg.ids.idOf(a.value, w.ClientVersion()).value);
      } else if IsNewerThanOrEquals(w.serverVersion, V_1_16) {
        w.WriteIdentifier(a.value.name);
      } else {
        w.WriteString(ReverseMap(reg.legacy)[a.value]);
      }
    }

    /** One pass of the property loop. */
    static method WriteProperty(w: PacketWrapper, reg: AttributeLookup, p: Property)
      requires w.buffer.Valid() && PropertyEncodable(w.serverVersion, reg, p)
      modifies w.buffer
      ensures w.buffer.Valid() && w.buffer.bytes == old(w.buffer.bytes) + EncodeProperty(w.serverVersion, reg, p)
      ensures w.buffer.readerIndex == old(w.buffer.readerIndex)
    {
      ghost var before := w.buffer.bytes;
      ghost var a := EncodeAttribute(w.serverVersion, reg, p.attribute);
      WriteAttribute(w, reg, p.attribute);
      w.WriteDouble(p.value);
      AppendAssoc(before, a, EncodeDouble(p.value));
      WriteModifierList(w, p.modifiers);
      AppendAssoc(before, a + EncodeDouble(p.value), EncodeModifierList(w.serverVersion, p.modifiers));
    }

    /** One pass of the property loop, as a step of the list encoding. */
    static method WriteNextProperty(w: PacketWrapper, reg: AttributeLookup, ps: seq<Property>, i: nat, ghost before: seq<byte>)
      requires w.buffer.Valid() && i < |ps|
      requires forall k :: 0 <= k < |ps| ==> PropertyEncodable(w.serverVersion, reg, ps[k])
      requires w.buffer.bytes == before + EncodeProperties(w.serverVersion, reg, ps[..i])
      modifies w.buffer
      ensures w.buffer.Valid() && w.buffer.readerIndex == old(w.buffer.readerIndex)
      ensures w.buffer.bytes == before + EncodeProperties(w.serverVersion, reg, ps[..i + 1])
    {
      EncodeListStep(before, ps, i, PropertyEncoder(w.serverVersion, reg));
      WriteProperty(w, reg, ps[i]);
    }

    /** The property loop: each property in order. */
    static method WriteProperties(w: PacketWrapper, reg: AttributeLookup, ps: seq<Property>)
      requires w.buffer.Valid()
      requires forall i :: 0 <= i < |ps| ==> PropertyEncodable(w.serverVersion, reg, ps[i])
      modifies w.buffer
      ensures w.buffer.Valid() && w.buffer.bytes == old(w.buffer.bytes) + EncodeProperties(w.serverVersion, reg, ps)
      ensures w.buffer.readerIndex == old(w.buffer.readerIndex)
    {
      ghost var before := w.buffer.bytes;
      var i := 0;
      while i < |ps|
        invariant 0 <= i <= |ps| && w.buffer.Valid() && w.buffer.readerIndex == old(w.buffer.readerIndex)
        invariant w.buffer.bytes == before + EncodeProperties(w.serverVersion, reg, ps[..i])
      {
        WriteNextProperty(w, reg, ps, i, before);
        i := i + 1;
      }
      assert ps[..|ps|] == ps;
    }

    /** write(): the entity id, the property count, then each property, by
        the same version gates read() uses. */
    method Write(ids: Registry<Attribute>, names: map<string, Attribute>)
      requires wrapper.buffer.Valid()
      requires PacketEncodable(wrapper.serverVersion, PacketLookup(ids, names), properties)
      modifies wrapper.buffer
      ensures wrapper.buffer.Valid() && wrapper.buffer.readerIndex == old(wrapper.buffer.readerIndex)
      ensures wrapper.buffer.bytes
        == old(wrapper.buffer.bytes) + EncodePacket(wrapper.serverVersion, PacketLookup(ids, names), entityID, properties)
    {
      var reg := PacketLookup(ids, names);
      var w := wrapper;
      var v := w.serverVersion;
      ghost var before := w.buffer.bytes;
      if v == V_1_7_10 {
        w.WriteInt(entityID);
      } else {
        w.WriteVarInt(entityID);
      }
      if IsNewerThanOrEquals(v, V_1_17) {
        w.WriteVarInt(|properties|);
      } else {
        w.WriteInt(|properties|);
      }
      ghost var a, b := EncodeEntityId(v, entityID), EncodePropertyCount(v, |properties|);
      AppendAssoc(before, a, b);
      WriteProperties(w, reg, properties);
      AppendAssoc(before, a + b, EncodeProperties(v, reg, properties));
    }
  }
}
