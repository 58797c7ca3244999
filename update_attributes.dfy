/** The clientbound attribute-update packet: an entity id and a list of
    properties, each an attribute, a base value and a list of modifiers.
    Three version gates decide the layout: 1.7.10 uses fixed-width counts
    and ids, 1.17 moves the property count to a varint, and the attribute
    travels as a legacy name before 1.16, an identifier from 1.16 and a
    registry id from 1.20.5. */
module UpdateAttributes {
  import opened Wire
  import opened Versions
  import opened Buffers
  import opened Codec
  import Wrapper
  import Utf8
  import opened Lists

  // ---------------------------------------------------------------------
  // Attributes and the pre-1.16 name tables.

  /** An attribute registry entry, identified by its resource location. The
      Attributes registry itself is not part of this model. */
  datatype Attribute = Attribute(name: string)

  const GENERIC_MAX_HEALTH: Attribute := Attribute("minecraft:generic.max_health")
  const ZOMBIE_SPAWN_REINFORCEMENTS: Attribute := Attribute("minecraft:zombie.spawn_reinforcements")
  const HORSE_JUMP_STRENGTH: Attribute := Attribute("minecraft:horse.jump_strength")
  const GENERIC_FOLLOW_RANGE: Attribute := Attribute("minecraft:generic.follow_range")
  const GENERIC_KNOCKBACK_RESISTANCE: Attribute := Attribute("minecraft:generic.knockback_resistance")
  const GENERIC_MOVEMENT_SPEED: Attribute := Attribute("minecraft:generic.movement_speed")
  const GENERIC_FLYING_SPEED: Attribute := Attribute("minecraft:generic.flying_speed")
  const GENERIC_ATTACK_DAMAGE: Attribute := Attribute("minecraft:generic.attack_damage")
  const GENERIC_ATTACK_KNOCKBACK: Attribute := Attribute("minecraft:generic.attack_knockback")
  const GENERIC_ATTACK_SPEED: Attribute := Attribute("minecraft:generic.attack_speed")
  const GENERIC_ARMOR_TOUGHNESS: Attribute := Attribute("minecraft:generic.armor_toughness")

  /** The legacy names, in the source's order: the first seven attributes
      have an internal name followed by a display name. */
  const PRE_1_16_ATTRIBUTES: seq<(string, Attribute)> := [
    ("generic.maxHealth", GENERIC_MAX_HEALTH),
    ("Max Health", GENERIC_MAX_HEALTH),
    ("zombie.spawnReinforcements", ZOMBIE_SPAWN_REINFORCEMENTS),
    ("Spawn Reinforcements Chance", ZOMBIE_SPAWN_REINFORCEMENTS),
    ("horse.jumpStrength", HORSE_JUMP_STRENGTH),
    ("Jump Strength", HORSE_JUMP_STRENGTH),
    ("generic.followRange", GENERIC_FOLLOW_RANGE),
    ("Follow Range", GENERIC_FOLLOW_RANGE),
    ("generic.knockbackResistance", GENERIC_KNOCKBACK_RESISTANCE),
    ("Knockback Resistance", GENERIC_KNOCKBACK_RESISTANCE),
    ("generic.movementSpeed", GENERIC_MOVEMENT_SPEED),
    ("Movement Speed", GENERIC_MOVEMENT_SPEED),
    ("generic.flyingSpeed", GENERIC_FLYING_SPEED),
    ("Flying Speed", GENERIC_FLYING_SPEED),
    ("generic.attackDamage", GENERIC_ATTACK_DAMAGE),
    ("generic.attackKnockback", GENERIC_ATTACK_KNOCKBACK),
    ("generic.attackSpeed", GENERIC_ATTACK_SPEED),
    ("generic.armorToughness", GENERIC_ARMOR_TOUGHNESS)
  ]

  predicate DistinctKeys(entries: seq<(string, Attribute)>) {
    forall i, j :: 0 <= i < j < |entries| ==> entries[i].0 != entries[j].0
  }

  /** Name to attribute, built entry by entry (keys must be distinct, or
      the collector refuses the table). */
  function ForwardMap(entries: seq<(string, Attribute)>): map<string, Attribute> {
    if entries == [] then map[]
    else
      var last := entries[|entries| - 1];
      ForwardMap(entries[..|entries| - 1])[last.0 := last.1]
  }

  /** Attribute to name; on a repeated attribute the first name is kept. */
  function ReverseMap(entries: seq<(string, Attribute)>): map<Attribute, string> {
    if entries == [] then map[]
    else
      var last := entries[|entries| - 1];
      var m := ReverseMap(entries[..|entries| - 1]);
      if last.1 in m then m else m[last.1 := last.0]
  }

  const PRE_1_16_ATTRIBUTES_MAP: map<string, Attribute> := ForwardMap(PRE_1_16_ATTRIBUTES)
  const PRE_1_16_ATTRIBUTES_RMAP: map<Attribute, string> := ReverseMap(PRE_1_16_ATTRIBUTES)

  /** No legacy name is listed twice. */
  lemma LegacyKeysDistinct()
    ensures DistinctKeys(PRE_1_16_ATTRIBUTES)
  {
  }

  /** Every legacy name is short enough for `readString(64)`. */
  lemma LegacyNamesShort()
    ensures forall i :: 0 <= i < |PRE_1_16_ATTRIBUTES| ==> |PRE_1_16_ATTRIBUTES[i].0| <= 32
  {
  }

  /** Every listed name maps to its attribute. */
  lemma {:induction false} ForwardMapLookup(entries: seq<(string, Attribute)>, i: int)
    requires DistinctKeys(entries) && 0 <= i < |entries|
    ensures entries[i].0 in ForwardMap(entries) && ForwardMap(entries)[entries[i].0] == entries[i].1
  {
    var n := |entries| - 1;
    if i < n {
      var init := entries[..n];
      assert init[i] == entries[i];
      ForwardMapLookup(init, i);
    }
  }

  /** The forward map holds the listed names and nothing else. */
  lemma {:induction false} ForwardMapKeys(entries: seq<(string, Attribute)>, name: string)
    ensures name in ForwardMap(entries) <==> exists i :: 0 <= i < |entries| && entries[i].0 == name
  {
    if entries != [] {
      var n := |entries| - 1;
      var init := entries[..n];
      ForwardMapKeys(init, name);
      if name in ForwardMap(init) {
        var i :| 0 <= i < |init| && init[i].0 == name;
        assert entries[i].0 == name;
      }
      if exists i :: 0 <= i < |entries| && entries[i].0 == name {
        var i :| 0 <= i < |entries| && entries[i].0 == name;
        if i < n {
          assert init[i].0 == name;
        }
      }
    }
  }

  /** Every name the reverse map returns is listed with that attribute. */
  lemma {:induction false} ReverseMapValue(entries: seq<(string, Attribute)>, a: Attribute) returns (i: int)
    requires a in ReverseMap(entries)
    ensures 0 <= i < |entries| && entries[i] == (ReverseMap(entries)[a], a)
  {
    var n := |entries| - 1;
    var init := entries[..n];
    if a in ReverseMap(init) {
      i := ReverseMapValue(init, a);
      assert init[i] == entries[i];
    } else {
      i := n;
    }
  }

  /** The reverse map keeps the first name listed for an attribute. */
  lemma {:induction false} ReverseMapFirst(entries: seq<(string, Attribute)>, i: int)
    requires 0 <= i < |entries| && forall j :: 0 <= j < i ==> entries[j].1 != entries[i].1
    ensures entries[i].1 in ReverseMap(entries) && ReverseMap(entries)[entries[i].1] == entries[i].0
  {
    var n := |entries| - 1;
    var init := entries[..n];
    if i < n {
      assert init[i] == entries[i];
      ReverseMapFirst(init, i);
    } else {
      if entries[i].1 in ReverseMap(init) {
        var j := ReverseMapValue(init, entries[i].1);
        assert false;
      }
    }
  }

  /** The name written for an attribute reads back as that attribute. */
  lemma {:induction false} ReverseThenForward(entries: seq<(string, Attribute)>, a: Attribute)
    requires DistinctKeys(entries) && a in ReverseMap(entries)
    ensures ReverseMap(entries)[a] in ForwardMap(entries)
    ensures ForwardMap(entries)[ReverseMap(entries)[a]] == a
  {
    var i := ReverseMapValue(entries, a);
    ForwardMapLookup(entries, i);
  }

  /** Both names of GENERIC_MAX_HEALTH are accepted, and writing it uses
      the first one. */
  lemma MaxHealthNames()
    ensures "generic.maxHealth" in PRE_1_16_ATTRIBUTES_MAP
      && PRE_1_16_ATTRIBUTES_MAP["generic.maxHealth"] == GENERIC_MAX_HEALTH
    ensures "Max Health" in PRE_1_16_ATTRIBUTES_MAP
      && PRE_1_16_ATTRIBUTES_MAP["Max Health"] == GENERIC_MAX_HEALTH
    ensures GENERIC_MAX_HEALTH in PRE_1_16_ATTRIBUTES_RMAP
      && PRE_1_16_ATTRIBUTES_RMAP[GENERIC_MAX_HEALTH] == "generic.maxHealth"
  {
    LegacyKeysDistinct();
    ForwardMapLookup(PRE_1_16_ATTRIBUTES, 0);
    ForwardMapLookup(PRE_1_16_ATTRIBUTES, 1);
    ReverseMapFirst(PRE_1_16_ATTRIBUTES, 0);
  }

  /** Every listed name, internal or display, is accepted. */
  lemma EveryLegacyNameAccepted(i: int)
    requires 0 <= i < |PRE_1_16_ATTRIBUTES|
    ensures PRE_1_16_ATTRIBUTES[i].0 in PRE_1_16_ATTRIBUTES_MAP
      && PRE_1_16_ATTRIBUTES_MAP[PRE_1_16_ATTRIBUTES[i].0] == PRE_1_16_ATTRIBUTES[i].1
  {
    LegacyKeysDistinct();
    ForwardMapLookup(PRE_1_16_ATTRIBUTES, i);
  }

  // ---------------------------------------------------------------------
  // Modifiers and properties.

  datatype Operation = ADDITION | MULTIPLY_BASE | MULTIPLY_TOTAL

  /** Operation.VALUES, in declaration order. */
  const VALUES: seq<Operation> := [ADDITION, MULTIPLY_BASE, MULTIPLY_TOTAL]

  function Ordinal(op: Operation): (i: nat)
    ensures i < |VALUES| && VALUES[i] == op
  {
    match op
    case ADDITION => 0
    case MULTIPLY_BASE => 1
    case MULTIPLY_TOTAL => 2
  }

  /** VALUES[index]: an index outside the array is an error. */
  function OperationAt(index: int): (r: Option<Operation>)
    ensures r.Some? <==> 0 <= index < |VALUES|
    ensures r.Some? ==> Ordinal(r.value) == index
  {
    if 0 <= index < |VALUES| then Some(VALUES[index]) else None
  }

  datatype PropertyModifier = PropertyModifier(uuid: UUID, amount: F64, operation: Operation)

  /** A property; its attribute is null when the name or id read for it is
      unknown. */
  datatype Property = Property(attribute: Option<Attribute>, value: F64, modifiers: seq<PropertyModifier>)

  /** What the packet resolves attributes with: the Attributes registry's
      ids at a version and its lookup by name, and the table of pre-1.16
      names. The packet always uses PRE_1_16_ATTRIBUTES (PacketLookup);
      the read-after-write lemmas hold for any table whose names are
      distinct and short enough to read back. */
  datatype AttributeLookup = AttributeLookup(ids: Registry<Attribute>, names: map<string, Attribute>,
                                             legacy: seq<(string, Attribute)>)
  {
    /** Attributes.getByName: null for a name nobody registered. */
    function ByName(name: string): Option<Attribute> {
      if name in names then Some(names[name]) else None
    }

    /** The legacy table's name lookup: null for an unlisted name. */
    function ByLegacyName(name: string): Option<Attribute> {
      var m := ForwardMap(legacy);
      if name in m then Some(m[name]) else None
    }
  }

  function PacketLookup(ids: Registry<Attribute>, names: map<string, Attribute>): AttributeLookup {
    AttributeLookup(ids, names, PRE_1_16_ATTRIBUTES)
  }

  // ---------------------------------------------------------------------
  // Reading.

  /** An operation byte must index VALUES. */
  function ReadModifierAt(s: seq<byte>, pos: nat): (r: Option<(PropertyModifier, nat)>)
    ensures r.Some? ==> r.value.1 == pos + 25 <= |s|
  {
    match ReadUUID(s, pos)
    case None => None
    case Some((uuid, p)) =>
      match ReadDouble(s, p)
      case None => None
      case Some((amount, q)) =>
        match ReadByte(s, q)
        case None => None
        case Some((index, t)) =>
          match OperationAt(index)
          case None => None
          case Some(op) => Some((PropertyModifier(uuid, amount, op), t))
  }

  lemma ModifierReaderBounded()
    ensures Bounded(ReadModifierAt)
  {
  }

  /** The attribute, by the encoding the version uses; an unknown id or
      name gives a null attribute. */
  function ReadAttributeAt(s: seq<byte>, pos: nat, v: ServerVersion, reg: AttributeLookup): (r: Option<(Option<Attribute>, nat)>)
    requires pos <= |s|
    ensures r.Some? ==> pos < r.value.1 <= |s|
  {
    if IsNewerThanOrEquals(v, V_1_20_5) then
      match ReadVarInt(s, pos)
      case None => None
      case Some((id, p)) => Some((reg.ids.byId(ToClientVersion(v), id), p))
    else if IsNewerThanOrEquals(v, V_1_16) then
      match ReadIdentifierAt(s, pos)
      case None => None
      case Some((name, p)) => Some((reg.ByName(name), p))
    else
      match Wrapper.ReadStringAt(s, pos, 64)
      case StringFailed(_, _) => None
      case StringOk(name, p) => Some((reg.ByLegacyName(name), p))
  }

  /** The modifier count: a short on 1.7.10, a varint otherwise. */
  function ReadModifierCountAt(s: seq<byte>, pos: nat, v: ServerVersion): (r: Option<(int32, nat)>)
    ensures r.Some? ==> pos < r.value.1 <= |s|
  {
    if v == V_1_7_10 then
      match ReadShort(s, pos) case None => None case Some((n, p)) => Some((n as int32, p))
    else ReadVarInt(s, pos)
  }

  /** `n` modifiers in sequence from `pos`. */
  function ReadModifiersAt(s: seq<byte>, pos: nat, n: nat): (r: Option<(seq<PropertyModifier>, nat)>)
    ensures r.Some? ==> |r.value.0| == n
  {
    ReadListAt(s, pos, n, ReadModifierAt)
  }

  /** The modifier list: its count, then that many modifiers; a negative
      count is refused by the list allocation. */
  function ReadModifierListAt(s: seq<byte>, pos: nat, v: ServerVersion): (r: Option<(seq<PropertyModifier>, nat)>)
    ensures r.Some? ==> pos < r.value.1 <= |s|
  {
    match ReadModifierCountAt(s, pos, v)
    case None => None
    case Some((n, t)) =>
      if n < 0 then None
      else
        ModifierReaderBounded();
        ReadListBounded(s, t, n, ReadModifierAt);
        ReadModifiersAt(s, t, n)
  }

  /** One property: attribute, base value, modifier list. */
  function ReadPropertyAt(s: seq<byte>, pos: nat, v: ServerVersion, reg: AttributeLookup): (r: Option<(Property, nat)>)
    requires pos <= |s|
    ensures r.Some? ==> pos < r.value.1 <= |s|
  {
    match ReadAttributeAt(s, pos, v, reg)
    case None => None
    case Some((attribute, p)) =>
      match ReadDouble(s, p)
      case None => None
      case Some((value, q)) =>
        match ReadModifierListAt(s, q, v)
        case None => None
        case Some((ms, u)) => Some((Property(attribute, value, ms), u))
  }

  /** The body of the property loop, as an element reader. */
  function PropertyReader(v: ServerVersion, reg: AttributeLookup): (seq<byte>, nat) -> Option<(Property, nat)> {
    (s: seq<byte>, p: nat) => if p <= |s| then ReadPropertyAt(s, p, v, reg) else None
  }

  lemma PropertyReaderBounded(v: ServerVersion, reg: AttributeLookup)
    ensures Bounded(PropertyReader(v, reg))
  {
  }

  /** `n` properties in sequence from `pos`. */
  function ReadPropertiesAt(s: seq<byte>, pos: nat, n: nat, v: ServerVersion, reg: AttributeLookup): (r: Option<(seq<Property>, nat)>)
    ensures r.Some? ==> |r.value.0| == n
  {
    ReadListAt(s, pos, n, PropertyReader(v, reg))
  }

  /** The entity id: an int on 1.7.10, a varint otherwise. */
  function ReadEntityIdAt(s: seq<byte>, pos: nat, v: ServerVersion): (r: Option<(int32, nat)>)
    ensures r.Some? ==> pos < r.value.1 <= |s|
  {
    if v == V_1_7_10 then ReadInt(s, pos) else ReadVarInt(s, pos)
  }

  /** The property count: a varint from 1.17, an int before. */
  function ReadPropertyCountAt(s: seq<byte>, pos: nat, v: ServerVersion): (r: Option<(int32, nat)>)
    ensures r.Some? ==> pos < r.value.1 <= |s|
  {
    if IsNewerThanOrEquals(v, V_1_17) then ReadVarInt(s, pos) else ReadInt(s, pos)
  }

  /** read(): entity id, property count, then the properties; a negative
      property count is refused by the list allocation. */
  function ReadPacketAt(s: seq<byte>, pos: nat, v: ServerVersion, reg: AttributeLookup): (r: Option<((int32, seq<Property>), nat)>)
    ensures r.Some? ==> pos < r.value.1 <= |s|
  {
    match ReadEntityIdAt(s, pos, v)
    case None => None
    case Some((id, p)) =>
      match ReadPropertyCountAt(s, p, v)
      case None => None
      case Some((n, q)) =>
        if n < 0 then None
        else
          PropertyReaderBounded(v, reg);
          ReadListBounded(s, q, n, PropertyReader(v, reg));
          match ReadPropertiesAt(s, q, n, v, reg)
          case None => None
          case Some((ps, t)) => Some(((id, ps), t))
  }

  /** Properties come out in wire order and as many as the count said. */
  lemma ReadPacketCounts(s: seq<byte>, pos: nat, v: ServerVersion, reg: AttributeLookup)
    requires ReadPacketAt(s, pos, v, reg).Some?
    ensures ReadEntityIdAt(s, pos, v).Some?
    ensures var p := ReadEntityIdAt(s, pos, v).value.1;
      ReadPropertyCountAt(s, p, v).Some?
      && |ReadPacketAt(s, pos, v, reg).value.0.1| == ReadPropertyCountAt(s, p, v).value.0
  {
  }

  /** Before 1.16 an unlisted name is not an error: the property is read
      with a null attribute. */
  lemma UnknownLegacyNameIsNull(s: seq<byte>, pos: nat, v: ServerVersion, reg: AttributeLookup)
    requires pos <= |s| && IsOlderThan(v, V_1_16)
    requires Wrapper.ReadStringAt(s, pos, 64).StringOk?
    requires forall i :: 0 <= i < |reg.legacy| ==> reg.legacy[i].0 != Wrapper.ReadStringAt(s, pos, 64).value
    ensures ReadAttributeAt(s, pos, v, reg) == Some((None, Wrapper.ReadStringAt(s, pos, 64).next))
  {
    ForwardMapKeys(reg.legacy, Wrapper.ReadStringAt(s, pos, 64).value);
  }

  // ---------------------------------------------------------------------
  // Writing.

  function EncodeModifier(m: PropertyModifier): (r: seq<byte>)
    ensures |r| == 25
  {
    EncodeUUID(m.uuid) + EncodeDouble(m.amount) + EncodeByte(TruncateToByte(Ordinal(m.operation)))
  }

  /** The attribute can be written at `v`: it is not null and has the form
      the version needs (a registry id, a resource location of legal
      length, a name in the legacy table that the string writer accepts). */
  predicate AttributeEncodable(v: ServerVersion, reg: AttributeLookup, a: Option<Attribute>) {
    a.Some?
    && (IsNewerThanOrEquals(v, V_1_20_5) ==> reg.ids.idOf(a.value, ToClientVersion(v)).Some?)
    && (IsOlderThan(v, V_1_20_5) && IsNewerThanOrEquals(v, V_1_16) ==> IsIdentifier(a.value.name))
    && (IsOlderThan(v, V_1_16) ==>
          a.value in ReverseMap(reg.legacy) && |Utf8.Encode(ReverseMap(reg.legacy)[a.value])| < TWO_31)
  }

  /** Legacy names are written with the string writer's default limit and
      read back with a limit of 64. */
  lemma LegacyNameWritable(a: Attribute)
    requires a in PRE_1_16_ATTRIBUTES_RMAP
    ensures Utf8.Utf16Length(PRE_1_16_ATTRIBUTES_RMAP[a]) <= 64
    ensures |Utf8.Encode(PRE_1_16_ATTRIBUTES_RMAP[a])| < TWO_31
  {
    var i := ReverseMapValue(PRE_1_16_ATTRIBUTES, a);
    LegacyNamesShort();
    Utf8.EncodedLengthBound(PRE_1_16_ATTRIBUTES_RMAP[a]);
  }

  function EncodeAttribute(v: ServerVersion, reg: AttributeLookup, a: Option<Attribute>): seq<byte>
    requires AttributeEncodable(v, reg, a)
  {
    if IsNewerThanOrEquals(v, V_1_20_5) then EncodeVarInt(reg.ids.idOf(a.value, ToClientVersion(v)).value)
    else if IsNewerThanOrEquals(v, V_1_16) then EncodeIdentifier(a.value.name)
    else Wrapper.EncodeString(ReverseMap(reg.legacy)[a.value])
  }

  /** Modifier counts are written with writeShort on 1.7.10, so only
      counts below 2^15 survive the cast. */
  function ModifierLimit(v: ServerVersion): int {
    if v == V_1_7_10 then TWO_15 else TWO_31
  }

  function EncodeModifierCount(v: ServerVersion, n: nat): seq<byte>
    requires n < TWO_31
  {
    if v == V_1_7_10 then EncodeShort(TruncateToShort(n)) else EncodeVarInt(n)
  }

  /** The modifiers themselves, one after the other. */
  function EncodeModifiers(ms: seq<PropertyModifier>): seq<byte> {
    EncodeList(ms, EncodeModifier)
  }

  function EncodeModifierList(v: ServerVersion, ms: seq<PropertyModifier>): seq<byte>
    requires |ms| < TWO_31
  {
    EncodeModifierCount(v, |ms|) + EncodeModifiers(ms)
  }

  predicate PropertyEncodable(v: ServerVersion, reg: AttributeLookup, p: Property) {
    AttributeEncodable(v, reg, p.attribute) && |p.modifiers| < TWO_31
  }

  function EncodeProperty(v: ServerVersion, reg: AttributeLookup, p: Property): seq<byte>
    requires PropertyEncodable(v, reg, p)
  {
    EncodeAttribute(v, reg, p.attribute) + EncodeDouble(p.value) + EncodeModifierList(v, p.modifiers)
  }

  /** The body of the write loop, as an element encoder. */
  function PropertyEncoder(v: ServerVersion, reg: AttributeLookup): Property --> seq<byte> {
    (p: Property) requires PropertyEncodable(v, reg, p) => EncodeProperty(v, reg, p)
  }

  predicate PacketEncodable(v: ServerVersion, reg: AttributeLookup, ps: seq<Property>) {
    |ps| < TWO_31 && forall i :: 0 <= i < |ps| ==> PropertyEncodable(v, reg, ps[i])
  }

  function EncodeEntityId(v: ServerVersion, id: int32): seq<byte> {
    if v == V_1_7_10 then EncodeInt(id) else EncodeVarInt(id)
  }

  function EncodePropertyCount(v: ServerVersion, n: int32): seq<byte> {
    if IsNewerThanOrEquals(v, V_1_17) then EncodeVarInt(n) else EncodeInt(n)
  }

  /** The properties themselves, one after the other. */
  function EncodeProperties(v: ServerVersion, reg: AttributeLookup, ps: seq<Property>): seq<byte>
    requires forall i :: 0 <= i < |ps| ==> PropertyEncodable(v, reg, ps[i])
  {
    EncodeList(ps, PropertyEncoder(v, reg))
  }

  /** write(): the same gates as read(). */
  function EncodePacket(v: ServerVersion, reg: AttributeLookup, id: int32, ps: seq<Property>): seq<byte>
    requires PacketEncodable(v, reg, ps)
  {
    EncodeEntityId(v, id) + EncodePropertyCount(v, |ps|) + EncodeProperties(v, reg, ps)
  }

  // ---------------------------------------------------------------------
  // Read-after-write.

  lemma ReadEncodeModifier(s: seq<byte>, pos: nat, m: PropertyModifier)
    requires Placed(s, pos, EncodeModifier(m))
    ensures ReadModifierAt(s, pos) == Some((m, pos + 25))
  {
    var a, b, c := EncodeUUID(m.uuid), EncodeDouble(m.amount), EncodeByte(TruncateToByte(Ordinal(m.operation)));
    PlacedSplit3(s, pos, a, b, c);
    ReadEncodeUUID(s, pos, m.uuid);
    ReadEncodeDouble(s, pos + 16, m.amount);
    ReadEncodeByte(s, pos + 24, TruncateToByte(Ordinal(m.operation)));
  }

  /** Every modifier reads back wherever it is written. */
  lemma ModifierReadsBack(m: PropertyModifier)
    ensures ReadsBack(ReadModifierAt, EncodeModifier, m)
  {
    forall s: seq<byte>, p: nat | Placed(s, p, EncodeModifier(m))
      ensures ReadModifierAt(s, p) == Some((m, After(p, EncodeModifier(m))))
    {
      ReadEncodeModifier(s, p, m);
    }
  }

  /** The attribute written reads back as itself: the registry, the name
      lookup or the legacy table resolves what was written. */
  predicate AttributeResolves(v: ServerVersion, reg: AttributeLookup, a: Option<Attribute>) {
    AttributeEncodable(v, reg, a)
    && (IsNewerThanOrEquals(v, V_1_20_5) ==>
          reg.ids.byId(ToClientVersion(v), reg.ids.idOf(a.value, ToClientVersion(v)).value) == Some(a.value))
    && (IsOlderThan(v, V_1_20_5) && IsNewerThanOrEquals(v, V_1_16) ==> reg.ByName(a.value.name) == Some(a.value))
    && (IsOlderThan(v, V_1_16) ==>
          DistinctKeys(reg.legacy) && Utf8.Utf16Length(ReverseMap(reg.legacy)[a.value]) <= 64)
  }

  lemma ReadEncodeAttributeById(s: seq<byte>, pos: nat, v: ServerVersion, reg: AttributeLookup, a: Option<Attribute>)
    requires IsNewerThanOrEquals(v, V_1_20_5)
    requires AttributeResolves(v, reg, a) && Placed(s, pos, EncodeAttribute(v, reg, a))
    ensures ReadAttributeAt(s, pos, v, reg) == Some((a, After(pos, EncodeAttribute(v, reg, a))))
  {
    ReadEncodeVarInt(s, pos, reg.ids.idOf(a.value, ToClientVersion(v)).value);
  }

  lemma ReadEncodeAttributeByName(s: seq<byte>, pos: nat, v: ServerVersion, reg: AttributeLookup, a: Option<Attribute>)
    requires IsOlderThan(v, V_1_20_5) && IsNewerThanOrEquals(v, V_1_16)
    requires AttributeResolves(v, reg, a) && Placed(s, pos, EncodeAttribute(v, reg, a))
    ensures ReadAttributeAt(s, pos, v, reg) == Some((a, After(pos, EncodeAttribute(v, reg, a))))
  {
    ReadEncodeIdentifier(s, pos, a.value.name);
  }

  lemma ReadEncodeAttributeLegacy(s: seq<byte>, pos: nat, v: ServerVersion, reg: AttributeLookup, a: Option<Attribute>)
    requires IsOlderThan(v, V_1_16)
    requires AttributeResolves(v, reg, a) && Placed(s, pos, EncodeAttribute(v, reg, a))
    ensures ReadAttributeAt(s, pos, v, reg) == Some((a, After(pos, EncodeAttribute(v, reg, a))))
  {
    Wrapper.ReadEncodeString(s, pos, ReverseMap(reg.legacy)[a.value], 64);
    ReverseThenForward(reg.legacy, a.value);
  }

  lemma ReadEncodeAttribute(s: seq<byte>, pos: nat, v: ServerVersion, reg: AttributeLookup, a: Option<Attribute>)
    requires AttributeResolves(v, reg, a) && Placed(s, pos, EncodeAttribute(v, reg, a))
    ensures ReadAttributeAt(s, pos, v, reg) == Some((a, After(pos, EncodeAttribute(v, reg, a))))
  {
    if IsNewerThanOrEquals(v, V_1_20_5) {
      ReadEncodeAttributeById(s, pos, v, reg, a);
    } else if IsNewerThanOrEquals(v, V_1_16) {
      ReadEncodeAttributeByName(s, pos, v, reg, a);
    } else {
      ReadEncodeAttributeLegacy(s, pos, v, reg, a);
    }
  }

  lemma ReadEncodeModifierCount(s: seq<byte>, pos: nat, v: ServerVersion, n: nat)
    requires n < ModifierLimit(v) && Placed(s, pos, EncodeModifierCount(v, n))
    ensures ReadModifierCountAt(s, pos, v) == Some((n as int32, After(pos, EncodeModifierCount(v, n))))
  {
    if v == V_1_7_10 {
      ReadEncodeShort(s, pos, n);
    } else {
      ReadEncodeVarInt(s, pos, n);
    }
  }

  /** The list read is the count read followed by that many modifiers. */
  lemma ReadModifierListSteps(s: seq<byte>, pos: nat, v: ServerVersion, n: int32, t: nat, ms: seq<PropertyModifier>, q: nat)
    requires ReadModifierCountAt(s, pos, v) == Some((n, t)) && 0 <= n
    requires ReadModifiersAt(s, t, n) == Some((ms, q))
    ensures ReadModifierListAt(s, pos, v) == Some((ms, q))
  {
  }

  /** Every modifier in the list reads back wherever it is written. */
  lemma ModifiersReadBack(ms: seq<PropertyModifier>)
    ensures forall i :: 0 <= i < |ms| ==> ReadsBack(ReadModifierAt, EncodeModifier, ms[i])
  {
    forall i | 0 <= i < |ms|
      ensures ReadsBack(ReadModifierAt, EncodeModifier, ms[i])
    {
      ModifierReadsBack(ms[i]);
    }
  }

  /** The modifiers read back in order. */
  lemma ReadEncodeModifiers(s: seq<byte>, pos: nat, ms: seq<PropertyModifier>)
    requires Placed(s, pos, EncodeModifiers(ms))
    ensures ReadModifiersAt(s, pos, |ms|) == Some((ms, After(pos, EncodeModifiers(ms))))
  {
    ModifiersReadBack(ms);
    ReadEncodeList(s, pos, ms, ReadModifierAt, EncodeModifier);
  }

  /** A modifier list reads back in order when its count fits the
      version's count field. */
  lemma ReadEncodeModifierList(s: seq<byte>, pos: nat, v: ServerVersion, ms: seq<PropertyModifier>)
    requires |ms| < ModifierLimit(v) && Placed(s, pos, EncodeModifierList(v, ms))
    ensures ReadModifierListAt(s, pos, v) == Some((ms, After(pos, EncodeModifierList(v, ms))))
  {
    var a, b := EncodeModifierCount(v, |ms|), EncodeModifiers(ms);
    PlacedSplit(s, pos, a, b);
    var p1 := After(pos, a);
    var p2 := After(p1, b);
    ReadEncodeModifierCount(s, pos, v, |ms|);
    ReadEncodeModifiers(s, p1, ms);
    ReadModifierListSteps(s, pos, v, |ms| as int32, p1, ms, p2);
    assert p2 == After(pos, EncodeModifierList(v, ms));
  }

  /** What a property needs beyond being writable to read back as itself:
      its attribute resolves and its modifier count survives the count
      field. */
  predicate PropertyRoundTrips(v: ServerVersion, reg: AttributeLookup, p: Property) {
    PropertyEncodable(v, reg, p) && AttributeResolves(v, reg, p.attribute) && |p.modifiers| < ModifierLimit(v)
  }

  /** A property read is its three reads in sequence. */
  lemma ReadPropertySteps(s: seq<byte>, pos: nat, v: ServerVersion, reg: AttributeLookup, p: Property,
                          p1: nat, p2: nat, p3: nat)
    requires pos <= |s| && ReadAttributeAt(s, pos, v, reg) == Some((p.attribute, p1))
    requires ReadDouble(s, p1) == Some((p.value, p2))
    requires ReadModifierListAt(s, p2, v) == Some((p.modifiers, p3))
    ensures ReadPropertyAt(s, pos, v, reg) == Some((p, p3))
  {
  }

  /** One property reads back: attribute, base value, modifiers. */
  lemma ReadEncodeProperty(s: seq<byte>, pos: nat, v: ServerVersion, reg: AttributeLookup, p: Property)
    requires PropertyRoundTrips(v, reg, p) && Placed(s, pos, EncodeProperty(v, reg, p))
    ensures pos <= |s| && ReadPropertyAt(s, pos, v, reg) == Some((p, After(pos, EncodeProperty(v, reg, p))))
  {
    var a, b, c := EncodeAttribute(v, reg, p.attribute), EncodeDouble(p.value), EncodeModifierList(v, p.modifiers);
    assert EncodeProperty(v, reg, p) == a + b + c;
    ReadPropertyParts(s, pos, v, reg, p, a, b, c);
  }

  /** The three parts of a property, placed one after the other, read back
      as the property. */
  lemma ReadPropertyParts(s: seq<byte>, pos: nat, v: ServerVersion, reg: AttributeLookup, p: Property,
                          a: seq<byte>, b: seq<byte>, c: seq<byte>)
    requires AttributeResolves(v, reg, p.attribute) && |p.modifiers| < ModifierLimit(v)
    requires a == EncodeAttribute(v, reg, p.attribute) && b == EncodeDouble(p.value)
    requires c == EncodeModifierList(v, p.modifiers)
    requires Placed(s, pos, a + b + c)
    ensures pos <= |s| && ReadPropertyAt(s, pos, v, reg) == Some((p, After(pos, a + b + c)))
  {
    PlacedSplit3(s, pos, a, b, c);
    var p1 := After(pos, a);
    var p2 := After(p1, b);
    var p3 := After(p2, c);
    ReadEncodeAttribute(s, pos, v, reg, p.attribute);
    ReadEncodeDouble(s, p1, p.value);
    ReadEncodeModifierList(s, p2, v, p.modifiers);
    ReadPropertySteps(s, pos, v, reg, p, p1, p2, p3);
    assert p3 == After(pos, a + b + c);
  }

  /** Every property that round-trips reads back wherever it is written. */
  lemma PropertyReadsBack(v: ServerVersion, reg: AttributeLookup, p: Property)
    requires PropertyRoundTrips(v, reg, p)
    ensures PropertyEncoder(v, reg).requires(p) && ReadsBack(PropertyReader(v, reg), PropertyEncoder(v, reg), p)
  {
    forall s: seq<byte>, q: nat | Placed(s, q, EncodeProperty(v, reg, p))
      ensures PropertyReader(v, reg)(s, q) == Some((p, After(q, EncodeProperty(v, reg, p))))
    {
      ReadEncodeProperty(s, q, v, reg, p);
    }
  }

  predicate AllRoundTrip(v: ServerVersion, reg: AttributeLookup, ps: seq<Property>) {
    forall i :: 0 <= i < |ps| ==> PropertyRoundTrips(v, reg, ps[i])
  }

  /** The packet read is its three reads in sequence. */
  lemma ReadPacketSteps(s: seq<byte>, pos: nat, v: ServerVersion, reg: AttributeLookup,
                        id: int32, p: nat, n: int32, q: nat, ps: seq<Property>, t: nat)
    requires ReadEntityIdAt(s, pos, v) == Some((id, p))
    requires ReadPropertyCountAt(s, p, v) == Some((n, q)) && 0 <= n
    requires ReadPropertiesAt(s, q, n, v, reg) == Some((ps, t))
    ensures ReadPacketAt(s, pos, v, reg) == Some(((id, ps), t))
  {
  }

  /** The entity id and the property count read back from the packet's
      head, whatever follows them. */
  lemma ReadEncodePacketHead(s: seq<byte>, pos: nat, v: ServerVersion, id: int32, n: int32, rest: seq<byte>)
    requires Placed(s, pos, EncodeEntityId(v, id) + EncodePropertyCount(v, n) + rest)
    ensures ReadEntityIdAt(s, pos, v) == Some((id, After(pos, EncodeEntityId(v, id))))
    ensures ReadPropertyCountAt(s, After(pos, EncodeEntityId(v, id)), v)
      == Some((n, After(After(pos, EncodeEntityId(v, id)), EncodePropertyCount(v, n))))
  {
    var a, b := EncodeEntityId(v, id), EncodePropertyCount(v, n);
    PlacedSplit(s, pos, a + b, rest);
    PlacedSplit(s, pos, a, b);
    if v == V_1_7_10 {
      ReadEncodeInt(s, pos, id);
    } else {
      ReadEncodeVarInt(s, pos, id);
    }
    var p1 := After(pos, a);
    if IsNewerThanOrEquals(v, V_1_17) {
      ReadEncodeVarInt(s, p1, n);
    } else {
      ReadEncodeInt(s, p1, n);
    }
  }

  /** Every property in the list reads back wherever it is written. */
  lemma PropertiesReadBack(v: ServerVersion, reg: AttributeLookup, ps: seq<Property>)
    requires AllRoundTrip(v, reg, ps)
    ensures forall i :: 0 <= i < |ps| ==>
      PropertyEncoder(v, reg).requires(ps[i]) && ReadsBack(PropertyReader(v, reg), PropertyEncoder(v, reg), ps[i])
  {
    forall i | 0 <= i < |ps|
      ensures PropertyEncoder(v, reg).requires(ps[i]) && ReadsBack(PropertyReader(v, reg), PropertyEncoder(v, reg), ps[i])
    {
      PropertyReadsBack(v, reg, ps[i]);
    }
  }

  /** The properties read back in order. */
  lemma ReadEncodeProperties(s: seq<byte>, pos: nat, v: ServerVersion, reg: AttributeLookup, ps: seq<Property>)
    requires AllRoundTrip(v, reg, ps) && Placed(s, pos, EncodeProperties(v, reg, ps))
    ensures ReadPropertiesAt(s, pos, |ps|, v, reg) == Some((ps, After(pos, EncodeProperties(v, reg, ps))))
  {
    PropertiesReadBack(v, reg, ps);
    ReadEncodeList(s, pos, ps, PropertyReader(v, reg), PropertyEncoder(v, reg));
  }

  /** Read-after-write for every version: the entity id and every property
      (attribute, value, modifiers in order) come back unchanged. */
  lemma ReadEncodePacket(s: seq<byte>, pos: nat, v: ServerVersion, reg: AttributeLookup, id: int32, ps: seq<Property>)
    requires PacketEncodable(v, reg, ps) && AllRoundTrip(v, reg, ps)
    requires Placed(s, pos, EncodePacket(v, reg, id, ps))
    ensures ReadPacketAt(s, pos, v, reg) == Some(((id, ps), After(pos, EncodePacket(v, reg, id, ps))))
  {
    var n: int32 := |ps|;
    var a, b, c := EncodeEntityId(v, id), EncodePropertyCount(v, n), EncodeProperties(v, reg, ps);
    var p1 := After(pos, a);
    var p2 := After(p1, b);
    var p3 := After(p2, c);
    ReadEncodePacketHead(s, pos, v, id, n, c);
    PlacedSplit3(s, pos, a, b, c);
    ReadEncodeProperties(s, p2, v, reg, ps);
    ReadPacketSteps(s, pos, v, reg, id, p1, n, p2, ps, p3);
    assert p3 == After(pos, EncodePacket(v, reg, id, ps));
  }
}
