/** The enchantment-type registry. Each declared key becomes an entry that
    is registered under its namespaced name and, for every data index
    (generation of the id layout) in which the bundled mappings give it an
    id, under that id. Names are looked up through a rename table first;
    ids are looked up only in the map of the version's data index. */
module EnchantmentTypes {
  import opened Wire
  import opened Versions

  /** Every declared key lives in the "minecraft" namespace. */
  const NAMESPACE: string := "minecraft:"

  function Name(key: string): string {
    NAMESPACE + key
  }

  lemma NameInjective(k1: string, k2: string)
    ensures Name(k1) == Name(k2) <==> k1 == k2
  {
    if Name(k1) == Name(k2) {
      assert k1 == Name(k1)[|NAMESPACE|..];
      assert k2 == Name(k2)[|NAMESPACE|..];
    }
  }

  /** Names renamed across versions, old name to current name. */
  const STRING_UPDATER: map<string, string> := map["minecraft:sweeping" := "minecraft:sweeping_edge"]

  /** The keys declared at start-up, in declaration order. */
  const KEYS: seq<string> := [
    "protection", "fire_protection", "feather_falling", "blast_protection",
    "projectile_protection", "respiration", "aqua_affinity", "thorns",
    "depth_strider", "frost_walker", "binding_curse", "soul_speed",
    "swift_sneak", "sharpness", "smite", "bane_of_arthropods", "knockback",
    "fire_aspect", "looting", "sweeping_edge", "efficiency", "silk_touch",
    "unbreaking", "fortune", "power", "punch", "flame", "infinity",
    "luck_of_the_sea", "lure", "loyalty", "impaling", "riptide", "channeling",
    "multishot", "quick_charge", "piercing", "mending", "vanishing_curse",
    "density", "breach", "wind_burst"]

  /** What the mapping files say about one declared key: its namespaced
      name and its id in each data index (None where it is absent). */
  datatype TypesBuilderData = TypesBuilderData(name: string, ids: seq<Option<int>>)

  /** A registry category's layout data: the versions at which the id
      layout changed, oldest first, and the per-index ids the bundled
      mapping files give each key. */
  datatype TypesBuilder = TypesBuilder(breakpoints: seq<ServerVersion>, mappings: map<string, seq<Option<int>>>)
  {
    /** define(key): the key's name and ids; a key the files do not list
        has no id anywhere. */
    function Define(key: string): (d: TypesBuilderData)
      ensures d.name == Name(key)
    {
      TypesBuilderData(Name(key), if key in mappings then mappings[key] else [])
    }

    /** getDataIndex: the generation a version falls in. */
    function DataIndex(v: ClientVersion): nat {
      match v
      case UNKNOWN => 0
      case Release(s) => IndexIn(breakpoints, s)
    }
  }

  predicate Ascending(bs: seq<ServerVersion>) {
    forall i, j :: 0 <= i < j < |bs| ==> bs[i] < bs[j]
  }

  /** The position of the last breakpoint at or before `s`; 0 when `s`
      predates them all. */
  function IndexIn(bs: seq<ServerVersion>, s: ServerVersion): nat {
    if |bs| <= 1 then 0
    else if bs[|bs| - 1] <= s then |bs| - 1
    else IndexIn(bs[..|bs| - 1], s)
  }

  /** The index names the generation that contains `s`: it starts at or
      before `s` (or is the first), and the next one starts after `s`. */
  lemma {:induction false} IndexInBucket(bs: seq<ServerVersion>, s: ServerVersion)
    requires Ascending(bs) && |bs| > 0
    ensures IndexIn(bs, s) < |bs|
    ensures IndexIn(bs, s) > 0 ==> bs[IndexIn(bs, s)] <= s
    ensures IndexIn(bs, s) + 1 < |bs| ==> s < bs[IndexIn(bs, s) + 1]
  {
    if |bs| > 1 && bs[|bs| - 1] > s {
      var init := bs[..|bs| - 1];
      IndexInBucket(init, s);
      var r := IndexIn(init, s);
      assert init[r] == bs[r];
      if r + 1 < |init| {
        assert init[r + 1] == bs[r + 1];
      }
    }
  }

  /** Later versions never fall in an earlier generation. */
  lemma {:induction false} IndexInMonotone(bs: seq<ServerVersion>, s1: ServerVersion, s2: ServerVersion)
    requires Ascending(bs) && s1 <= s2
    ensures IndexIn(bs, s1) <= IndexIn(bs, s2)
  {
    if |bs| > 1 {
      var init := bs[..|bs| - 1];
      if bs[|bs| - 1] > s2 {
        IndexInMonotone(init, s1, s2);
      } else if bs[|bs| - 1] > s1 {
        IndexInBucket(init, s1);
      }
    }
  }

  /** An enchantment type: the entry that define() creates around its
      builder data. */
  datatype EnchantmentType = EnchantmentType(data: TypesBuilderData)
  {
    function GetName(): string {
      data.name
    }

    /** getId: the id in the version's data index, None where the
        mapping files give none. */
    function GetId(b: TypesBuilder, v: ClientVersion): Option<int> {
      var i := b.DataIndex(v);
      if i < |data.ids| then data.ids[i] else None
    }

    /** equals: two types are the same when their names are. */
    predicate Equals(other: EnchantmentType) {
      GetName() == other.GetName()
    }
  }

  /** Registry monotonicity: a generation is a contiguous range of
      versions, so every version between two of the same generation sees
      the same id as both. */
  lemma GenerationContiguous(e: EnchantmentType, b: TypesBuilder, s1: ServerVersion, s: ServerVersion, s2: ServerVersion)
    requires Ascending(b.breakpoints) && s1 <= s <= s2
    requires b.DataIndex(Release(s1)) == b.DataIndex(Release(s2))
    ensures e.GetId(b, Release(s)) == e.GetId(b, Release(s1)) == e.GetId(b, Release(s2))
  {
    IndexInMonotone(b.breakpoints, s1, s);
    IndexInMonotone(b.breakpoints, s, s2);
  }

  function Entry(b: TypesBuilder, key: string): (e: EnchantmentType)
    ensures e.GetName() == Name(key)
  {
    EnchantmentType(b.Define(key))
  }

  function IdMapAt(m: map<nat, map<int, EnchantmentType>>, i: nat): map<int, EnchantmentType> {
    if i in m then m[i] else map[]
  }

  /** The per-index id maps after registering `e` under each of its ids,
      index by index. */
  function WithIds(m: map<nat, map<int, EnchantmentType>>, ids: seq<Option<int>>, e: EnchantmentType)
    : map<nat, map<int, EnchantmentType>>
  {
    if ids == [] then m
    else
      var i := |ids| - 1;
      var r := WithIds(m, ids[..i], e);
      if ids[i].Some? then r[i := IdMapAt(r, i)[ids[i].value := e]] else r
  }

  /** Registering `e` touches exactly the indices where it has an id, and
      there adds that id and nothing else. */
  lemma {:induction false} WithIdsLookup(m: map<nat, map<int, EnchantmentType>>, ids: seq<Option<int>>,
                                          e: EnchantmentType, i: nat)
    ensures i in WithIds(m, ids, e) <==> i in m || (i < |ids| && ids[i].Some?)
    ensures i < |ids| && ids[i].Some? ==> WithIds(m, ids, e)[i] == IdMapAt(m, i)[ids[i].value := e]
    ensures !(i < |ids| && ids[i].Some?) && i in m ==> WithIds(m, ids, e)[i] == m[i]
  {
    if ids != [] {
      var last := |ids| - 1;
      WithIdsLookup(m, ids[..last], e, i);
      if i < last {
        assert ids[..last][i] == ids[i];
      }
    }
  }

  /** The name map once `keys` are defined in order. */
  function NamesOf(b: TypesBuilder, keys: seq<string>): map<string, EnchantmentType> {
    if keys == [] then map[]
    else
      var e := Entry(b, keys[|keys| - 1]);
      NamesOf(b, keys[..|keys| - 1])[e.GetName() := e]
  }

  /** The per-index id maps once `keys` are defined in order. */
  function IdsOf(b: TypesBuilder, keys: seq<string>): map<nat, map<int, EnchantmentType>> {
    if keys == [] then map[]
    else
      var e := Entry(b, keys[|keys| - 1]);
      WithIds(IdsOf(b, keys[..|keys| - 1]), e.data.ids, e)
  }

  /** Every defined key is found under its name, as its own entry, and
      nothing else is in the name map. */
  lemma {:induction false} NamesOfLookup(b: TypesBuilder, keys: seq<string>, name: string)
    ensures name in NamesOf(b, keys) <==> exists k :: k in keys && Name(k) == name
    ensures forall k :: k in keys && Name(k) == name ==> NamesOf(b, keys)[name] == Entry(b, k)
  {
    if keys != [] {
      var init, last := keys[..|keys| - 1], keys[|keys| - 1];
      assert keys == init + [last];
      NamesOfLookup(b, init, name);
      forall k | k in keys && Name(k) == name
        ensures NamesOf(b, keys)[name] == Entry(b, k)
      {
        NameInjective(k, last);
      }
      if name in NamesOf(b, keys) && name != Name(last) {
        var k :| k in init && Name(k) == name;
        assert k in keys;
      }
    }
  }

  /** Two keys with ids in the same data index have different ids there:
      what the mapping files must give for the id maps to be inverses. */
  ghost predicate IdsDistinct(b: TypesBuilder, keys: seq<string>) {
    forall k1, k2, i: nat :: k1 in keys && k2 in keys && k1 != k2
      && i < |b.Define(k1).ids| && i < |b.Define(k2).ids|
      && b.Define(k1).ids[i].Some? && b.Define(k2).ids[i].Some?
      ==> b.Define(k1).ids[i] != b.Define(k2).ids[i]
  }

  /** Registry inverse law: every id a defined key has in a data index
      finds that key's entry in that index's map. */
  lemma {:induction false} IdsOfInverse(b: TypesBuilder, keys: seq<string>, k: string, i: nat)
    requires IdsDistinct(b, keys) && k in keys
    requires i < |b.Define(k).ids| && b.Define(k).ids[i].Some?
    ensures i in IdsOf(b, keys) && b.Define(k).ids[i].value in IdsOf(b, keys)[i]
    ensures IdsOf(b, keys)[i][b.Define(k).ids[i].value] == Entry(b, k)
  {
    var init, last := keys[..|keys| - 1], keys[|keys| - 1];
    assert keys == init + [last];
    var e := Entry(b, last);
    WithIdsLookup(IdsOf(b, init), e.data.ids, e, i);
    if k != last {
      assert IdsDistinct(b, init);
      IdsOfInverse(b, init, k, i);
    }
  }

  /** Conversely, every id in an index's map was given in that index by a
      defined key, and maps to that key's entry. */
  lemma {:induction false} IdsOfSound(b: TypesBuilder, keys: seq<string>, i: nat, id: int)
    requires i in IdsOf(b, keys) && id in IdsOf(b, keys)[i]
    ensures exists k :: (k in keys && i < |b.Define(k).ids| && b.Define(k).ids[i] == Some(id)
                         && IdsOf(b, keys)[i][id] == Entry(b, k))
  {
    var init, last := keys[..|keys| - 1], keys[|keys| - 1];
    assert keys == init + [last];
    var ids := b.Define(last).ids;
    WithIdsLookup(IdsOf(b, init), ids, Entry(b, last), i);
    if i < |ids| && ids[i] == Some(id) {
      assert last in keys;
    } else {
      IdsOfSound(b, init, i, id);
      var k :| k in init && i < |b.Define(k).ids| && b.Define(k).ids[i] == Some(id)
        && IdsOf(b, init)[i][id] == Entry(b, k);
      assert k in keys;
    }
  }

  /** getById's outcome: the entry, no entry for the id (null in the
      source), or no id map at all for the version's data index, where the
      source dereferences a null map. */
  datatype IdLookup = Found(t: EnchantmentType) | NotFound | NoIdMap

  /** The registry's static state: the layout data, the name map and the
      per-index id maps that define() fills. */
  class EnchantmentRegistry {
    const builder: TypesBuilder
    var byName: map<string, EnchantmentType>
    var byIndex: map<nat, map<int, EnchantmentType>>

    /** The static initialiser: every key of KEYS defined in order. */
    constructor (builder: TypesBuilder)
      ensures this.builder == builder
      ensures byName == NamesOf(builder, KEYS) && byIndex == IdsOf(builder, KEYS)
    {
      this.builder := builder;
      byName := map[];
      byIndex := map[];
      new;
      var i := 0;
      while i < |KEYS|
        invariant 0 <= i <= |KEYS|
        invariant byName == NamesOf(builder, KEYS[..i]) && byIndex == IdsOf(builder, KEYS[..i])
      {
        var _ := Define(KEYS[i]);
        assert KEYS[..i + 1][..i] == KEYS[..i];
        i := i + 1;
      }
      assert KEYS[..|KEYS|] == KEYS;
    }

    /** define(key): the new entry goes into the name map and, under each
        id it has, into the id map of that data index. */
    method Define(key: string) returns (e: EnchantmentType)
      modifies this
      ensures e == Entry(builder, key)
      ensures byName == old(byName)[e.GetName() := e]
      ensures byIndex == WithIds(old(byIndex), e.data.ids, e)
    {
      e := Entry(builder, key);
      byName := byName[e.GetName() := e];
      var ids := e.data.ids;
      ghost var before := byIndex;
      var i := 0;
      while i < |ids|
        invariant 0 <= i <= |ids|
        invariant byName == old(byName)[e.GetName() := e]
        invariant byIndex == WithIds(before, ids[..i], e)
      {
        if ids[i].Some? {
          var m := if i in byIndex then byIndex[i] else map[];
          byIndex := byIndex[i := m[ids[i].value := e]];
        }
        assert ids[..i + 1][..i] == ids[..i];
        i := i + 1;
      }
      assert ids[..|ids|] == ids;
    }

    /** getByName: the rename table first, then the name map. */
    function GetByName(name: string): Option<EnchantmentType>
      reads this
    {
      var fixedName := if name in STRING_UPDATER then STRING_UPDATER[name] else name;
      if fixedName in byName then Some(byName[fixedName]) else None
    }

    /** getById: only the map of the version's data index is consulted. */
    function GetById(v: ClientVersion, id: int): IdLookup
      reads this
    {
      var index := builder.DataIndex(v);
      if index !in byIndex then NoIdMap
      else if id in byIndex[index] then Found(byIndex[index][id])
      else NotFound
    }
  }

  ghost predicate Loaded(r: EnchantmentRegistry)
    reads r
  {
    r.byName == NamesOf(r.builder, KEYS) && r.byIndex == IdsOf(r.builder, KEYS)
  }

  /** Rename stability: the old name and the current name find the same,
      defined, entry. */
  lemma SweepingRenamed(r: EnchantmentRegistry)
    requires Loaded(r)
    ensures r.GetByName("minecraft:sweeping") == r.GetByName("minecraft:sweeping_edge")
    ensures r.GetByName("minecraft:sweeping_edge") == Some(Entry(r.builder, "sweeping_edge"))
  {
    assert KEYS[19] == "sweeping_edge";
    assert Name("sweeping_edge") == "minecraft:sweeping_edge";
    NamesOfLookup(r.builder, KEYS, "minecraft:sweeping_edge");
  }

  /** A name outside the rename table is looked up as it is: the name of a
      declared key finds its entry, any other name finds nothing. */
  lemma GetByNameDeclared(r: EnchantmentRegistry, name: string)
    requires Loaded(r) && name !in STRING_UPDATER
    ensures r.GetByName(name).Some? <==> exists k :: k in KEYS && Name(k) == name
    ensures forall k :: k in KEYS && Name(k) == name ==> r.GetByName(name) == Some(Entry(r.builder, k))
  {
    NamesOfLookup(r.builder, KEYS, name);
  }

  /** Among registered types, equality by name is identity. */
  lemma EqualsIsIdentity(r: EnchantmentRegistry, a: string, b: string)
    requires Loaded(r) && r.GetByName(a).Some? && r.GetByName(b).Some?
    ensures r.GetByName(a).value.Equals(r.GetByName(b).value) <==> r.GetByName(a) == r.GetByName(b)
  {
    var fa := if a in STRING_UPDATER then STRING_UPDATER[a] else a;
    var fb := if b in STRING_UPDATER then STRING_UPDATER[b] else b;
    NamesOfLookup(r.builder, KEYS, fa);
    NamesOfLookup(r.builder, KEYS, fb);
  }

  /** Registry inverse law through the class: the id a declared type has
      at a version finds that type again at that version. */
  lemma GetByIdInverse(r: EnchantmentRegistry, k: string, v: ClientVersion)
    requires Loaded(r) && IdsDistinct(r.builder, KEYS) && k in KEYS
    requires Entry(r.builder, k).GetId(r.builder, v).Some?
    ensures r.GetById(v, Entry(r.builder, k).GetId(r.builder, v).value) == Found(Entry(r.builder, k))
  {
    IdsOfInverse(r.builder, KEYS, k, r.builder.DataIndex(v));
  }

  /** And every id found at a version is the id that the found type has
      there. */
  lemma GetByIdSound(r: EnchantmentRegistry, v: ClientVersion, id: int)
    requires Loaded(r) && r.GetById(v, id).Found?
    ensures r.GetById(v, id).t.GetId(r.builder, v) == Some(id)
  {
    IdsOfSound(r.builder, KEYS, r.builder.DataIndex(v), id);
  }
}
