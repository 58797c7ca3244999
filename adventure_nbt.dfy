/** Conversion between text components and NBT trees.

    A component is a kind (text, translatable, score, selector, keybind or
    one of the three NBT-path kinds), a style and a list of children. A
    plain text component travels as a bare NBT string; every other
    component travels as a compound whose keys name its parts. Parsing of
    resource keys, block positions and colours belongs to the text library
    and is a parameter here: each is a partial function from the string
    form to the canonical string form. */
module AdventureNbt {
  import opened Wire
  import opened NbtTags

  // ---------------------------------------------------------------------
  // Components

  datatype Decoration = Obfuscated | Bold | Strikethrough | Underlined | Italic

  /** The decoration names, in the order they are written. */
  const DECORATIONS: seq<Decoration> := [Obfuscated, Bold, Strikethrough, Underlined, Italic]

  function DecorationName(d: Decoration): string {
    match d
    case Obfuscated => "obfuscated"
    case Bold => "bold"
    case Strikethrough => "strikethrough"
    case Underlined => "underlined"
    case Italic => "italic"
  }

  datatype ClickAction =
    | OpenUrl | OpenFile | RunCommand | SuggestCommand | ChangePage | CopyToClipboard

  function ClickActionName(a: ClickAction): string {
    match a
    case OpenUrl => "open_url"
    case OpenFile => "open_file"
    case RunCommand => "run_command"
    case SuggestCommand => "suggest_command"
    case ChangePage => "change_page"
    case CopyToClipboard => "copy_to_clipboard"
  }

  /** The click action with a given name; None for an unknown name. */
  function ClickActionOf(name: string): (r: Option<ClickAction>)
    ensures r.Some? ==> ClickActionName(r.value) == name
  {
    if name == "open_url" then Some(OpenUrl)
    else if name == "open_file" then Some(OpenFile)
    else if name == "run_command" then Some(RunCommand)
    else if name == "suggest_command" then Some(SuggestCommand)
    else if name == "change_page" then Some(ChangePage)
    else if name == "copy_to_clipboard" then Some(CopyToClipboard)
    else None
  }

  datatype ClickEvent = ClickEvent(action: ClickAction, value: string)

  datatype HoverAction = ShowTextAction | ShowItemAction | ShowEntityAction

  function HoverActionName(a: HoverAction): string {
    match a
    case ShowTextAction => "show_text"
    case ShowItemAction => "show_item"
    case ShowEntityAction => "show_entity"
  }

  /** The hover action with a given name; None for an unknown name. */
  function HoverActionOf(name: string): (r: Option<HoverAction>)
    ensures r.Some? ==> HoverActionName(r.value) == name
  {
    if name == "show_text" then Some(ShowTextAction)
    else if name == "show_item" then Some(ShowItemAction)
    else if name == "show_entity" then Some(ShowEntityAction)
    else None
  }

  /** Item and entity types are resource keys, held in their string form. */
  datatype HoverEvent =
    | ShowText(text: Component)
    | ShowItem(item: string, count: int32, nbt: Option<string>)
    | ShowEntity(entityType: string, id: UUID, name: Option<Component>)
  {
    function Action(): HoverAction {
      match this
      case ShowText(_) => ShowTextAction
      case ShowItem(_, _, _) => ShowItemAction
      case ShowEntity(_, _, _) => ShowEntityAction
    }
  }

  /** The state of each decoration: not set, or set to true or false. */
  datatype Decorations = Decorations(
    obfuscated: Option<bool>,
    bold: Option<bool>,
    strikethrough: Option<bool>,
    underlined: Option<bool>,
    italic: Option<bool>)
  {
    function State(d: Decoration): Option<bool> {
      match d
      case Obfuscated => obfuscated
      case Bold => bold
      case Strikethrough => strikethrough
      case Underlined => underlined
      case Italic => italic
    }
  }

  const NO_DECORATIONS: Decorations := Decorations(None, None, None, None, None)

  /** A style. The font key and the colour are held in their string forms. */
  datatype Style = Style(
    font: Option<string>,
    color: Option<string>,
    decorations: Decorations,
    insertion: Option<string>,
    clickEvent: Option<ClickEvent>,
    hoverEvent: Option<HoverEvent>)
  {
    predicate IsEmpty() {
      this == EMPTY_STYLE
    }
  }

  const EMPTY_STYLE: Style := Style(None, None, NO_DECORATIONS, None, None, None)

  /** The kinds of component. The three NBT kinds share a path, the
      interpret flag and a separator; the block position and the storage
      key are held in their string forms. */
  datatype Kind =
    | Text(content: string)
    | Translatable(key: string, fallback: Option<string>, args: seq<Component>)
    | Score(name: string, objective: string)
    | Selector(pattern: string, separator: Option<Component>)
    | Keybind(keybind: string)
    | BlockNbt(path: string, interpret: bool, separator: Option<Component>, pos: string)
    | EntityNbt(path: string, interpret: bool, separator: Option<Component>, selector: string)
    | StorageNbt(path: string, interpret: bool, separator: Option<Component>, storage: string)
  {
    predicate IsNbt() {
      BlockNbt? || EntityNbt? || StorageNbt?
    }

    predicate HasSeparator() {
      Selector? || IsNbt()
    }
  }

  datatype Component = Component(kind: Kind, style: Style, children: seq<Component>)

  /** A text component with no style and no children. */
  function Plain(s: string): Component {
    Component(Text(s), EMPTY_STYLE, [])
  }

  // ---------------------------------------------------------------------
  // Library parsing, as parameters

  /** `key` parses a resource key, `pos` a block position and `color` a
      colour (a hex code or a colour name, after any downsampling); each
      yields the canonical string form, or None when the text library
      rejects (for keys and positions) or ignores (for colours) the string.
      `floatAsInt` and `doubleAsInt` are Java's narrowing of a float or a
      double to int. */
  datatype Serializer = Serializer(
    key: string -> Option<string>,
    pos: string -> Option<string>,
    color: string -> Option<string>,
    floatAsInt: F32 -> int32,
    doubleAsInt: F64 -> int32)

  /** Whether a missing "interpret" flag of an NBT-path component fails, as
      the code is written, or reads as false. */
  datatype Mode = AsWritten | Corrected

  // ---------------------------------------------------------------------
  // Scalars as text

  function DigitChar(d: nat): (c: char)
    requires d < 10
    ensures '0' <= c <= '9' && c as int - '0' as int == d
  {
    ('0' as int + d) as char
  }

  predicate IsDigits(r: string) {
    forall i :: 0 <= i < |r| ==> '0' <= r[i] <= '9'
  }

  /** The number a string of decimal digits denotes, most significant digit
      first. */
  function DigitsValue(r: string): nat
    requires IsDigits(r)
  {
    if r == [] then 0 else DigitsValue(r[..|r| - 1]) * 10 + (r[|r| - 1] as int - '0' as int)
  }

  /** The decimal digits of `n`: they denote `n`, and only zero is written
      with a leading '0'. */
  function Digits(n: nat): (r: string)
    ensures r != [] && IsDigits(r) && DigitsValue(r) == n
    ensures r[0] == '0' ==> n == 0 && r == "0"
  {
    if n < 10 then [DigitChar(n)]
    else
      var init := Digits(n / 10);
      var r := init + [DigitChar(n % 10)];
      assert r[..|r| - 1] == init;
      r
  }

  /** The form Java gives an int: an optional '-', then digits with no
      leading zero unless the number is zero, and never "-0". */
  predicate IsDecimal(r: string) {
    if r != [] && r[0] == '-' then |r| > 1 && IsDigits(r[1..]) && r[1] != '0'
    else r != [] && IsDigits(r) && (r[0] == '0' ==> |r| == 1)
  }

  /** The int a decimal form denotes. */
  function DecimalValue(r: string): int
    requires IsDecimal(r)
  {
    if r[0] == '-' then -(DigitsValue(r[1..]) as int) else DigitsValue(r)
  }

  /** Java's decimal form of an int (`String.valueOf`): a decimal form
      that denotes the int. */
  function DecimalText(i: int): (r: string)
    ensures IsDecimal(r) && DecimalValue(r) == i
    ensures r[0] == '-' <==> i < 0
  {
    if i < 0 then
      var r := "-" + Digits(-i);
      assert r[1..] == Digits(-i);
      r
    else Digits(i)
  }

  /** Digits without a leading zero denote at least 1. */
  lemma {:induction false} LeadingDigitPositive(r: string)
    requires r != [] && IsDigits(r) && r[0] != '0'
    ensures DigitsValue(r) >= 1
  {
    if |r| > 1 {
      LeadingDigitPositive(r[..|r| - 1]);
    }
  }

  /** Every digit string without a superfluous leading zero is the `Digits`
      of its value. */
  lemma {:induction false} DigitsOfValue(r: string)
    requires r != [] && IsDigits(r) && (r[0] == '0' ==> |r| == 1)
    ensures Digits(DigitsValue(r)) == r
  {
    if |r| > 1 {
      var init := r[..|r| - 1];
      LeadingDigitPositive(init);
      DigitsOfValue(init);
      assert r == init + [r[|r| - 1]];
    }
  }

  /** Conversely, every decimal form is the text of the int it denotes, so
      `DecimalText` yields exactly the forms that `IsDecimal` describes. */
  lemma DecimalTextOfValue(r: string)
    requires IsDecimal(r)
    ensures DecimalText(DecimalValue(r)) == r
  {
    if r[0] == '-' {
      LeadingDigitPositive(r[1..]);
      DigitsOfValue(r[1..]);
      assert r == "-" + r[1..];
    } else {
      DigitsOfValue(r);
    }
  }

  /** The int value of a number tag: a long is truncated to its low 32
      bits, floating values are narrowed by the parameter. */
  function NumberAsInt(cfg: Serializer, n: Nbt): int32
    requires n.IsNumber()
  {
    match n
    case NByte(b) => b
    case NShort(sh) => sh
    case NInt(i) => i
    case NLong(l) => Wrap32(l)
    case NFloat(f) => cfg.floatAsInt(f)
    case NDouble(d) => cfg.doubleAsInt(d)
  }

  /** The text a scalar tag stands for: a string is itself, a BYTE below 2
      is a boolean (1 is true, every other such byte false), any other
      number is the decimal form of its int value. Other tags fail. */
  function TextOf(cfg: Serializer, n: Nbt): (r: Outcome<string>)
    ensures r.Ok? <==> n.NString? || n.IsNumber()
    ensures n.NString? ==> r == Ok(n.str)
    ensures n.NByte? && n.b < 2 ==> r == Ok(if n.b == 1 then "true" else "false")
    ensures n.IsNumber() && !(n.NByte? && n.b < 2) ==>
      r.Ok? && IsDecimal(r.value) && DecimalValue(r.value) == NumberAsInt(cfg, n)
  {
    if n.NString? then Ok(n.str)
    else if n.NByte? && n.b < 2 then Ok(if n.b == 1 then "true" else "false")
    else if n.IsNumber() then Ok(DecimalText(NumberAsInt(cfg, n)))
    else Fail
  }

  // ---------------------------------------------------------------------
  // UUIDs as four ints

  /** The int array of a UUID: high then low half of the most significant
      long, then of the least significant long (arithmetic shift right by
      32, then truncation to int). */
  function SerializeUUID(u: UUID): (r: seq<int32>)
    ensures |r| == 4
  {
    [Wrap32(u.mostSigBits / TWO_32), Wrap32(u.mostSigBits),
     Wrap32(u.leastSigBits / TWO_32), Wrap32(u.leastSigBits)]
  }

  /** The long whose high half is `hi` and low half is `lo`. The low 32 bits
      of `hi << 32` are zero and the mask keeps only the low 32 bits of
      `lo`, so the bitwise or is a sum. */
  function JoinHalves(hi: int32, lo: int32): (r: int64)
    ensures r / TWO_32 == hi && r % TWO_32 == ToUnsigned32(lo)
  {
    hi * TWO_32 + ToUnsigned32(lo)
  }

  /** Exactly four ints make a UUID; any other length fails. */
  function DeserializeUUID(v: seq<int32>): (r: Outcome<UUID>)
    ensures r.Ok? <==> |v| == 4
  {
    if |v| != 4 then Fail
    else Ok(UUID(JoinHalves(v[0], v[1]), JoinHalves(v[2], v[3])))
  }

  lemma SplitJoin(x: int64)
    ensures JoinHalves(Wrap32(x / TWO_32), Wrap32(x)) == x
  {
    var hi := x / TWO_32;
    assert -TWO_31 <= hi < TWO_31;
    assert Wrap32(hi) == hi;
    assert ToUnsigned32(Wrap32(x)) == x % TWO_32;
  }

  lemma JoinSplit(hi: int32, lo: int32)
    ensures Wrap32(JoinHalves(hi, lo) / TWO_32) == hi
    ensures Wrap32(JoinHalves(hi, lo)) == lo
  {
    var r := JoinHalves(hi, lo);
    assert Wrap32(hi) == hi;
    assert r % TWO_32 == ToUnsigned32(lo);
  }

  /** The four-int form is a bijection: every UUID reads back, and every
      four-int array is the form of the UUID it reads as. */
  lemma UUIDRoundTrip(u: UUID, v: seq<int32>)
    ensures DeserializeUUID(SerializeUUID(u)) == Ok(u)
    ensures |v| == 4 ==> SerializeUUID(DeserializeUUID(v).value) == v
  {
    SplitJoin(u.mostSigBits);
    SplitJoin(u.leastSigBits);
    if |v| == 4 {
      JoinSplit(v[0], v[1]);
      JoinSplit(v[2], v[3]);
    }
  }

  // ---------------------------------------------------------------------
  // Serialization

  /** A plain text component becomes a bare string; everything else a
      compound. */
  function Serialize(c: Component): (r: Nbt)
    decreases c, 2
    ensures r.NString? <==> c.kind.Text? && c.style.IsEmpty() && c.children == []
    ensures r.NString? || r.NCompound?
  {
    if c.kind.Text? && c.style.IsEmpty() && c.children == [] then NString(c.kind.content)
    else NCompound(SerializeComponent(c))
  }

  /** The keys a component's kind is read from and written under. */
  const KIND_KEYS: set<string> :=
    {"text", "", "translate", "fallback", "score", "selector", "keybind", "nbt", "interpret", "block", "entity", "storage"}

  /** The keys of the nested parts of a component. */
  const NESTED_KEYS: set<string> := {"with", "separator", "style", "extra"}

  /** The compound of a component: the keys of its kind, and its nested
      components and style. Optional parts are written only when they
      differ from their default. The two groups use disjoint keys, so their
      union is what writing them one after the other produces. */
  function SerializeComponent(c: Component): (m: map<string, Nbt>)
    decreases c, 1
  {
    KindTags(c.kind) + NestedTags(c)
  }

  /** The scalar parts of a kind. */
  function KindTags(k: Kind): (m: map<string, Nbt>)
    ensures m.Keys <= KIND_KEYS
  {
    match k
    case Text(s) => map["text" := NString(s)]
    case Translatable(key, fallback, _) =>
      var m := map["translate" := NString(key)];
      if fallback.Some? then m["fallback" := NString(fallback.value)] else m
    case Score(name, objective) =>
      map["score" := NCompound(map["name" := NString(name), "objective" := NString(objective)])]
    case Selector(pattern, _) => map["selector" := NString(pattern)]
    case Keybind(keybind) => map["keybind" := NString(keybind)]
    case BlockNbt(path, interpret, _, pos) => PathTags(path, interpret)["block" := NString(pos)]
    case EntityNbt(path, interpret, _, selector) => PathTags(path, interpret)["entity" := NString(selector)]
    case StorageNbt(path, interpret, _, storage) => PathTags(path, interpret)["storage" := NString(storage)]
  }

  /** The translation arguments, the separator, the style and the
      children, each when present. */
  function NestedTags(c: Component): (m: map<string, Nbt>)
    decreases c, 0
    ensures m.Keys <= NESTED_KEYS
  {
    var k := c.kind;
    var m := map[];
    var m := if k.Translatable? && k.args != [] then m["with" := NList(COMPOUND, SerializeList(k.args))] else m;
    var m := if k.HasSeparator() && k.separator.Some? then m["separator" := Serialize(k.separator.value)] else m;
    var m := if c.style.IsEmpty() then m else m["style" := NCompound(SerializeStyle(c.style))];
    if c.children == [] then m else m["extra" := NList(COMPOUND, SerializeList(c.children))]
  }

  /** The path of an NBT-path component, and its interpret flag when set. */
  function PathTags(path: string, interpret: bool): map<string, Nbt> {
    var m := map["nbt" := NString(path)];
    if interpret then m["interpret" := BooleanTag(true)] else m
  }

  /** Each component of a list as a compound, in order. */
  function SerializeList(cs: seq<Component>): (r: seq<Nbt>)
    decreases cs, 0
    ensures |r| == |cs|
  {
    if cs == [] then []
    else SerializeList(cs[..|cs| - 1]) + [NCompound(SerializeComponent(cs[|cs| - 1]))]
  }

  const SCALAR_STYLE_KEYS: set<string> := {"font", "color", "insertion"}
  const DECORATION_KEYS: set<string> := {"obfuscated", "bold", "strikethrough", "underlined", "italic"}
  const EVENT_KEYS: set<string> := {"clickEvent", "hoverEvent"}

  /** The compound of a style: the empty style gives the empty compound;
      otherwise each part that is set. The three groups of parts use
      disjoint keys. */
  function SerializeStyle(s: Style): (m: map<string, Nbt>)
    decreases s, 1
  {
    if s.IsEmpty() then map[]
    else ScalarStyleTags(s) + DecorationTags(s.decorations) + EventTags(s)
  }

  /** The font, colour and insertion, each when set. */
  function ScalarStyleTags(s: Style): (m: map<string, Nbt>)
    ensures m.Keys <= SCALAR_STYLE_KEYS
  {
    var m := map[];
    var m := if s.font.Some? then m["font" := NString(s.font.value)] else m;
    var m := if s.color.Some? then m["color" := NString(s.color.value)] else m;
    if s.insertion.Some? then m["insertion" := NString(s.insertion.value)] else m
  }

  /** Each decoration that is set, under its name. */
  function DecorationTags(decorations: Decorations): (m: map<string, Nbt>)
    ensures m.Keys <= DECORATION_KEYS
  {
    var m := PutDecoration(map[], decorations, Obfuscated);
    var m := PutDecoration(m, decorations, Bold);
    var m := PutDecoration(m, decorations, Strikethrough);
    var m := PutDecoration(m, decorations, Underlined);
    PutDecoration(m, decorations, Italic)
  }

  /** A decoration is written under its name when it is set. */
  function PutDecoration(m: map<string, Nbt>, decorations: Decorations, d: Decoration): map<string, Nbt> {
    match decorations.State(d)
    case None => m
    case Some(v) => m[DecorationName(d) := BooleanTag(v)]
  }

  /** The click and hover events, each when set. */
  function EventTags(s: Style): (m: map<string, Nbt>)
    decreases s, 0
    ensures m.Keys <= EVENT_KEYS
  {
    var m := map[];
    var m := if s.clickEvent.Some? then m["clickEvent" := NCompound(SerializeClick(s.clickEvent.value))] else m;
    if s.hoverEvent.Some? then m["hoverEvent" := NCompound(SerializeHover(s.hoverEvent.value))] else m
  }

  function SerializeClick(e: ClickEvent): map<string, Nbt> {
    map["action" := NString(ClickActionName(e.action)), "value" := NString(e.value)]
  }

  /** The compound of a hover event: its action name and its contents. An
      item shown once with no NBT is written as the bare item key. */
  function SerializeHover(h: HoverEvent): (m: map<string, Nbt>)
    decreases h, 1
    ensures h.ShowItem? ==> ("contents" in m && m["contents"].NString? <==> h.count == 1 && h.nbt.None?)
  {
    map["action" := NString(HoverActionName(h.Action())), "contents" := HoverContents(h)]
  }

  function HoverContents(h: HoverEvent): Nbt
    decreases h, 0
  {
    match h
    case ShowText(text) => Serialize(text)
    case ShowItem(item, count, nbt) =>
      if count == 1 && nbt.None? then NString(item)
      else
        var m := map["id" := NString(item), "count" := NInt(count)];
        NCompound(if nbt.Some? then m["tag" := NString(nbt.value)] else m)
    case ShowEntity(entityType, id, name) =>
      var m := map["type" := NString(entityType), "id" := NIntArray(SerializeUUID(id))];
      NCompound(if name.Some? then m["name" := Serialize(name.value)] else m)
  }

  // ---------------------------------------------------------------------
  // Deserialization

  /** What a compound says about a component's kind, read before the kind
      is chosen: a malformed value under any of these keys fails the whole
      component, whatever its kind. */
  datatype KindKeys = KindKeys(
    text: Option<string>,
    translate: Option<string>,
    fallback: Option<string>,
    score: Option<ScoreTags>,
    selector: Option<string>,
    keybind: Option<string>,
    path: Option<string>,
    interpret: Option<bool>,
    block: Option<string>,
    entity: Option<string>,
    storage: Option<string>)

  /** The name and objective tags of a score child, looked up but not yet
      converted: they are read only when the component is a score. */
  datatype ScoreTags = ScoreTags(name: Option<Nbt>, objective: Option<Nbt>)

  /** Everything a compound says about a component: its kind keys and the
      nested components and style. */
  datatype Fields = Fields(
    keys: KindKeys,
    with: Option<seq<Component>>,
    extra: Option<seq<Component>>,
    separator: Option<Component>,
    style: Option<Style>)

  /** A tag is turned into a component: a string, boolean or number becomes
      a text component, a compound is read part by part, anything else
      fails. */
  function Deserialize(cfg: Serializer, mode: Mode, n: Nbt): (r: Outcome<Component>)
    decreases n, 2
    ensures n.NString? ==> r == Ok(Plain(n.str))
    ensures !n.NCompound? ==> (r.Ok? <==> n.NString? || n.IsNumber())
  {
    if n.NCompound? then
      var f :- ReadFields(cfg, mode, n);
      Assemble(mode, f)
    else
      var s :- TextOf(cfg, n);
      Ok(Plain(s))
  }

  /** A string read through a library parser: nothing when absent, an error
      when the parser rejects it. */
  function ReadParsed(c: map<string, Nbt>, key: string, parse: string -> Option<string>): (r: Outcome<Option<string>>)
    ensures r.Ok? && r.value.Some? ==> key in c && c[key].NString? && parse(c[key].str) == r.value
    ensures r == Ok(None) <==> key !in c
  {
    var s :- ReadUTF(c, key);
    match s
    case None => Ok(None)
    case Some(v) => if parse(v).Some? then Ok(parse(v)) else Fail
  }

  /** The text of a component: under "text", or else under "". */
  function ReadText(cfg: Serializer, c: map<string, Nbt>): (r: Outcome<Option<string>>)
    ensures r.Ok? ==> (r.value.Some? <==> "text" in c || "" in c)
  {
    match Lookup(c, "text")
    case Some(t) => var s :- TextOf(cfg, t); Ok(Some(s))
    case None =>
      match Lookup(c, "")
      case Some(t) => var s :- TextOf(cfg, t); Ok(Some(s))
      case None => Ok(None)
  }

  function ReadKindKeys(cfg: Serializer, c: map<string, Nbt>): (r: Outcome<KindKeys>) {
    var text :- ReadText(cfg, c);
    var translate :- ReadUTF(c, "translate");
    var fallback :- ReadUTF(c, "fallback");
    var score :- Get(c, "score", COMPOUND);
    var selector :- ReadUTF(c, "selector");
    var keybind :- ReadUTF(c, "keybind");
    var path :- ReadUTF(c, "nbt");
    var interpret :- NbtTags.ReadBoolean(c, "interpret");
    var block :- ReadParsed(c, "block", cfg.pos);
    var entity :- ReadUTF(c, "entity");
    var storage :- ReadParsed(c, "storage", cfg.key);
    Ok(KindKeys(text, translate, fallback,
                match score case None => None case Some(t) => Some(ScoreTags(Lookup(t.tags, "name"), Lookup(t.tags, "objective"))),
                selector, keybind, path, interpret, block, entity, storage))
  }

  /** The content keys are read as present exactly when they are in the
      compound. */
  lemma ContentKeysPresent(cfg: Serializer, c: map<string, Nbt>)
    requires ReadKindKeys(cfg, c).Ok?
    ensures ReadKindKeys(cfg, c).value.text.Some? <==> "text" in c || "" in c
    ensures ReadKindKeys(cfg, c).value.translate.Some? <==> "translate" in c
    ensures ReadKindKeys(cfg, c).value.score.Some? <==> "score" in c
    ensures ReadKindKeys(cfg, c).value.selector.Some? <==> "selector" in c
    ensures ReadKindKeys(cfg, c).value.keybind.Some? <==> "keybind" in c
  {
  }

  /** The NBT-path keys are read as present exactly when they are in the
      compound. */
  lemma PathKeysPresent(cfg: Serializer, c: map<string, Nbt>)
    requires ReadKindKeys(cfg, c).Ok?
    ensures ReadKindKeys(cfg, c).value.path.Some? <==> "nbt" in c
    ensures ReadKindKeys(cfg, c).value.block.Some? <==> "block" in c
    ensures ReadKindKeys(cfg, c).value.entity.Some? <==> "entity" in c
    ensures ReadKindKeys(cfg, c).value.storage.Some? <==> "storage" in c
  {
  }

  function ReadFields(cfg: Serializer, mode: Mode, n: Nbt): (r: Outcome<Fields>)
    requires n.NCompound?
    decreases n, 1
  {
    var c := n.tags;
    var keys :- ReadKindKeys(cfg, c);
    var with :- ReadComponentList(cfg, mode, n, "with");
    var extra :- ReadComponentList(cfg, mode, n, "extra");
    var separator :- ReadSeparator(cfg, mode, n);
    var style :- ReadStyle(cfg, mode, n);
    Ok(Fields(keys, with, extra, separator, style))
  }

  /** The components of the list under `key`, if any. */
  function ReadComponentList(cfg: Serializer, mode: Mode, n: Nbt, key: string): (r: Outcome<Option<seq<Component>>>)
    requires n.NCompound?
    decreases n, 0
  {
    var c := n.tags;
    var tag :- Get(c, key, LIST);
    match tag
    case None => Ok(None)
    case Some(l) => var xs :- DeserializeItems(cfg, mode, l.items); Ok(Some(xs))
  }

  /** The separator component, of whatever tag type it is written as. */
  function ReadSeparator(cfg: Serializer, mode: Mode, n: Nbt): (r: Outcome<Option<Component>>)
    requires n.NCompound?
    decreases n, 0
  {
    var c := n.tags;
    match Lookup(c, "separator")
    case None => Ok(None)
    case Some(t) => var x :- Deserialize(cfg, mode, t); Ok(Some(x))
  }

  /** The style compound, if any. */
  function ReadStyle(cfg: Serializer, mode: Mode, n: Nbt): (r: Outcome<Option<Style>>)
    requires n.NCompound?
    decreases n, 0
  {
    var c := n.tags;
    var tag :- Get(c, "style", COMPOUND);
    match tag
    case None => Ok(None)
    case Some(t) => var st :- DeserializeStyle(cfg, mode, t); Ok(Some(st))
  }

  /** Each tag of a list as a component; any failure fails the list. */
  function DeserializeItems(cfg: Serializer, mode: Mode, items: seq<Nbt>): (r: Outcome<seq<Component>>)
    decreases items, 0
    ensures r.Ok? ==> |r.value| == |items|
  {
    if items == [] then Ok([])
    else
      var xs :- DeserializeItems(cfg, mode, items[..|items| - 1]);
      var x :- Deserialize(cfg, mode, items[|items| - 1]);
      Ok(xs + [x])
  }

  /** The interpret flag of an NBT-path component. */
  function Interpret(mode: Mode, v: Option<bool>): (r: Outcome<bool>)
    ensures v.Some? ==> r == Ok(v.value)
    ensures v.None? ==> (r.Ok? <==> mode.Corrected?) && (r.Ok? ==> !r.value)
  {
    match v
    case Some(b) => Ok(b)
    case None => if mode.AsWritten? then Fail else Ok(false)
  }

  /** The kind is the first of text, translate, score, selector, keybind
      and nbt that is present; an NBT-path component is a block, entity or
      storage component, tried in that order. */
  function BuildKind(mode: Mode, f: Fields): Outcome<Kind> {
    if f.keys.text.Some? then Ok(Text(f.keys.text.value))
    else if f.keys.translate.Some? then
      Ok(Translatable(f.keys.translate.value, f.keys.fallback, if f.with.Some? then f.with.value else []))
    else if f.keys.score.Some? then
      var name :- AsString(f.keys.score.value.name);
      var objective :- AsString(f.keys.score.value.objective);
      if name.Some? && objective.Some? then Ok(Score(name.value, objective.value)) else Fail
    else if f.keys.selector.Some? then Ok(Selector(f.keys.selector.value, f.separator))
    else if f.keys.keybind.Some? then Ok(Keybind(f.keys.keybind.value))
    else if f.keys.path.Some? then
      var interpret :- Interpret(mode, f.keys.interpret);
      if f.keys.block.Some? then Ok(BlockNbt(f.keys.path.value, interpret, f.separator, f.keys.block.value))
      else if f.keys.entity.Some? then Ok(EntityNbt(f.keys.path.value, interpret, f.separator, f.keys.entity.value))
      else if f.keys.storage.Some? then Ok(StorageNbt(f.keys.path.value, interpret, f.separator, f.keys.storage.value))
      else Fail
    else Fail
  }

  /** The component: its kind, the style when one was read, the extra
      components as children. */
  function Assemble(mode: Mode, f: Fields): Outcome<Component> {
    var kind :- BuildKind(mode, f);
    Ok(Component(kind,
                 if f.style.Some? then f.style.value else EMPTY_STYLE,
                 if f.extra.Some? then f.extra.value else []))
  }

  /** The style of a compound: the empty compound is the empty style. A
      colour the library does not recognise is dropped; a font key it
      rejects fails. */
  function DeserializeStyle(cfg: Serializer, mode: Mode, n: Nbt): (r: Outcome<Style>)
    requires n.NCompound?
    decreases n, 0
    ensures n.tags == map[] ==> r == Ok(EMPTY_STYLE)
  {
    var c := n.tags;
    if c == map[] then Ok(EMPTY_STYLE)
    else
      var font :- ReadParsed(c, "font", cfg.key);
      var color :- ReadUTF(c, "color");
      var decorations :- ReadDecorations(c);
      var insertion :- ReadUTF(c, "insertion");
      var click :- ReadClick(c);
      var hoverTag :- Get(c, "hoverEvent", COMPOUND);
      var hover :- match hoverTag
        case None => Ok(None)
        case Some(h) => var e :- DeserializeHover(cfg, mode, h); Ok(Some(e));
      Ok(Style(font, if color.Some? then cfg.color(color.value) else None, decorations, insertion, click, hover))
  }

  /** Each decoration is set to the boolean under its name, when present. */
  function ReadDecorations(c: map<string, Nbt>): Outcome<Decorations> {
    var obfuscated :- NbtTags.ReadBoolean(c, "obfuscated");
    var bold :- NbtTags.ReadBoolean(c, "bold");
    var strikethrough :- NbtTags.ReadBoolean(c, "strikethrough");
    var underlined :- NbtTags.ReadBoolean(c, "underlined");
    var italic :- NbtTags.ReadBoolean(c, "italic");
    Ok(Decorations(obfuscated, bold, strikethrough, underlined, italic))
  }

  /** A click event needs a known action and a value. */
  function ReadClick(c: map<string, Nbt>): Outcome<Option<ClickEvent>> {
    var t :- Get(c, "clickEvent", COMPOUND);
    match t
    case None => Ok(None)
    case Some(e) =>
      var action :- ReadUTF(e.tags, "action");
      var value :- ReadUTF(e.tags, "value");
      if action.Some? && ClickActionOf(action.value).Some? && value.Some? then
        Ok(Some(ClickEvent(ClickActionOf(action.value).value, value.value)))
      else Fail
  }

  /** A hover event needs a known action and the contents that action
      requires; an item given as a bare string is shown once, without NBT. */
  function DeserializeHover(cfg: Serializer, mode: Mode, n: Nbt): (r: Outcome<HoverEvent>)
    requires n.NCompound?
    decreases n, 1
  {
    var c := n.tags;
    var action :- ReadUTF(c, "action");
    match if action.Some? then HoverActionOf(action.value) else None
    case None => Fail
    case Some(ShowTextAction) =>
      (match Lookup(c, "contents")
       case None => Fail
       case Some(t) => var text :- Deserialize(cfg, mode, t); Ok(ShowText(text)))
    case Some(ShowItemAction) => ReadShowItem(cfg, c)
    case Some(ShowEntityAction) =>
      var t :- Get(c, "contents", COMPOUND);
      if t.None? then Fail else ReadShowEntity(cfg, mode, t.value)
  }

  /** The item of a show_item event: a bare key, or a compound with an id,
      a count and an optional NBT string. */
  function ReadShowItem(cfg: Serializer, c: map<string, Nbt>): (r: Outcome<HoverEvent>)
    ensures r.Ok? ==> r.value.ShowItem?
    ensures r.Ok? && TypeAt(c, "contents") == Some(STRING) ==> r.value.count == 1 && r.value.nbt.None?
    ensures r.Ok? && TypeAt(c, "contents") != Some(STRING) ==> "contents" in c && c["contents"].NCompound?
  {
    if TypeAt(c, "contents") == Some(STRING) then
      (match cfg.key(c["contents"].str)
       case None => Fail
       case Some(item) => Ok(ShowItem(item, 1, None)))
    else
      var t :- Get(c, "contents", COMPOUND);
      if t.None? then Fail
      else
        var item :- ReadParsed(t.value.tags, "id", cfg.key);
        var count :- NbtTags.ReadInt(t.value.tags, "count");
        var nbt :- ReadUTF(t.value.tags, "tag");
        if item.Some? && count.Some? then Ok(ShowItem(item.value, count.value, nbt)) else Fail
  }

  /** The entity of a show_entity event: a type and an id are required, a
      name is optional. */
  function ReadShowEntity(cfg: Serializer, mode: Mode, t: Nbt): (r: Outcome<HoverEvent>)
    requires t.NCompound?
    decreases t, 0
    ensures r.Ok? ==> r.value.ShowEntity?
  {
    var e := t.tags;
    var entityType :- ReadParsed(e, "type", cfg.key);
    var ints :- ReadIntArray(e, "id");
    var id :- match ints
      case None => Ok(None)
      case Some(v) => var u :- DeserializeUUID(v); Ok(Some(u));
    var name :- match Lookup(e, "name")
      case None => Ok(None)
      case Some(tag) => var x :- Deserialize(cfg, mode, tag); Ok(Some(x));
    if entityType.Some? && id.Some? then Ok(ShowEntity(entityType.value, id.value, name)) else Fail
  }

  // ---------------------------------------------------------------------
  // Round trip

  /** The components that read back as themselves: every key, position and
      colour they hold is in the library's canonical form. */
  ghost predicate Canonical(cfg: Serializer, c: Component)
    decreases c
  {
    KindCanonical(cfg, c.kind)
    && StyleCanonical(cfg, c.style)
    && forall i | 0 <= i < |c.children| :: Canonical(cfg, c.children[i])
  }

  ghost predicate KindCanonical(cfg: Serializer, k: Kind)
    decreases k
  {
    match k
    case Text(_) => true
    case Translatable(_, _, args) => forall i | 0 <= i < |args| :: Canonical(cfg, args[i])
    case Score(_, _) => true
    case Selector(_, separator) => separator.Some? ==> Canonical(cfg, separator.value)
    case Keybind(_) => true
    case BlockNbt(_, _, separator, pos) =>
      (separator.Some? ==> Canonical(cfg, separator.value)) && cfg.pos(pos) == Some(pos)
    case EntityNbt(_, _, separator, _) => separator.Some? ==> Canonical(cfg, separator.value)
    case StorageNbt(_, _, separator, storage) =>
      (separator.Some? ==> Canonical(cfg, separator.value)) && cfg.key(storage) == Some(storage)
  }

  ghost predicate StyleCanonical(cfg: Serializer, s: Style)
    decreases s
  {
    (s.font.Some? ==> cfg.key(s.font.value) == s.font)
    && (s.color.Some? ==> cfg.color(s.color.value) == s.color)
    && (s.hoverEvent.Some? ==> HoverCanonical(cfg, s.hoverEvent.value))
  }

  ghost predicate HoverCanonical(cfg: Serializer, h: HoverEvent)
    decreases h
  {
    match h
    case ShowText(text) => Canonical(cfg, text)
    case ShowItem(item, _, _) => cfg.key(item) == Some(item)
    case ShowEntity(entityType, _, name) =>
      cfg.key(entityType) == Some(entityType) && (name.Some? ==> Canonical(cfg, name.value))
  }

  /** The kind keys a component's compound holds. */
  function KeysOf(k: Kind): KindKeys {
    var none := KindKeys(None, None, None, None, None, None, None, None, None, None, None);
    match k
    case Text(s) => none.(text := Some(s))
    case Translatable(key, fallback, _) => none.(translate := Some(key), fallback := fallback)
    case Score(name, objective) =>
      none.(score := Some(ScoreTags(Some(NString(name)), Some(NString(objective)))))
    case Selector(pattern, _) => none.(selector := Some(pattern))
    case Keybind(keybind) => none.(keybind := Some(keybind))
    case BlockNbt(path, interpret, _, pos) =>
      none.(path := Some(path), interpret := if interpret then Some(true) else None, block := Some(pos))
    case EntityNbt(path, interpret, _, selector) =>
      none.(path := Some(path), interpret := if interpret then Some(true) else None, entity := Some(selector))
    case StorageNbt(path, interpret, _, storage) =>
      none.(path := Some(path), interpret := if interpret then Some(true) else None, storage := Some(storage))
  }

  /** Everything a component's compound holds. */
  function FieldsOf(c: Component): Fields {
    Fields(
      KeysOf(c.kind),
      if c.kind.Translatable? && c.kind.args != [] then Some(c.kind.args) else None,
      if c.children != [] then Some(c.children) else None,
      if c.kind.HasSeparator() then c.kind.separator else None,
      if c.style.IsEmpty() then None else Some(c.style))
  }

  /** The fields of a component build that component again. */
  lemma AssembleFieldsOf(c: Component)
    ensures Assemble(Corrected, FieldsOf(c)) == Ok(c)
  {
  }

  /** A lookup in a union of compounds finds the right-hand tag first. */
  lemma MergeLookup(a: map<string, Nbt>, b: map<string, Nbt>, key: string)
    ensures Lookup(a + b, key) == if key in b then Lookup(b, key) else Lookup(a, key)
  {
  }

  /** Two compounds agree on every kind key. */
  predicate SameKindKeys(m1: map<string, Nbt>, m2: map<string, Nbt>) {
    Lookup(m1, "text") == Lookup(m2, "text") &&
    Lookup(m1, "") == Lookup(m2, "") &&
    Lookup(m1, "translate") == Lookup(m2, "translate") &&
    Lookup(m1, "fallback") == Lookup(m2, "fallback") &&
    Lookup(m1, "score") == Lookup(m2, "score") &&
    Lookup(m1, "selector") == Lookup(m2, "selector") &&
    Lookup(m1, "keybind") == Lookup(m2, "keybind") &&
    Lookup(m1, "nbt") == Lookup(m2, "nbt") &&
    Lookup(m1, "interpret") == Lookup(m2, "interpret") &&
    Lookup(m1, "block") == Lookup(m2, "block") &&
    Lookup(m1, "entity") == Lookup(m2, "entity") &&
    Lookup(m1, "storage") == Lookup(m2, "storage")
  }

  /** A key outside the nested group is found in the kind's tags. */
  lemma KindKeyLookup(c: Component, key: string)
    requires key !in NESTED_KEYS
    ensures Lookup(SerializeComponent(c), key) == Lookup(KindTags(c.kind), key)
  {
    MergeLookup(KindTags(c.kind), NestedTags(c), key);
  }

  /** A nested key is found in the nested tags. */
  lemma NestedKeyLookup(c: Component, key: string)
    requires key in NESTED_KEYS
    ensures Lookup(SerializeComponent(c), key) == Lookup(NestedTags(c), key)
  {
    assert key !in KindTags(c.kind);
    MergeLookup(KindTags(c.kind), NestedTags(c), key);
  }

  /** The text, translation, score and selector keys of a component's compound are its kind's. */
  lemma FirstKindKeysOf(c: Component)
    ensures Lookup(SerializeComponent(c), "text") == Lookup(KindTags(c.kind), "text")
    ensures Lookup(SerializeComponent(c), "") == Lookup(KindTags(c.kind), "")
    ensures Lookup(SerializeComponent(c), "translate") == Lookup(KindTags(c.kind), "translate")
    ensures Lookup(SerializeComponent(c), "fallback") == Lookup(KindTags(c.kind), "fallback")
    ensures Lookup(SerializeComponent(c), "score") == Lookup(KindTags(c.kind), "score")
    ensures Lookup(SerializeComponent(c), "selector") == Lookup(KindTags(c.kind), "selector")
  {
    KindKeyLookup(c, "text");
    KindKeyLookup(c, "");
    KindKeyLookup(c, "translate");
    KindKeyLookup(c, "fallback");
    KindKeyLookup(c, "score");
    KindKeyLookup(c, "selector");
  }

  /** The keybind and NBT-path keys of a component's compound are its kind's. */
  lemma LastKindKeysOf(c: Component)
    ensures Lookup(SerializeComponent(c), "keybind") == Lookup(KindTags(c.kind), "keybind")
    ensures Lookup(SerializeComponent(c), "nbt") == Lookup(KindTags(c.kind), "nbt")
    ensures Lookup(SerializeComponent(c), "interpret") == Lookup(KindTags(c.kind), "interpret")
    ensures Lookup(SerializeComponent(c), "block") == Lookup(KindTags(c.kind), "block")
    ensures Lookup(SerializeComponent(c), "entity") == Lookup(KindTags(c.kind), "entity")
    ensures Lookup(SerializeComponent(c), "storage") == Lookup(KindTags(c.kind), "storage")
  {
    KindKeyLookup(c, "keybind");
    KindKeyLookup(c, "nbt");
    KindKeyLookup(c, "interpret");
    KindKeyLookup(c, "block");
    KindKeyLookup(c, "entity");
    KindKeyLookup(c, "storage");
  }

  /** The kind keys of a component's compound are those of its kind alone. */
  lemma KindKeysOf(c: Component)
    ensures SameKindKeys(SerializeComponent(c), KindTags(c.kind))
  {
    FirstKindKeysOf(c);
    LastKindKeysOf(c);
  }

  /** The reading of a kind looks at the kind keys only. */
  lemma ReadKindKeysFrame(cfg: Serializer, m1: map<string, Nbt>, m2: map<string, Nbt>)
    requires SameKindKeys(m1, m2)
    ensures ReadKindKeys(cfg, m1) == ReadKindKeys(cfg, m2)
  {
    assert ReadText(cfg, m1) == ReadText(cfg, m2);
    assert ReadUTF(m1, "translate") == ReadUTF(m2, "translate");
    assert ReadUTF(m1, "fallback") == ReadUTF(m2, "fallback");
    assert Get(m1, "score", COMPOUND) == Get(m2, "score", COMPOUND);
    assert ReadUTF(m1, "selector") == ReadUTF(m2, "selector");
    assert ReadUTF(m1, "keybind") == ReadUTF(m2, "keybind");
    assert ReadUTF(m1, "nbt") == ReadUTF(m2, "nbt");
    assert NbtTags.ReadBoolean(m1, "interpret") == NbtTags.ReadBoolean(m2, "interpret");
    assert ReadParsed(m1, "block", cfg.pos) == ReadParsed(m2, "block", cfg.pos);
    assert ReadUTF(m1, "entity") == ReadUTF(m2, "entity");
    assert ReadParsed(m1, "storage", cfg.key) == ReadParsed(m2, "storage", cfg.key);
  }

  /** The kind keys read from the tags of a kind are that kind's. */
  lemma ReadKindTags(cfg: Serializer, k: Kind)
    requires KindCanonical(cfg, k)
    ensures ReadKindKeys(cfg, KindTags(k)) == Ok(KeysOf(k))
  {
    match k
    case Text(_) => ReadTextTags(cfg, k);
    case Translatable(_, _, _) => ReadTranslatableTags(cfg, k);
    case Score(_, _) => ReadScoreTags(cfg, k);
    case Selector(_, _) => ReadSelectorTags(cfg, k);
    case Keybind(_) => ReadKeybindTags(cfg, k);
    case BlockNbt(_, _, _, _) => ReadBlockNbtTags(cfg, k);
    case EntityNbt(_, _, _, _) => ReadEntityNbtTags(cfg, k);
    case StorageNbt(_, _, _, _) => ReadStorageNbtTags(cfg, k);
  }

  /** The kind keys read from the tags of a text component. */
  lemma ReadTextTags(cfg: Serializer, k: Kind)
    requires k.Text?
    ensures ReadKindKeys(cfg, KindTags(k)) == Ok(KeysOf(k))
  {
  }

  /** The kind keys read from the tags of a translatable component. */
  lemma ReadTranslatableTags(cfg: Serializer, k: Kind)
    requires k.Translatable?
    ensures ReadKindKeys(cfg, KindTags(k)) == Ok(KeysOf(k))
  {
  }

  /** The kind keys read from the tags of a score component. */
  lemma ReadScoreTags(cfg: Serializer, k: Kind)
    requires k.Score?
    ensures ReadKindKeys(cfg, KindTags(k)) == Ok(KeysOf(k))
  {
  }

  /** The kind keys read from the tags of a selector component. */
  lemma ReadSelectorTags(cfg: Serializer, k: Kind)
    requires k.Selector?
    ensures ReadKindKeys(cfg, KindTags(k)) == Ok(KeysOf(k))
  {
  }

  /** The kind keys read from the tags of a keybind component. */
  lemma ReadKeybindTags(cfg: Serializer, k: Kind)
    requires k.Keybind?
    ensures ReadKindKeys(cfg, KindTags(k)) == Ok(KeysOf(k))
  {
  }

  /** The kind keys read from the tags of a block NBT component. */
  lemma ReadBlockNbtTags(cfg: Serializer, k: Kind)
    requires k.BlockNbt? && KindCanonical(cfg, k)
    ensures ReadKindKeys(cfg, KindTags(k)) == Ok(KeysOf(k))
  {
    PathKeysRead(cfg, KindTags(k), k.path, k.interpret, Some(k.pos), None, None);
  }

  /** The kind keys read from the tags of an entity NBT component. */
  lemma ReadEntityNbtTags(cfg: Serializer, k: Kind)
    requires k.EntityNbt?
    ensures ReadKindKeys(cfg, KindTags(k)) == Ok(KeysOf(k))
  {
    PathKeysRead(cfg, KindTags(k), k.path, k.interpret, None, Some(k.selector), None);
  }

  /** The kind keys read from the tags of a storage NBT component. */
  lemma ReadStorageNbtTags(cfg: Serializer, k: Kind)
    requires k.StorageNbt? && KindCanonical(cfg, k)
    ensures ReadKindKeys(cfg, KindTags(k)) == Ok(KeysOf(k))
  {
    PathKeysRead(cfg, KindTags(k), k.path, k.interpret, None, None, Some(k.storage));
  }

  /** The kind keys read from any compound that holds an NBT path, its
      interpret flag when set, and one source, and no content key. */
  lemma PathKeysRead(cfg: Serializer, m: map<string, Nbt>, path: string, interpret: bool,
                     block: Option<string>, entity: Option<string>, storage: Option<string>)
    requires "text" !in m && "" !in m && "translate" !in m && "fallback" !in m
    requires "score" !in m && "selector" !in m && "keybind" !in m
    requires Lookup(m, "nbt") == Some(NString(path))
    requires Lookup(m, "interpret") == if interpret then Some(BooleanTag(true)) else None
    requires Lookup(m, "block") == if block.Some? then Some(NString(block.value)) else None
    requires block.Some? ==> cfg.pos(block.value) == block
    requires Lookup(m, "entity") == if entity.Some? then Some(NString(entity.value)) else None
    requires Lookup(m, "storage") == if storage.Some? then Some(NString(storage.value)) else None
    requires storage.Some? ==> cfg.key(storage.value) == storage
    ensures ReadKindKeys(cfg, m)
      == Ok(KindKeys(None, None, None, None, None, None, Some(path), if interpret then Some(true) else None, block, entity, storage))
  {
  }

  /** The kind keys read from a component's compound are its kind's. */
  lemma ReadKindKeysOf(cfg: Serializer, c: Component)
    requires KindCanonical(cfg, c.kind)
    ensures ReadKindKeys(cfg, SerializeComponent(c)) == Ok(KeysOf(c.kind))
  {
    KindKeysOf(c);
    ReadKindKeysFrame(cfg, SerializeComponent(c), KindTags(c.kind));
    ReadKindTags(cfg, c.kind);
  }

  /** The nested tags of a component, key by key. */
  lemma NestedTagsOf(c: Component)
    ensures Lookup(NestedTags(c), "with") ==
      if c.kind.Translatable? && c.kind.args != [] then Some(NList(COMPOUND, SerializeList(c.kind.args))) else None
    ensures Lookup(NestedTags(c), "extra") ==
      if c.children != [] then Some(NList(COMPOUND, SerializeList(c.children))) else None
    ensures Lookup(NestedTags(c), "separator") ==
      if c.kind.HasSeparator() && c.kind.separator.Some? then Some(Serialize(c.kind.separator.value)) else None
    ensures Lookup(NestedTags(c), "style") ==
      if c.style.IsEmpty() then None else Some(NCompound(SerializeStyle(c.style)))
  {
    var k := c.kind;
    var m1: map<string, Nbt> := if k.Translatable? && k.args != [] then map["with" := NList(COMPOUND, SerializeList(k.args))] else map[];
    var m2 := if k.HasSeparator() && k.separator.Some? then m1["separator" := Serialize(k.separator.value)] else m1;
    var m3 := if c.style.IsEmpty() then m2 else m2["style" := NCompound(SerializeStyle(c.style))];
    var m4 := if c.children == [] then m3 else m3["extra" := NList(COMPOUND, SerializeList(c.children))];
    assert NestedTags(c) == m4;
    assert Lookup(m3, "with") == Lookup(m1, "with");
    assert Lookup(m3, "separator") == Lookup(m2, "separator");
  }

  /** The nested parts of a component's compound, key by key. */
  lemma NestedLookupsOf(c: Component)
    ensures Lookup(SerializeComponent(c), "with") ==
      if c.kind.Translatable? && c.kind.args != [] then Some(NList(COMPOUND, SerializeList(c.kind.args))) else None
    ensures Lookup(SerializeComponent(c), "extra") ==
      if c.children != [] then Some(NList(COMPOUND, SerializeList(c.children))) else None
    ensures Lookup(SerializeComponent(c), "separator") ==
      if c.kind.HasSeparator() && c.kind.separator.Some? then Some(Serialize(c.kind.separator.value)) else None
    ensures Lookup(SerializeComponent(c), "style") ==
      if c.style.IsEmpty() then None else Some(NCompound(SerializeStyle(c.style)))
  {
    NestedKeyLookup(c, "with");
    NestedKeyLookup(c, "extra");
    NestedKeyLookup(c, "separator");
    NestedKeyLookup(c, "style");
    NestedTagsOf(c);
  }

  /** The optional parts of a component's compound are written exactly
      when they differ from their default. */
  lemma OptionalKeysOf(c: Component)
    ensures "fallback" in SerializeComponent(c) <==> c.kind.Translatable? && c.kind.fallback.Some?
    ensures "interpret" in SerializeComponent(c) <==> c.kind.IsNbt() && c.kind.interpret
    ensures "with" in SerializeComponent(c) <==> c.kind.Translatable? && c.kind.args != []
    ensures "separator" in SerializeComponent(c) <==> c.kind.HasSeparator() && c.kind.separator.Some?
    ensures "style" in SerializeComponent(c) <==> !c.style.IsEmpty()
    ensures "extra" in SerializeComponent(c) <==> c.children != []
  {
    KindKeyLookup(c, "fallback");
    KindKeyLookup(c, "interpret");
    KindOptionalKeys(c.kind);
    NestedLookupsOf(c);
  }

  lemma KindOptionalKeys(k: Kind)
    ensures "fallback" in KindTags(k) <==> k.Translatable? && k.fallback.Some?
    ensures "interpret" in KindTags(k) <==> k.IsNbt() && k.interpret
  {
  }

  /** Everything read from a component's compound is that component's,
      given that its nested parts read back. */
  lemma ReadFieldsOf(cfg: Serializer, c: Component)
    requires KindCanonical(cfg, c.kind)
    requires c.kind.Translatable? && c.kind.args != [] ==>
      DeserializeItems(cfg, Corrected, SerializeList(c.kind.args)) == Ok(c.kind.args)
    requires c.children != [] ==>
      DeserializeItems(cfg, Corrected, SerializeList(c.children)) == Ok(c.children)
    requires c.kind.HasSeparator() && c.kind.separator.Some? ==>
      Deserialize(cfg, Corrected, Serialize(c.kind.separator.value)) == Ok(c.kind.separator.value)
    requires !c.style.IsEmpty() ==>
      DeserializeStyle(cfg, Corrected, NCompound(SerializeStyle(c.style))) == Ok(c.style)
    ensures ReadFields(cfg, Corrected, NCompound(SerializeComponent(c))) == Ok(FieldsOf(c))
  {
    ReadKindKeysOf(cfg, c);
    NestedLookupsOf(c);
    FieldsFromKeys(cfg, c, SerializeComponent(c));
  }

  /** Any compound holding a component's keys reads back as its fields. */
  lemma FieldsFromKeys(cfg: Serializer, c: Component, m: map<string, Nbt>)
    requires ReadKindKeys(cfg, m) == Ok(KeysOf(c.kind))
    requires Lookup(m, "with") ==
      if c.kind.Translatable? && c.kind.args != [] then Some(NList(COMPOUND, SerializeList(c.kind.args))) else None
    requires Lookup(m, "extra") ==
      if c.children != [] then Some(NList(COMPOUND, SerializeList(c.children))) else None
    requires Lookup(m, "separator") ==
      if c.kind.HasSeparator() && c.kind.separator.Some? then Some(Serialize(c.kind.separator.value)) else None
    requires Lookup(m, "style") ==
      if c.style.IsEmpty() then None else Some(NCompound(SerializeStyle(c.style)))
    requires c.kind.Translatable? && c.kind.args != [] ==>
      DeserializeItems(cfg, Corrected, SerializeList(c.kind.args)) == Ok(c.kind.args)
    requires c.children != [] ==>
      DeserializeItems(cfg, Corrected, SerializeList(c.children)) == Ok(c.children)
    requires c.kind.HasSeparator() && c.kind.separator.Some? ==>
      Deserialize(cfg, Corrected, Serialize(c.kind.separator.value)) == Ok(c.kind.separator.value)
    requires !c.style.IsEmpty() ==>
      DeserializeStyle(cfg, Corrected, NCompound(SerializeStyle(c.style))) == Ok(c.style)
    ensures ReadFields(cfg, Corrected, NCompound(m)) == Ok(FieldsOf(c))
  {
    var n := NCompound(m);
    ComponentListReadsBack(cfg, n, "with", if c.kind.Translatable? then c.kind.args else []);
    ComponentListReadsBack(cfg, n, "extra", c.children);
    var sep := if c.kind.HasSeparator() then c.kind.separator else None;
    assert Lookup(m, "separator") == if sep.Some? then Some(Serialize(sep.value)) else None;
    SeparatorReadsBack(cfg, n, sep);
    var style := if c.style.IsEmpty() then None else Some(c.style);
    assert Lookup(m, "style") == if style.Some? then Some(NCompound(SerializeStyle(style.value))) else None;
    StyleTagReadsBack(cfg, n, style);
  }

  /** A list written under `key` reads back as its components. */
  lemma ComponentListReadsBack(cfg: Serializer, n: Nbt, key: string, cs: seq<Component>)
    requires n.NCompound?
    requires Lookup(n.tags, key) == if cs != [] then Some(NList(COMPOUND, SerializeList(cs))) else None
    requires cs != [] ==> DeserializeItems(cfg, Corrected, SerializeList(cs)) == Ok(cs)
    ensures ReadComponentList(cfg, Corrected, n, key) == Ok(if cs != [] then Some(cs) else None)
  {
  }

  /** A separator written as a tag reads back as that component. */
  lemma SeparatorReadsBack(cfg: Serializer, n: Nbt, sep: Option<Component>)
    requires n.NCompound?
    requires Lookup(n.tags, "separator") == if sep.Some? then Some(Serialize(sep.value)) else None
    requires sep.Some? ==> Deserialize(cfg, Corrected, Serialize(sep.value)) == Ok(sep.value)
    ensures ReadSeparator(cfg, Corrected, n) == Ok(sep)
  {
  }

  /** A style written as a compound reads back as that style. */
  lemma StyleTagReadsBack(cfg: Serializer, n: Nbt, style: Option<Style>)
    requires n.NCompound?
    requires Lookup(n.tags, "style") == if style.Some? then Some(NCompound(SerializeStyle(style.value))) else None
    requires style.Some? ==> DeserializeStyle(cfg, Corrected, NCompound(SerializeStyle(style.value))) == Ok(style.value)
    ensures ReadStyle(cfg, Corrected, n) == Ok(style)
  {
  }

  /** A canonical component is read back from the tag it is written as. */
  lemma {:induction false} RoundTrip(cfg: Serializer, c: Component)
    requires Canonical(cfg, c)
    ensures Deserialize(cfg, Corrected, Serialize(c)) == Ok(c)
    decreases c, 1
  {
    if c.kind.Text? && c.style.IsEmpty() && c.children == [] {
      assert c == Plain(c.kind.content);
    } else {
      CompoundRoundTrip(cfg, c);
    }
  }

  lemma {:induction false} CompoundRoundTrip(cfg: Serializer, c: Component)
    requires Canonical(cfg, c)
    ensures Deserialize(cfg, Corrected, NCompound(SerializeComponent(c))) == Ok(c)
    decreases c, 0
  {
    if c.kind.Translatable? && c.kind.args != [] {
      ListRoundTrip(cfg, c.kind.args);
    }
    if c.children != [] {
      ListRoundTrip(cfg, c.children);
    }
    if c.kind.HasSeparator() && c.kind.separator.Some? {
      RoundTrip(cfg, c.kind.separator.value);
    }
    if !c.style.IsEmpty() {
      StyleRoundTrip(cfg, c.style);
    }
    ReadFieldsOf(cfg, c);
    AssembleFieldsOf(c);
  }

  lemma {:induction false} ListRoundTrip(cfg: Serializer, cs: seq<Component>)
    requires forall i | 0 <= i < |cs| :: Canonical(cfg, cs[i])
    ensures DeserializeItems(cfg, Corrected, SerializeList(cs)) == Ok(cs)
    decreases cs, 0
  {
    if cs != [] {
      var init, last := cs[..|cs| - 1], cs[|cs| - 1];
      assert init + [last] == cs;
      ListRoundTrip(cfg, init);
      CompoundRoundTrip(cfg, last);
      ListSnocRoundTrip(cfg, init, last);
    }
  }

  /** A list with one more component reads back with that component. */
  lemma ListSnocRoundTrip(cfg: Serializer, init: seq<Component>, last: Component)
    requires DeserializeItems(cfg, Corrected, SerializeList(init)) == Ok(init)
    requires Deserialize(cfg, Corrected, NCompound(SerializeComponent(last))) == Ok(last)
    ensures DeserializeItems(cfg, Corrected, SerializeList(init + [last])) == Ok(init + [last])
  {
    assert (init + [last])[..|init|] == init;
    ItemsSnoc(cfg, SerializeList(init), NCompound(SerializeComponent(last)), init, last);
  }

  /** A list with one more tag reads back with one more component. */
  lemma ItemsSnoc(cfg: Serializer, items: seq<Nbt>, t: Nbt, xs: seq<Component>, x: Component)
    requires DeserializeItems(cfg, Corrected, items) == Ok(xs)
    requires Deserialize(cfg, Corrected, t) == Ok(x)
    ensures DeserializeItems(cfg, Corrected, items + [t]) == Ok(xs + [x])
  {
    assert (items + [t])[..|items|] == items;
  }

  lemma {:induction false} StyleRoundTrip(cfg: Serializer, s: Style)
    requires StyleCanonical(cfg, s) && !s.IsEmpty()
    ensures DeserializeStyle(cfg, Corrected, NCompound(SerializeStyle(s))) == Ok(s)
    decreases s, 0
  {
    if s.hoverEvent.Some? {
      HoverRoundTrip(cfg, s.hoverEvent.value);
    }
    StyleReadsBack(cfg, s);
  }

  /** The font, colour and insertion are found in the scalar part of a
      style's compound. */
  lemma ScalarStyleLookup(s: Style, key: string)
    requires !s.IsEmpty() && key in SCALAR_STYLE_KEYS
    ensures Lookup(SerializeStyle(s), key) == Lookup(ScalarStyleTags(s), key)
  {
    var a, b, e := ScalarStyleTags(s), DecorationTags(s.decorations), EventTags(s);
    assert key !in b && key !in e;
    MergeLookup(a + b, e, key);
    MergeLookup(a, b, key);
  }

  /** The decorations are found in the decoration part. */
  lemma DecorationStyleLookup(s: Style, key: string)
    requires !s.IsEmpty() && key in DECORATION_KEYS
    ensures Lookup(SerializeStyle(s), key) == Lookup(DecorationTags(s.decorations), key)
  {
    var a, b, e := ScalarStyleTags(s), DecorationTags(s.decorations), EventTags(s);
    assert key !in a && key !in e;
    MergeLookup(a + b, e, key);
    MergeLookup(a, b, key);
  }

  /** The events are found in the event part. */
  lemma EventStyleLookup(s: Style, key: string)
    requires !s.IsEmpty() && key in EVENT_KEYS
    ensures Lookup(SerializeStyle(s), key) == Lookup(EventTags(s), key)
  {
    var a, b, e := ScalarStyleTags(s), DecorationTags(s.decorations), EventTags(s);
    MergeLookup(a + b, e, key);
  }

  /** Two compounds agree on every decoration name. */
  predicate SameDecorationKeys(m1: map<string, Nbt>, m2: map<string, Nbt>) {
    Lookup(m1, "obfuscated") == Lookup(m2, "obfuscated") &&
    Lookup(m1, "bold") == Lookup(m2, "bold") &&
    Lookup(m1, "strikethrough") == Lookup(m2, "strikethrough") &&
    Lookup(m1, "underlined") == Lookup(m2, "underlined") &&
    Lookup(m1, "italic") == Lookup(m2, "italic")
  }

  /** The reading of decorations looks at the decoration names only. */
  lemma ReadDecorationsFrame(m1: map<string, Nbt>, m2: map<string, Nbt>)
    requires SameDecorationKeys(m1, m2)
    ensures ReadDecorations(m1) == ReadDecorations(m2)
  {
  }

  /** The parts of a style's compound, key by key. */
  lemma StyleKeysOf(s: Style)
    requires !s.IsEmpty()
    ensures Lookup(SerializeStyle(s), "font") == if s.font.Some? then Some(NString(s.font.value)) else None
    ensures Lookup(SerializeStyle(s), "color") == if s.color.Some? then Some(NString(s.color.value)) else None
    ensures Lookup(SerializeStyle(s), "insertion") == if s.insertion.Some? then Some(NString(s.insertion.value)) else None
    ensures Lookup(SerializeStyle(s), "clickEvent") ==
      if s.clickEvent.Some? then Some(NCompound(SerializeClick(s.clickEvent.value))) else None
    ensures Lookup(SerializeStyle(s), "hoverEvent") ==
      if s.hoverEvent.Some? then Some(NCompound(SerializeHover(s.hoverEvent.value))) else None
    ensures ReadDecorations(SerializeStyle(s)) == Ok(s.decorations)
  {
    ScalarStyleLookup(s, "font");
    ScalarStyleLookup(s, "color");
    ScalarStyleLookup(s, "insertion");
    EventStyleLookup(s, "clickEvent");
    EventStyleLookup(s, "hoverEvent");
    DecorationStyleLookup(s, "obfuscated");
    DecorationStyleLookup(s, "bold");
    DecorationStyleLookup(s, "strikethrough");
    DecorationStyleLookup(s, "underlined");
    DecorationStyleLookup(s, "italic");
    ReadDecorationsFrame(SerializeStyle(s), DecorationTags(s.decorations));
    DecorationsRoundTrip(s.decorations);
  }

  /** The style read from a style's compound is that style, given that its
      hover event reads back. */
  lemma StyleReadsBack(cfg: Serializer, s: Style)
    requires StyleCanonical(cfg, s) && !s.IsEmpty()
    requires s.hoverEvent.Some? ==>
      DeserializeHover(cfg, Corrected, NCompound(SerializeHover(s.hoverEvent.value))) == Ok(s.hoverEvent.value)
    ensures DeserializeStyle(cfg, Corrected, NCompound(SerializeStyle(s))) == Ok(s)
  {
    StyleNonEmpty(s);
    StyleKeysOf(s);
    StyleFromKeys(cfg, s, SerializeStyle(s));
  }

  /** Any compound holding a style's keys reads back as that style. */
  lemma StyleFromKeys(cfg: Serializer, s: Style, m: map<string, Nbt>)
    requires StyleCanonical(cfg, s) && m != map[]
    requires Lookup(m, "font") == if s.font.Some? then Some(NString(s.font.value)) else None
    requires Lookup(m, "color") == if s.color.Some? then Some(NString(s.color.value)) else None
    requires Lookup(m, "insertion") == if s.insertion.Some? then Some(NString(s.insertion.value)) else None
    requires Lookup(m, "clickEvent") ==
      if s.clickEvent.Some? then Some(NCompound(SerializeClick(s.clickEvent.value))) else None
    requires Lookup(m, "hoverEvent") ==
      if s.hoverEvent.Some? then Some(NCompound(SerializeHover(s.hoverEvent.value))) else None
    requires ReadDecorations(m) == Ok(s.decorations)
    requires s.hoverEvent.Some? ==>
      DeserializeHover(cfg, Corrected, NCompound(SerializeHover(s.hoverEvent.value))) == Ok(s.hoverEvent.value)
    ensures DeserializeStyle(cfg, Corrected, NCompound(m)) == Ok(s)
  {
    ClickReadsBack(m, s.clickEvent);
  }

  /** A click event is read back from its compound. */
  lemma ClickReadsBack(m: map<string, Nbt>, e: Option<ClickEvent>)
    requires Lookup(m, "clickEvent") == if e.Some? then Some(NCompound(SerializeClick(e.value))) else None
    ensures ReadClick(m) == Ok(e)
  {
    if e.Some? {
      var a := e.value.action;
      assert ClickActionOf(ClickActionName(a)) == Some(a) by {
        match a
        case OpenUrl =>
        case OpenFile =>
        case RunCommand =>
        case SuggestCommand =>
        case ChangePage =>
        case CopyToClipboard =>
      }
    }
  }

  /** A style that is not empty writes at least one key. */
  lemma StyleNonEmpty(s: Style)
    requires !s.IsEmpty()
    ensures SerializeStyle(s) != map[]
  {
    var d := s.decorations;
    var a, b, e := ScalarStyleTags(s), DecorationTags(d), EventTags(s);
    var key;
    if s.font.Some? {
      key := "font";
      assert key in a;
    } else if s.color.Some? {
      key := "color";
      assert key in a;
    } else if s.insertion.Some? {
      key := "insertion";
      assert key in a;
    } else if s.clickEvent.Some? {
      key := "clickEvent";
      assert key in e;
    } else if s.hoverEvent.Some? {
      key := "hoverEvent";
      assert key in e;
    } else if d.obfuscated.Some? {
      key := "obfuscated";
      assert key in b;
    } else if d.bold.Some? {
      key := "bold";
      assert key in b;
    } else if d.strikethrough.Some? {
      key := "strikethrough";
      assert key in b;
    } else if d.underlined.Some? {
      key := "underlined";
      assert key in b;
    } else {
      key := "italic";
      assert key in b;
    }
    assert key in SerializeStyle(s);
  }

  /** Decorations read back from their tags. */
  lemma DecorationsRoundTrip(d: Decorations)
    ensures ReadDecorations(DecorationTags(d)) == Ok(d)
  {
    DecorationReadsBack(d, Obfuscated);
    DecorationReadsBack(d, Bold);
    DecorationReadsBack(d, Strikethrough);
    DecorationReadsBack(d, Underlined);
    DecorationReadsBack(d, Italic);
  }

  /** Each decoration is read back from the tag under its name. */
  lemma DecorationReadsBack(d: Decorations, x: Decoration)
    ensures NbtTags.ReadBoolean(DecorationTags(d), DecorationName(x)) == Ok(d.State(x))
  {
    var key := DecorationName(x);
    var m0 := PutDecoration(map[], d, Obfuscated);
    var m1 := PutDecoration(m0, d, Bold);
    var m2 := PutDecoration(m1, d, Strikethrough);
    var m3 := PutDecoration(m2, d, Underlined);
    PutDecorationLookup(map[], d, Obfuscated, key);
    PutDecorationLookup(m0, d, Bold, key);
    PutDecorationLookup(m1, d, Strikethrough, key);
    PutDecorationLookup(m2, d, Underlined, key);
    PutDecorationLookup(m3, d, Italic, key);
  }

  /** Putting a decoration sets its own name and no other. */
  lemma PutDecorationLookup(m: map<string, Nbt>, d: Decorations, x: Decoration, key: string)
    ensures Lookup(PutDecoration(m, d, x), key) ==
      if key == DecorationName(x) && d.State(x).Some? then Some(BooleanTag(d.State(x).value)) else Lookup(m, key)
  {
  }

  lemma {:induction false} HoverRoundTrip(cfg: Serializer, h: HoverEvent)
    requires HoverCanonical(cfg, h)
    ensures DeserializeHover(cfg, Corrected, NCompound(SerializeHover(h))) == Ok(h)
    decreases h, 0
  {
    match h
    case ShowText(text) =>
      RoundTrip(cfg, text);
      ShowTextReadsBack(cfg, text);
    case ShowItem(item, count, nbt) =>
      ShowItemReadsBack(cfg, item, count, nbt);
    case ShowEntity(entityType, id, name) =>
      if name.Some? {
        RoundTrip(cfg, name.value);
      }
      ShowEntityReadsBack(cfg, entityType, id, name);
  }

  /** Every hover action is named by the name it is read from. */
  lemma HoverActionRoundTrip(a: HoverAction)
    ensures HoverActionOf(HoverActionName(a)) == Some(a)
  {
  }

  /** A text shown by a hover event reads back from its contents, given that
      the text does. */
  lemma ShowTextReadsBack(cfg: Serializer, text: Component)
    requires Deserialize(cfg, Corrected, Serialize(text)) == Ok(text)
    ensures DeserializeHover(cfg, Corrected, NCompound(SerializeHover(ShowText(text)))) == Ok(ShowText(text))
  {
    HoverActionRoundTrip(ShowTextAction);
    assert HoverContents(ShowText(text)) == Serialize(text);
    ShowTextFromTags(cfg, SerializeHover(ShowText(text)), text);
  }

  /** The text read from any hover compound whose action is show_text and
      whose contents read back as the text. */
  lemma ShowTextFromTags(cfg: Serializer, c: map<string, Nbt>, text: Component)
    requires Lookup(c, "action") == Some(NString(HoverActionName(ShowTextAction)))
    requires HoverActionOf(HoverActionName(ShowTextAction)) == Some(ShowTextAction)
    requires Lookup(c, "contents") == Some(Serialize(text))
    requires Deserialize(cfg, Corrected, Serialize(text)) == Ok(text)
    ensures DeserializeHover(cfg, Corrected, NCompound(c)) == Ok(ShowText(text))
  {
  }

  /** An item shown by a hover event reads back from its contents. */
  lemma ShowItemReadsBack(cfg: Serializer, item: string, count: int32, nbt: Option<string>)
    requires cfg.key(item) == Some(item)
    ensures DeserializeHover(cfg, Corrected, NCompound(SerializeHover(ShowItem(item, count, nbt)))) == Ok(ShowItem(item, count, nbt))
  {
    HoverActionRoundTrip(ShowItemAction);
    ShowItemContentsReadBack(cfg, item, count, nbt);
  }

  lemma ShowItemContentsReadBack(cfg: Serializer, item: string, count: int32, nbt: Option<string>)
    requires cfg.key(item) == Some(item)
    ensures ReadShowItem(cfg, SerializeHover(ShowItem(item, count, nbt))) == Ok(ShowItem(item, count, nbt))
  {
    if count == 1 && nbt.None? {
      assert HoverContents(ShowItem(item, count, nbt)) == NString(item);
    } else {
      ShowItemCompoundReadsBack(cfg, item, count, nbt);
    }
  }

  /** An item written as a compound reads back from it. */
  lemma ShowItemCompoundReadsBack(cfg: Serializer, item: string, count: int32, nbt: Option<string>)
    requires cfg.key(item) == Some(item) && !(count == 1 && nbt.None?)
    ensures ReadShowItem(cfg, SerializeHover(ShowItem(item, count, nbt))) == Ok(ShowItem(item, count, nbt))
  {
    var t := HoverContents(ShowItem(item, count, nbt)).tags;
    assert Lookup(t, "tag") == if nbt.Some? then Some(NString(nbt.value)) else None;
    ShowItemFromTags(cfg, SerializeHover(ShowItem(item, count, nbt)), t, item, count, nbt);
  }

  /** The item read from any compound whose contents hold the id, count
      and NBT string of an item. */
  lemma ShowItemFromTags(cfg: Serializer, c: map<string, Nbt>, t: map<string, Nbt>, item: string, count: int32, nbt: Option<string>)
    requires cfg.key(item) == Some(item)
    requires Lookup(c, "contents") == Some(NCompound(t))
    requires Lookup(t, "id") == Some(NString(item)) && Lookup(t, "count") == Some(NInt(count))
    requires Lookup(t, "tag") == if nbt.Some? then Some(NString(nbt.value)) else None
    ensures ReadShowItem(cfg, c) == Ok(ShowItem(item, count, nbt))
  {
  }

  /** An entity shown by a hover event reads back from its contents, given
      that its name does. */
  lemma ShowEntityReadsBack(cfg: Serializer, entityType: string, id: UUID, name: Option<Component>)
    requires cfg.key(entityType) == Some(entityType)
    requires name.Some? ==> Deserialize(cfg, Corrected, Serialize(name.value)) == Ok(name.value)
    ensures DeserializeHover(cfg, Corrected, NCompound(SerializeHover(ShowEntity(entityType, id, name)))) == Ok(ShowEntity(entityType, id, name))
  {
    var h := ShowEntity(entityType, id, name);
    HoverActionRoundTrip(ShowEntityAction);
    ShowEntityContentsReadBack(cfg, entityType, id, name);
    ShowEntityFromTags(cfg, SerializeHover(h), HoverContents(h), h);
  }

  /** The entity read from any hover compound whose action is show_entity
      and whose contents compound reads back as the entity. */
  lemma ShowEntityFromTags(cfg: Serializer, c: map<string, Nbt>, t: Nbt, h: HoverEvent)
    requires t.NCompound?
    requires Lookup(c, "action") == Some(NString(HoverActionName(ShowEntityAction)))
    requires HoverActionOf(HoverActionName(ShowEntityAction)) == Some(ShowEntityAction)
    requires Lookup(c, "contents") == Some(t)
    requires ReadShowEntity(cfg, Corrected, t) == Ok(h)
    ensures DeserializeHover(cfg, Corrected, NCompound(c)) == Ok(h)
  {
  }

  lemma ShowEntityContentsReadBack(cfg: Serializer, entityType: string, id: UUID, name: Option<Component>)
    requires cfg.key(entityType) == Some(entityType)
    requires name.Some? ==> Deserialize(cfg, Corrected, Serialize(name.value)) == Ok(name.value)
    ensures ReadShowEntity(cfg, Corrected, HoverContents(ShowEntity(entityType, id, name))) == Ok(ShowEntity(entityType, id, name))
  {
    var e := HoverContents(ShowEntity(entityType, id, name)).tags;
    UUIDRoundTrip(id, []);
    assert Lookup(e, "name") == if name.Some? then Some(Serialize(name.value)) else None;
    ShowEntityFromContents(cfg, e, entityType, id, name);
  }

  /** The entity read from any contents compound holding its type, its id
      as four ints and its name. */
  lemma ShowEntityFromContents(cfg: Serializer, e: map<string, Nbt>, entityType: string, id: UUID, name: Option<Component>)
    requires cfg.key(entityType) == Some(entityType)
    requires name.Some? ==> Deserialize(cfg, Corrected, Serialize(name.value)) == Ok(name.value)
    requires DeserializeUUID(SerializeUUID(id)) == Ok(id)
    requires Lookup(e, "type") == Some(NString(entityType))
    requires Lookup(e, "id") == Some(NIntArray(SerializeUUID(id)))
    requires Lookup(e, "name") == if name.Some? then Some(Serialize(name.value)) else None
    ensures ReadShowEntity(cfg, Corrected, NCompound(e)) == Ok(ShowEntity(entityType, id, name))
  {
  }

  // ---------------------------------------------------------------------
  // The kind chosen for a compound, and the interpret flag as written

  /** The fields read from a compound carry the kind keys read from it. */
  lemma ReadFieldsKeys(cfg: Serializer, mode: Mode, n: Nbt)
    requires n.NCompound? && ReadFields(cfg, mode, n).Ok?
    ensures ReadKindKeys(cfg, n.tags).Ok?
    ensures ReadFields(cfg, mode, n).value.keys == ReadKindKeys(cfg, n.tags).value
  {
  }

  /** The kind of a component read from a compound is chosen by the first
      of its kind keys present, in the order text (or the empty key),
      translate, score, selector, keybind, nbt. */
  lemma KindPrecedence(cfg: Serializer, mode: Mode, c: map<string, Nbt>)
    requires Deserialize(cfg, mode, NCompound(c)).Ok?
    ensures var k := Deserialize(cfg, mode, NCompound(c)).value.kind;
      && (k.Text? <==> "text" in c || "" in c)
      && (k.Translatable? <==> !("text" in c || "" in c) && "translate" in c)
      && (k.Score? <==> !("text" in c || "" in c || "translate" in c) && "score" in c)
      && (k.Selector? <==> !("text" in c || "" in c || "translate" in c || "score" in c) && "selector" in c)
      && (k.Keybind? <==> !("text" in c || "" in c || "translate" in c || "score" in c || "selector" in c) && "keybind" in c)
      && (k.IsNbt() <==> !("text" in c || "" in c || "translate" in c || "score" in c || "selector" in c || "keybind" in c))
      && (k.IsNbt() ==> "nbt" in c)
      && (k.BlockNbt? <==> k.IsNbt() && "block" in c)
      && (k.EntityNbt? <==> k.IsNbt() && !("block" in c) && "entity" in c)
      && (k.StorageNbt? <==> k.IsNbt() && !("block" in c || "entity" in c) && "storage" in c)
  {
    var n := NCompound(c);
    ReadFieldsKeys(cfg, mode, n);
    ContentKeysPresent(cfg, c);
    PathKeysPresent(cfg, c);
  }

  /** As written, an NBT-path component whose interpret flag is false is
      written without the flag, and reading it back fails: the absent flag
      is handed to the builder as a missing boolean. */
  lemma InterpretFalseLost(cfg: Serializer, c: Component)
    requires c.kind.IsNbt() && !c.kind.interpret && KindCanonical(cfg, c.kind)
    ensures Deserialize(cfg, AsWritten, Serialize(c)) == Fail
  {
    var n := NCompound(SerializeComponent(c));
    assert Serialize(c) == n;
    ReadKindKeysOf(cfg, c);
    if ReadFields(cfg, AsWritten, n).Ok? {
      ReadFieldsKeys(cfg, AsWritten, n);
    }
  }

  /** The same component, read as corrected, comes back with its flag. */
  lemma InterpretFalseKept(cfg: Serializer, c: Component)
    requires c.kind.IsNbt() && !c.kind.interpret && Canonical(cfg, c)
    ensures Deserialize(cfg, Corrected, Serialize(c)) == Ok(c)
    ensures Deserialize(cfg, Corrected, Serialize(c)).value.kind.interpret == false
  {
    RoundTrip(cfg, c);
  }

  // ---------------------------------------------------------------------
  // The list conversions, element by element

  /** Writes each component of a list as a compound, in order. */
  method SerializeComponentList(cs: seq<Component>) returns (r: seq<Nbt>)
    ensures r == SerializeList(cs)
  {
    r := [];
    var i := 0;
    while i < |cs|
      invariant 0 <= i <= |cs|
      invariant r == SerializeList(cs[..i])
    {
      assert cs[..i + 1][..i] == cs[..i];
      r := r + [NCompound(SerializeComponent(cs[i]))];
      i := i + 1;
    }
    assert cs[..i] == cs;
  }

  /** Reads each tag of a list as a component, in order; the first failure
      fails the whole list. */
  method DeserializeComponentList(cfg: Serializer, mode: Mode, items: seq<Nbt>) returns (r: Outcome<seq<Component>>)
    ensures r == DeserializeItems(cfg, mode, items)
  {
    if items == [] {
      return Ok([]);
    }
    var xs: seq<Component> := [];
    var i := 0;
    while i < |items|
      invariant 0 <= i <= |items|
      invariant DeserializeItems(cfg, mode, items[..i]) == Ok(xs)
    {
      assert items[..i + 1][..i] == items[..i];
      var x := Deserialize(cfg, mode, items[i]);
      if x.Fail? {
        ItemsPrefixFails(cfg, mode, items, i + 1);
        return Fail;
      }
      xs := xs + [x.value];
      i := i + 1;
    }
    assert items[..i] == items;
    r := Ok(xs);
  }

  /** A list whose prefix fails to read fails to read. */
  lemma {:induction false} ItemsPrefixFails(cfg: Serializer, mode: Mode, items: seq<Nbt>, i: nat)
    requires i <= |items| && DeserializeItems(cfg, mode, items[..i]).Fail?
    ensures DeserializeItems(cfg, mode, items).Fail?
    decreases |items|
  {
    if i < |items| {
      var init := items[..|items| - 1];
      assert init[..i] == items[..i];
      ItemsPrefixFails(cfg, mode, init, i);
    } else {
      assert items[..i] == items;
    }
  }
}
