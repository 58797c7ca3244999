/** NBT tags as the text-component serializer sees them, and the typed key
    lookups of its reader. A compound is a map from names to tags (its
    insertion order plays no part in equality). A typed lookup of an absent
    key yields nothing without looking further; a present key whose tag has
    another type is an error. */
module NbtTags {
  import opened Wire

  datatype TagType =
    | BYTE | SHORT | INT | LONG | FLOAT | DOUBLE
    | BYTE_ARRAY | STRING | LIST | COMPOUND | INT_ARRAY | LONG_ARRAY

  datatype Nbt =
    | NByte(b: int8)
    | NShort(sh: int16)
    | NInt(i: int32)
    | NLong(l: int64)
    | NFloat(f: F32)
    | NDouble(d: F64)
    | NByteArray(bytes: seq<int8>)
    | NString(str: string)
    | NList(elemType: TagType, items: seq<Nbt>)
    | NCompound(tags: map<string, Nbt>)
    | NIntArray(ints: seq<int32>)
    | NLongArray(longs: seq<int64>)
  {
    function Type(): TagType {
      match this
      case NByte(_) => BYTE
      case NShort(_) => SHORT
      case NInt(_) => INT
      case NLong(_) => LONG
      case NFloat(_) => FLOAT
      case NDouble(_) => DOUBLE
      case NByteArray(_) => BYTE_ARRAY
      case NString(_) => STRING
      case NList(_, _) => LIST
      case NCompound(_) => COMPOUND
      case NIntArray(_) => INT_ARRAY
      case NLongArray(_) => LONG_ARRAY
    }

    /** The tags that are numbers (and so have an int value). */
    predicate IsNumber() {
      NByte? || NShort? || NInt? || NLong? || NFloat? || NDouble?
    }
  }

  /** The outcome of a conversion that may throw: a value, or an error. */
  datatype Outcome<+T> = Ok(value: T) | Fail
  {
    predicate IsFailure() { Fail? }

    function PropagateFailure<U>(): Outcome<U>
      requires Fail?
    {
      Fail
    }

    function Extract(): T
      requires Ok?
    {
      value
    }
  }

  // ---------------------------------------------------------------------
  // Reading

  /** An untyped lookup. */
  function Lookup(c: map<string, Nbt>, key: string): (r: Option<Nbt>)
    ensures r.Some? <==> key in c
    ensures r.Some? ==> c[key] == r.value
  {
    if key in c then Some(c[key]) else None
  }

  /** The type check applied to a looked-up tag: nothing stays nothing, a
      tag of type `t` is kept, a tag of any other type is an error. */
  function Require(tag: Option<Nbt>, t: TagType): (r: Outcome<Option<Nbt>>)
    ensures r.Ok? && r.value.Some? ==> tag == r.value && r.value.value.Type() == t
  {
    match tag
    case None => Ok(None)
    case Some(x) => if x.Type() == t then Ok(Some(x)) else Fail
  }

  /** A lookup that insists on a tag type. */
  function Get(c: map<string, Nbt>, key: string, t: TagType): (r: Outcome<Option<Nbt>>)
    ensures r.Ok? && r.value.Some? ==> key in c && c[key] == r.value.value && r.value.value.Type() == t
  {
    Require(Lookup(c, key), t)
  }

  /** The type of the tag under `key`, if any. */
  function TypeAt(c: map<string, Nbt>, key: string): (r: Option<TagType>)
    ensures r.Some? <==> key in c
  {
    match Lookup(c, key)
    case None => None
    case Some(tag) => Some(tag.Type())
  }

  /** The typed conversions of a looked-up tag. */
  function AsString(tag: Option<Nbt>): (r: Outcome<Option<string>>)
    ensures r == Fail <==> Require(tag, STRING) == Fail
    ensures r.Ok? && r.value.Some? ==> tag == Some(NString(r.value.value))
  {
    var t :- Require(tag, STRING);
    match t
    case None => Ok(None)
    case Some(x) => Ok(Some(x.str))
  }

  /** A boolean is a BYTE tag, true when non-zero. */
  function AsBoolean(tag: Option<Nbt>): (r: Outcome<Option<bool>>)
    ensures r == Fail <==> Require(tag, BYTE) == Fail
    ensures r.Ok? && r.value.Some? ==> tag.Some? && tag.value.NByte? && r.value.value == (tag.value.b != 0)
  {
    var t :- Require(tag, BYTE);
    match t
    case None => Ok(None)
    case Some(x) => Ok(Some(x.b != 0))
  }

  function AsInt(tag: Option<Nbt>): (r: Outcome<Option<int32>>)
    ensures r == Fail <==> Require(tag, INT) == Fail
    ensures r.Ok? && r.value.Some? ==> tag == Some(NInt(r.value.value))
  {
    var t :- Require(tag, INT);
    match t
    case None => Ok(None)
    case Some(x) => Ok(Some(x.i))
  }

  function AsIntArray(tag: Option<Nbt>): (r: Outcome<Option<seq<int32>>>)
    ensures r == Fail <==> Require(tag, INT_ARRAY) == Fail
    ensures r.Ok? && r.value.Some? ==> tag == Some(NIntArray(r.value.value))
  {
    var t :- Require(tag, INT_ARRAY);
    match t
    case None => Ok(None)
    case Some(x) => Ok(Some(x.ints))
  }

  function ReadUTF(c: map<string, Nbt>, key: string): Outcome<Option<string>> {
    AsString(Lookup(c, key))
  }

  function ReadBoolean(c: map<string, Nbt>, key: string): Outcome<Option<bool>> {
    AsBoolean(Lookup(c, key))
  }

  function ReadInt(c: map<string, Nbt>, key: string): Outcome<Option<int32>> {
    AsInt(Lookup(c, key))
  }

  function ReadIntArray(c: map<string, Nbt>, key: string): Outcome<Option<seq<int32>>> {
    AsIntArray(Lookup(c, key))
  }

  /** The three outcomes of a typed lookup, each in terms of the compound:
      absent keys read as nothing, matching tags are returned unchanged,
      mismatching ones fail. */
  lemma GetOutcomes(c: map<string, Nbt>, key: string, t: TagType)
    ensures Get(c, key, t) == Ok(None) <==> key !in c
    ensures Get(c, key, t) == Fail <==> key in c && c[key].Type() != t
    ensures Get(c, key, t).Ok? && Get(c, key, t).value.Some? <==> key in c && c[key].Type() == t
  {
  }

  // ---------------------------------------------------------------------
  // Writing: each write sets one key and keeps every other key.

  /** A boolean is written as the BYTE 1 or 0. */
  function BooleanTag(v: bool): (t: Nbt)
    ensures t.NByte? && (t.b != 0 <==> v)
  {
    NByte(if v then 1 else 0)
  }

  /** Writing a boolean and reading it back gives the same boolean, and the
      other keys of the compound are untouched. */
  lemma WriteBooleanReadsBack(c: map<string, Nbt>, key: string, v: bool, other: string)
    requires other != key
    ensures ReadBoolean(c[key := BooleanTag(v)], key) == Ok(Some(v))
    ensures Lookup(c[key := BooleanTag(v)], other) == Lookup(c, other)
  {
  }
}
