/**
 * The type-directed normalizer and coercer of request and response values
 * (crates/bicdb-app-runtime/src/http.rs). The formats of the leaves (dates, decimals,
 * geometries, JSON text, regular expressions) are a parameter.
 */
module Normalize {
  import opened Prelude

  // ---------------------------------------------------------------- values and types

  /** A JSON number keeps whether it was written as an integer. */
  datatype Num = Whole(integer: int) | Floating(float: real)

  datatype Value =
    | Null
    | Bool(truth: bool)
    | Number(number: Num)
    | Str(text: string)
    | Array(items: seq<Value>)
    | Object(members: map<string, Value>)

  datatype TextKind = Timestamp | Date | LocalDateTime | TimeZone | Uuid

  datatype GeometryKind = Point | LineString | Polygon

  datatype Rule =
    | Email
    | Length(min: Option<nat>, max: Option<nat>)
    | Range(minimum: Option<string>, maximum: Option<string>)
    | Pattern(expression: string)

  datatype Field = Field(name: string, valueType: Type, optional: bool, defaultJson: Option<string>,
                         rules: seq<Rule>)

  datatype Type =
    | Text
    | Int
    | Float
    | Decimal
    | Boolean
    | Json
    | Formatted(kind: TextKind)
    | Enum(values: set<string>)
    | List(element: Type)
    | Set(element: Type)
    | Optional(inner: Type)
    | Record(fields: seq<Field>)
    | Dictionary(key: Type, value: Type)
    | Vector(dimensions: nat)
    | Geometry(shape: GeometryKind)
    | Nothing

  /** Why a value is refused. */
  datatype Refusal = Mismatch | BadDefault | MissingField | RuleViolated

  type Outcome = Result<Value, Refusal>

  const ENVELOPE := "$bicdb_typed"

  predicate FitsI64(i: int) {
    -0x8000_0000_0000_0000 <= i <= 0x7fff_ffff_ffff_ffff
  }

  /** The leaf formats: each parser gives the canonical form, or nothing. */
  datatype Formats = Formats(
    round: int -> real,
    digits: Num -> string,
    integer: string -> Option<int>,
    float: string -> Option<real>,
    decimal: string -> Option<string>,
    scale: string -> nat,
    text: (TextKind, string) -> Option<string>,
    geometry: (GeometryKind, Value) -> Option<Value>,
    json: string -> Option<Value>,
    isEmail: string -> bool,
    matches: (string, string) -> bool,
    inRange: (Value, Option<string>, Option<string>) -> bool)
  {
    /** What canonical forms have to be: their own canonical form, a geometry an object but no envelope. */
    ghost predicate Canonical() {
      && (forall s :: decimal(s).Some? ==> decimal(decimal(s).value) == decimal(s))
      && (forall k, s :: text(k, s).Some? ==> text(k, text(k, s).value) == text(k, s))
      && (forall k, v :: geometry(k, v).Some? ==>
            && geometry(k, geometry(k, v).value) == geometry(k, v)
            && geometry(k, v).value.Object? && !IsEnvelope(geometry(k, v).value))
    }
  }

  /** A typed SQL value as storage keeps it: an object holding its text form. */
  predicate IsEnvelope(v: Value) {
    v.Object? && ENVELOPE in v.members && HoldsText(v.members[ENVELOPE])
  }

  predicate HoldsText(v: Value) {
    v.Object? && "text" in v.members && v.members["text"].Str?
  }

  function Unwrapped(v: Value): (u: Value)
    ensures !IsEnvelope(u)
  {
    if IsEnvelope(v) then v.members[ENVELOPE].members["text"] else v
  }

  // ---------------------------------------------------------------- validation

  function LengthOf(v: Value): Option<nat> {
    if v.Str? then Some(|v.text|) else if v.Array? then Some(|v.items|) else None
  }

  predicate Meets(f: Formats, v: Value, rule: Rule) {
    match rule
    case Email => v.Str? && f.isEmail(v.text)
    case Length(min, max) =>
      && LengthOf(v).Some?
      && (min.Some? ==> min.value <= LengthOf(v).value) && (max.Some? ==> LengthOf(v).value <= max.value)
    case Range(minimum, maximum) => f.inRange(v, minimum, maximum)
    case Pattern(expression) => v.Str? && f.matches(expression, v.text)
  }

  predicate Validates(f: Formats, v: Value, field: Field) {
    (v.Null? && field.optional) || forall i :: 0 <= i < |field.rules| ==> Meets(f, v, field.rules[i])
  }

  // ---------------------------------------------------------------- collections

  /** The element replaces the one with the same key, or is added at the end. */
  function Put(items: seq<Value>, item: Value, key: Value -> Value): seq<Value> {
    if items == [] then [item]
    else if key(items[0]) == key(item) then [item] + items[1..]
    else [items[0]] + Put(items[1..], item, key)
  }

  /** One element for each key: the last one, at the place of the first. */
  function Merged(items: seq<Value>, key: Value -> Value): seq<Value> {
    if items == [] then []
    else Put(Merged(items[..|items| - 1], key), items[|items| - 1], key)
  }

  /** A set's element is its own key, so that repeated elements are dropped. */
  const ITSELF: Value -> Value := (v: Value) => v

  const KEY_MEMBER: Value -> Value :=
    (v: Value) => if v.Object? && "key" in v.members then v.members["key"] else Null

  function Entry(key: Value, value: Value): Value {
    Object(map["key" := key, "value" := value])
  }

  predicate Differ(items: seq<Value>, key: Value -> Value) {
    forall i, j :: 0 <= i < j < |items| ==> key(items[i]) != key(items[j])
  }

  // ---------------------------------------------------------------- normalization

  function FloatValue(f: Formats, v: Value): Outcome {
    if v.Number? then
      Ok(Number(Floating(if v.number.Whole? then f.round(v.number.integer) else v.number.float)))
    else Err(Mismatch)
  }

  function Floats(f: Formats, values: seq<Value>): Result<seq<Value>, Refusal> {
    if values == [] then Ok([])
    else
      var init := Floats(f, values[..|values| - 1]);
      if init.Err? then init
      else
        var last := FloatValue(f, values[|values| - 1]);
        if last.Err? then Err(last.error) else Ok(init.value + [last.value])
  }

  function DecimalValue(f: Formats, v: Value): Outcome {
    var text := if v.Str? then Some(v.text) else if v.Number? then Some(f.digits(v.number)) else None;
    if text.Some? && f.decimal(text.value).Some? then Ok(Str(f.decimal(text.value).value)) else Err(Mismatch)
  }

  /** An envelope is normalized from its text form. */
  function Normalize(f: Formats, v: Value, t: Type): Outcome
    decreases t, 2
  {
    NormalizePlain(f, Unwrapped(v), t)
  }

  function NormalizePlain(f: Formats, v: Value, t: Type): Outcome
    decreases t, 1
  {
    match t
    case Text => if v.Str? then Ok(v) else Err(Mismatch)
    case Int => if v.Number? && v.number.Whole? && FitsI64(v.number.integer) then Ok(v) else Err(Mismatch)
    case Float => FloatValue(f, v)
    case Decimal => DecimalValue(f, v)
    case Boolean => if v.Bool? then Ok(v) else Err(Mismatch)
    case Json => Ok(v)
    case Formatted(kind) =>
      if v.Str? && f.text(kind, v.text).Some? then Ok(Str(f.text(kind, v.text).value)) else Err(Mismatch)
    case Enum(values) => if v.Str? && v.text in values then Ok(v) else Err(Mismatch)
    case List(element) =>
      if !v.Array? then Err(Mismatch)
      else
        var items := NormalizeAll(f, v.items, element);
        if items.Err? then Err(items.error) else Ok(Array(items.value))
    case Set(element) =>
      if !v.Array? then Err(Mismatch)
      else
        var items := NormalizeAll(f, v.items, element);
        if items.Err? then Err(items.error) else Ok(Array(Merged(items.value, ITSELF)))
    case Optional(inner) => if v.Null? then Ok(Null) else Normalize(f, v, inner)
    case Record(_) =>
      if !v.Object? then Err(Mismatch)
      else
        var members := NormalizeFields(f, v.members, t, |t.fields|);
        if members.Err? then Err(members.error) else Ok(Object(members.value))
    case Dictionary(_, _) =>
      if !v.Array? then Err(Mismatch)
      else
        var items := NormalizeEntries(f, v.items, t);
        if items.Err? then Err(items.error) else Ok(Array(Merged(items.value, KEY_MEMBER)))
    case Vector(dimensions) =>
      if !v.Array? || |v.items| != dimensions then Err(Mismatch)
      else
        var items := Floats(f, v.items);
        if items.Err? then Err(items.error) else Ok(Array(items.value))
    case Geometry(shape) =>
      if f.geometry(shape, v).Some? then Ok(f.geometry(shape, v).value) else Err(Mismatch)
    case Nothing => if v.Null? then Ok(Null) else Err(Mismatch)
  }

  function NormalizeAll(f: Formats, values: seq<Value>, t: Type): Result<seq<Value>, Refusal>
    decreases t, 3, |values|
  {
    if values == [] then Ok([])
    else
      var init := NormalizeAll(f, values[..|values| - 1], t);
      if init.Err? then init
      else
        var last := Normalize(f, values[|values| - 1], t);
        if last.Err? then Err(last.error) else Ok(init.value + [last.value])
  }

  /** The value given for a field: what the object has, else the signed default, else null. */
  function Given(f: Formats, members: map<string, Value>, field: Field): Outcome {
    if field.name in members then Ok(members[field.name])
    else if field.defaultJson.Some? then
      var parsed := f.json(field.defaultJson.value);
      if parsed.Some? then Ok(parsed.value) else Err(BadDefault)
    else if field.optional then Ok(Null) else Err(MissingField)
  }

  function NormalizeField(f: Formats, members: map<string, Value>, field: Field): Outcome
    decreases field.valueType, 3
  {
    var given := Given(f, members, field);
    if given.Err? then given
    else
      var result := if field.optional && given.value.Null? then Ok(Null)
                    else Normalize(f, given.value, field.valueType);
      if result.Ok? && !Validates(f, result.value, field) then Err(RuleViolated) else result
  }

  function NormalizeFields(f: Formats, members: map<string, Value>, t: Type, count: nat)
    : Result<map<string, Value>, Refusal>
    requires t.Record? && count <= |t.fields|
    decreases t, 0, count
  {
    if count == 0 then Ok(map[])
    else
      var init := NormalizeFields(f, members, t, count - 1);
      if init.Err? then init
      else
        var field := t.fields[count - 1];
        var last := NormalizeField(f, members, field);
        if last.Err? then Err(last.error) else Ok(init.value[field.name := last.value])
  }

  function NormalizeEntry(f: Formats, v: Value, t: Type): Outcome
    requires t.Dictionary?
    decreases t, 0, 0
  {
    if !v.Object? || "key" !in v.members || "value" !in v.members then Err(Mismatch)
    else
      var key := Normalize(f, v.members["key"], t.key);
      if key.Err? then key
      else
        var value := Normalize(f, v.members["value"], t.value);
        if value.Err? then value else Ok(Entry(key.value, value.value))
  }

  function NormalizeEntries(f: Formats, values: seq<Value>, t: Type): Result<seq<Value>, Refusal>
    requires t.Dictionary?
    decreases t, 0, 1 + |values|
  {
    if values == [] then Ok([])
    else
      var init := NormalizeEntries(f, values[..|values| - 1], t);
      if init.Err? then init
      else
        var last := NormalizeEntry(f, values[|values| - 1], t);
        if last.Err? then Err(last.error) else Ok(init.value + [last.value])
  }

  // ---------------------------------------------------------------- coercion

  /** Text is read as the JSON it spells. */
  function Parsed(f: Formats, v: Value): Outcome {
    if !v.Str? then Ok(v)
    else if f.json(v.text).Some? then Ok(f.json(v.text).value) else Err(Mismatch)
  }

  /** A value that is no array stands for an array of itself. */
  function Listed(v: Value): seq<Value> {
    if v.Array? then v.items else [v]
  }

  function Coerce(f: Formats, v: Value, t: Type): Outcome
    decreases t, 2
  {
    match t
    case Text => if v.Str? then Ok(v) else Err(Mismatch)
    case Int =>
      var integer := if v.Number? && v.number.Whole? then Some(v.number.integer)
                     else if v.Str? then f.integer(v.text) else None;
      if integer.Some? && FitsI64(integer.value) then Ok(Number(Whole(integer.value))) else Err(Mismatch)
    case Float =>
      if !v.Str? then FloatValue(f, v)
      else if f.float(v.text).Some? then Ok(Number(Floating(f.float(v.text).value))) else Err(Mismatch)
    case Decimal =>
      var value := DecimalValue(f, v);
      if value.Ok? && f.scale(value.value.text) > 28 then Err(Mismatch) else value
    case Boolean =>
      if v.Bool? then Ok(v)
      else if v == Str("true") then Ok(Bool(true))
      else if v == Str("false") then Ok(Bool(false)) else Err(Mismatch)
    case Json => Parsed(f, v)
    case Formatted(kind) =>
      if v.Str? && f.text(kind, v.text).Some? then Ok(Str(f.text(kind, v.text).value)) else Err(Mismatch)
    case Enum(values) => if v.Str? && v.text in values then Ok(v) else Err(Mismatch)
    case List(element) =>
      var items := CoerceAll(f, Listed(v), element);
      if items.Err? then Err(items.error) else Ok(Array(items.value))
    case Set(element) =>
      var items := CoerceAll(f, Listed(v), element);
      if items.Err? then Err(items.error) else Ok(Array(Merged(items.value, ITSELF)))
    case Optional(inner) => if v.Null? then Ok(Null) else Coerce(f, v, inner)
    case Record(_) => ParsedThenNormalized(f, v, t)
    case Dictionary(_, _) => ParsedThenNormalized(f, v, t)
    case Vector(_) => ParsedThenNormalized(f, v, t)
    case Geometry(_) => ParsedThenNormalized(f, v, t)
    case Nothing => if v.Null? then Ok(Null) else Err(Mismatch)
  }

  function ParsedThenNormalized(f: Formats, v: Value, t: Type): Outcome {
    var parsed := Parsed(f, v);
    if parsed.Err? then parsed else Normalize(f, parsed.value, t)
  }

  function CoerceAll(f: Formats, values: seq<Value>, t: Type): Result<seq<Value>, Refusal>
    decreases t, 3, |values|
  {
    if values == [] then Ok([])
    else
      var init := CoerceAll(f, values[..|values| - 1], t);
      if init.Err? then init
      else
        var last := Coerce(f, values[|values| - 1], t);
        if last.Err? then Err(last.error) else Ok(init.value + [last.value])
  }

  // ---------------------------------------------------------------- what a type means

  ghost predicate NamesDiffer(fields: seq<Field>) {
    forall i, j :: 0 <= i < j < |fields| ==> fields[i].name != fields[j].name
  }

  /** No record has two fields of the same name. */
  ghost predicate WellNamed(t: Type) {
    match t
    case List(element) => WellNamed(element)
    case Set(element) => WellNamed(element)
    case Optional(inner) => WellNamed(inner)
    case Record(fields) =>
      NamesDiffer(fields) && forall i :: 0 <= i < |fields| ==> WellNamed(fields[i].valueType)
    case Dictionary(key, value) => WellNamed(key) && WellNamed(value)
    case _ => true
  }

  /** Some value of the type may be text. */
  predicate MayBeText(t: Type) {
    match t
    case Optional(inner) => MayBeText(inner)
    case _ => t.Text? || t.Decimal? || t.Formatted? || t.Enum? || t.Json?
  }

  /** Some value of the type may be an object with a text member `text`. */
  predicate MayHoldText(t: Type) {
    match t
    case Optional(inner) => MayHoldText(inner)
    case Record(fields) => exists i :: 0 <= i < |fields| && fields[i].name == "text" && MayBeText(fields[i].valueType)
    case _ => t.Json? || t.Geometry?
  }

  /** Every value is admitted. */
  predicate IsOpen(t: Type) {
    t.Json? || (t.Optional? && IsOpen(t.inner))
  }

  /**
   * The field can make its record an envelope. An open field cannot, unless it has a
   * default: the object it is given in would have been an envelope already.
   */
  predicate MayWrap(field: Field) {
    && field.name == ENVELOPE
    && if IsOpen(field.valueType) then field.defaultJson.Some? else MayHoldText(field.valueType)
  }

  /** No record has a field with the name of the storage envelope that could make it one. */
  ghost predicate Unreserved(t: Type) {
    match t
    case List(element) => Unreserved(element)
    case Set(element) => Unreserved(element)
    case Optional(inner) => Unreserved(inner)
    case Record(fields) =>
      forall i :: 0 <= i < |fields| ==> !MayWrap(fields[i]) && Unreserved(fields[i].valueType)
    case Dictionary(key, value) => Unreserved(key) && Unreserved(value)
    case _ => true
  }

  predicate IsEntry(v: Value) {
    v.Object? && v.members.Keys == {"key", "value"}
  }

  ghost predicate AreFields(members: map<string, Value>, fields: seq<Field>) {
    && (forall i :: 0 <= i < |fields| ==> fields[i].name in members)
    && (forall name :: name in members ==> exists i :: 0 <= i < |fields| && fields[i].name == name)
  }

  /** The values of a type, in canonical form. */
  ghost predicate Conforms(f: Formats, w: Value, t: Type)
    decreases t
  {
    match t
    case Text => w.Str?
    case Int => w.Number? && w.number.Whole? && FitsI64(w.number.integer)
    case Float => w.Number? && w.number.Floating?
    case Decimal => w.Str? && f.decimal(w.text) == Some(w.text)
    case Boolean => w.Bool?
    case Json => true
    case Formatted(kind) => w.Str? && f.text(kind, w.text) == Some(w.text)
    case Enum(values) => w.Str? && w.text in values
    case List(element) => w.Array? && forall i :: 0 <= i < |w.items| ==> Conforms(f, w.items[i], element)
    case Set(element) =>
      && w.Array? && Differ(w.items, ITSELF)
      && forall i :: 0 <= i < |w.items| ==> Conforms(f, w.items[i], element)
    case Optional(inner) => w.Null? || Conforms(f, w, inner)
    case Record(fields) =>
      && w.Object? && AreFields(w.members, fields)
      && forall i :: 0 <= i < |fields| ==>
        && Validates(f, w.members[fields[i].name], fields[i])
        && ((fields[i].optional && w.members[fields[i].name].Null?)
            || Conforms(f, w.members[fields[i].name], fields[i].valueType))
    case Dictionary(key, value) =>
      && w.Array? && Differ(w.items, KEY_MEMBER)
      && forall i :: 0 <= i < |w.items| ==>
        && IsEntry(w.items[i])
        && Conforms(f, w.items[i].members["key"], key) && Conforms(f, w.items[i].members["value"], value)
    case Vector(dimensions) =>
      && w.Array? && |w.items| == dimensions
      && forall i :: 0 <= i < dimensions ==> w.items[i].Number? && w.items[i].number.Floating?
    case Geometry(shape) => f.geometry(shape, w) == Some(w)
    case Nothing => w.Null?
  }

  /** No part of the value that its type leaves open, or makes a record, is an envelope. */
  ghost predicate Settled(w: Value, t: Type)
    decreases t
  {
    match t
    case Json => !IsEnvelope(w)
    case List(element) => w.Array? ==> forall i :: 0 <= i < |w.items| ==> Settled(w.items[i], element)
    case Set(element) => w.Array? ==> forall i :: 0 <= i < |w.items| ==> Settled(w.items[i], element)
    case Optional(inner) => w.Null? || Settled(w, inner)
    case Record(fields) =>
      && !IsEnvelope(w)
      && (w.Object? ==> forall i :: 0 <= i < |fields| && fields[i].name in w.members ==>
            || (fields[i].optional && w.members[fields[i].name].Null?)
            || Settled(w.members[fields[i].name], fields[i].valueType))
    case Dictionary(key, value) =>
      w.Array? ==> forall i :: 0 <= i < |w.items| && IsEntry(w.items[i]) ==>
        Settled(w.items[i].members["key"], key) && Settled(w.items[i].members["value"], value)
    case _ => true
  }

  // ---------------------------------------------------------------- collections, element by element

  lemma {:induction false} PutAddsOnly(items: seq<Value>, item: Value, key: Value -> Value, x: Value)
    requires x in Put(items, item, key)
    ensures x == item || x in items
  {
    if items != [] && key(items[0]) != key(item) && x != items[0] {
      PutAddsOnly(items[1..], item, key, x);
    }
  }

  /** A new key goes to the end; only then does the sequence grow. */
  lemma {:induction false} PutAppendsOrReplaces(items: seq<Value>, item: Value, key: Value -> Value)
    ensures |Put(items, item, key)| <= |items| + 1
    ensures |Put(items, item, key)| == |items| + 1 ==> Put(items, item, key) == items + [item]
    ensures (forall i :: 0 <= i < |items| ==> key(items[i]) != key(item)) ==> Put(items, item, key) == items + [item]
  {
    if items != [] {
      PutAppendsOrReplaces(items[1..], item, key);
      assert items == [items[0]] + items[1..];
    }
  }

  /** A known key keeps its place. */
  lemma {:induction false} PutInPlace(items: seq<Value>, item: Value, key: Value -> Value, i: nat)
    requires i < |items| && key(items[i]) == key(item)
    requires forall j :: 0 <= j < i ==> key(items[j]) != key(item)
    ensures Put(items, item, key) == items[i := item]
  {
    if i > 0 {
      PutInPlace(items[1..], item, key, i - 1);
      assert items[i := item] == [items[0]] + items[1..][i - 1 := item];
    }
  }

  lemma {:induction false} PutKeepsKeysApart(items: seq<Value>, item: Value, key: Value -> Value)
    requires Differ(items, key)
    ensures Differ(Put(items, item, key), key)
  {
    if items != [] && key(items[0]) != key(item) {
      PutKeepsKeysApart(items[1..], item, key);
      var rest := Put(items[1..], item, key);
      forall i | 0 <= i < |rest|
        ensures key(items[0]) != key(rest[i])
      {
        PutAddsOnly(items[1..], item, key, rest[i]);
      }
    }
  }

  lemma {:induction false} MergedAddsNothing(items: seq<Value>, key: Value -> Value, x: Value)
    requires x in Merged(items, key)
    ensures x in items
  {
    var init, last := items[..|items| - 1], items[|items| - 1];
    PutAddsOnly(Merged(init, key), last, key, x);
    if x != last {
      MergedAddsNothing(init, key, x);
    }
  }

  lemma {:induction false} PutKeeps(items: seq<Value>, item: Value, key: Value -> Value, x: Value)
    requires x in items && key(x) != key(item)
    ensures x in Put(items, item, key)
  {
    if x != items[0] && key(items[0]) != key(item) {
      PutKeeps(items[1..], item, key, x);
    }
  }

  lemma {:induction false} PutHasItem(items: seq<Value>, item: Value, key: Value -> Value)
    ensures item in Put(items, item, key)
  {
    if items != [] && key(items[0]) != key(item) {
      PutHasItem(items[1..], item, key);
      assert Put(items, item, key)[1..] == Put(items[1..], item, key);
    }
  }

  /** The last element of each key stays. */
  lemma {:induction false} MergedKeepsLast(items: seq<Value>, key: Value -> Value, i: nat)
    requires i < |items| && forall j :: i < j < |items| ==> key(items[j]) != key(items[i])
    ensures items[i] in Merged(items, key)
  {
    var init, last := items[..|items| - 1], items[|items| - 1];
    if i < |items| - 1 {
      MergedKeepsLast(init, key, i);
      PutKeeps(Merged(init, key), last, key, items[i]);
    } else {
      PutHasItem(Merged(init, key), last, key);
    }
  }

  /** Merging keeps keys apart, and loses nothing only if it changes nothing. */
  lemma {:induction false} MergedKeepsKeysApart(items: seq<Value>, key: Value -> Value)
    ensures Differ(Merged(items, key), key)
    ensures |Merged(items, key)| <= |items|
    ensures |Merged(items, key)| == |items| ==> Merged(items, key) == items
    ensures Differ(items, key) ==> Merged(items, key) == items
  {
    if items != [] {
      var init, last := items[..|items| - 1], items[|items| - 1];
      MergedKeepsKeysApart(init, key);
      PutKeepsKeysApart(Merged(init, key), last, key);
      PutAppendsOrReplaces(Merged(init, key), last, key);
      assert items == init + [last];
    }
  }

  lemma {:induction false} AllNormalized(f: Formats, values: seq<Value>, t: Type)
    requires NormalizeAll(f, values, t).Ok?
    ensures var r := NormalizeAll(f, values, t).value;
      |r| == |values| && forall i :: 0 <= i < |values| ==> Normalize(f, values[i], t) == Ok(r[i])
  {
    if values != [] {
      AllNormalized(f, values[..|values| - 1], t);
    }
  }

  lemma {:induction false} AllFixed(f: Formats, values: seq<Value>, t: Type)
    requires forall i :: 0 <= i < |values| ==> Normalize(f, values[i], t) == Ok(values[i])
    ensures NormalizeAll(f, values, t) == Ok(values)
  {
    if values != [] {
      AllFixed(f, values[..|values| - 1], t);
      assert values == values[..|values| - 1] + [values[|values| - 1]];
    }
  }

  lemma {:induction false} EntriesNormalized(f: Formats, values: seq<Value>, t: Type)
    requires t.Dictionary? && NormalizeEntries(f, values, t).Ok?
    ensures var r := NormalizeEntries(f, values, t).value;
      |r| == |values| && forall i :: 0 <= i < |values| ==> NormalizeEntry(f, values[i], t) == Ok(r[i])
  {
    if values != [] {
      EntriesNormalized(f, values[..|values| - 1], t);
    }
  }

  lemma {:induction false} EntriesFixed(f: Formats, values: seq<Value>, t: Type)
    requires t.Dictionary?
    requires forall i :: 0 <= i < |values| ==> NormalizeEntry(f, values[i], t) == Ok(values[i])
    ensures NormalizeEntries(f, values, t) == Ok(values)
  {
    if values != [] {
      EntriesFixed(f, values[..|values| - 1], t);
      assert values == values[..|values| - 1] + [values[|values| - 1]];
    }
  }

  lemma {:induction false} FloatsNormalized(f: Formats, values: seq<Value>)
    requires Floats(f, values).Ok?
    ensures var r := Floats(f, values).value;
      |r| == |values| && forall i :: 0 <= i < |values| ==> FloatValue(f, values[i]) == Ok(r[i])
  {
    if values != [] {
      FloatsNormalized(f, values[..|values| - 1]);
    }
  }

  lemma {:induction false} FloatsFixed(f: Formats, values: seq<Value>)
    requires forall i :: 0 <= i < |values| ==> FloatValue(f, values[i]) == Ok(values[i])
    ensures Floats(f, values) == Ok(values)
  {
    if values != [] {
      FloatsFixed(f, values[..|values| - 1]);
      assert values == values[..|values| - 1] + [values[|values| - 1]];
    }
  }

  lemma {:induction false} AllCoerced(f: Formats, values: seq<Value>, t: Type)
    requires CoerceAll(f, values, t).Ok?
    ensures var r := CoerceAll(f, values, t).value;
      |r| == |values| && forall i :: 0 <= i < |values| ==> Coerce(f, values[i], t) == Ok(r[i])
  {
    if values != [] {
      var last := |values| - 1;
      var init, r := values[..last], CoerceAll(f, values, t).value;
      AllCoerced(f, init, t);
      forall i | 0 <= i < |values|
        ensures Coerce(f, values[i], t) == Ok(r[i])
      {
        assert i < last ==> init[i] == values[i];
      }
    }
  }

  /** With different names, the record holds each field's own value. */
  lemma {:induction false} FieldNormalized(f: Formats, members: map<string, Value>, t: Type, count: nat, i: nat)
    requires t.Record? && i < count <= |t.fields| && NamesDiffer(t.fields)
    requires NormalizeFields(f, members, t, count).Ok?
    ensures var r := NormalizeFields(f, members, t, count).value;
      t.fields[i].name in r && NormalizeField(f, members, t.fields[i]) == Ok(r[t.fields[i].name])
  {
    if i < count - 1 {
      FieldNormalized(f, members, t, count - 1, i);
    }
  }

  /** The record holds nothing but its fields. */
  lemma {:induction false} OnlyFields(f: Formats, members: map<string, Value>, t: Type, count: nat, name: string)
    requires t.Record? && count <= |t.fields|
    requires NormalizeFields(f, members, t, count).Ok? && name in NormalizeFields(f, members, t, count).value
    ensures exists i :: 0 <= i < count && t.fields[i].name == name
  {
    if name == t.fields[count - 1].name {
    } else {
      OnlyFields(f, members, t, count - 1, name);
    }
  }

  lemma {:induction false} FieldsAccepted(f: Formats, members: map<string, Value>, t: Type, count: nat)
    requires t.Record? && count <= |t.fields|
    requires forall i :: 0 <= i < count ==> NormalizeField(f, members, t.fields[i]).Ok?
    ensures NormalizeFields(f, members, t, count).Ok?
  {
    if count > 0 {
      FieldsAccepted(f, members, t, count - 1);
    }
  }

  // ---------------------------------------------------------------- the order of merged elements

  /** What merging a further element does: it replaces the one of its key in place, or is appended. */
  lemma MergedNext(items: seq<Value>, key: Value -> Value) returns (place: nat)
    requires items != []
    ensures var before, last := Merged(items[..|items| - 1], key), items[|items| - 1];
      && Differ(before, key) && place <= |before|
      && (place < |before| ==> key(before[place]) == key(last) && Merged(items, key) == before[place := last])
      && (place == |before| ==>
            Merged(items, key) == before + [last]
            && forall j :: 0 <= j < |before| ==> key(before[j]) != key(last))
  {
    var before, last := Merged(items[..|items| - 1], key), items[|items| - 1];
    MergedKeepsKeysApart(items[..|items| - 1], key);
    place := 0;
    while place < |before| && key(before[place]) != key(last)
      invariant place <= |before| && forall j :: 0 <= j < place ==> key(before[j]) != key(last)
    {
      place := place + 1;
    }
    if place < |before| {
      PutInPlace(before, last, key, place);
    } else {
      PutAppendsOrReplaces(before, last, key);
    }
  }

  lemma {:induction false} MergedHasKey(items: seq<Value>, key: Value -> Value, i: nat) returns (j: nat)
    requires i < |items|
    ensures j < |Merged(items, key)| && key(Merged(items, key)[j]) == key(items[i])
  {
    var last := |items| - 1;
    var place := MergedNext(items, key);
    if i < last {
      j := MergedHasKey(items[..last], key, i);
    } else {
      j := place;
    }
  }

  /** Merged elements stand in the order in which their keys first occur. */
  lemma {:induction false} MergedKeepsOrder(items: seq<Value>, key: Value -> Value, a: nat, b: nat, i: nat)
    returns (j: nat)
    requires a < b < |Merged(items, key)| && i < |items| && key(items[i]) == key(Merged(items, key)[b])
    ensures j < i && key(items[j]) == key(Merged(items, key)[a])
  {
    var last := |items| - 1;
    var init := items[..last];
    var before := Merged(init, key);
    var place := MergedNext(items, key);
    if i < last && b < |before| {
      j := MergedKeepsOrder(init, key, a, b, i);
    } else if i < last {
      var k := MergedHasKey(init, key, i);
      assert false;
    } else {
      assert before[a] in before;
      MergedAddsNothing(init, key, before[a]);
      j :| 0 <= j < |init| && init[j] == before[a];
    }
  }

  // ---------------------------------------------------------------- what a record's field is

  /** The value given for a field becomes `x`. */
  ghost predicate Becomes(f: Formats, given: Value, field: Field, x: Value) {
    if field.optional && given.Null? then x.Null? else Normalize(f, given, field.valueType) == Ok(x)
  }

  /**
   * A field's value comes from the object when it has one, else from the signed default, else it
   * is null if the field is optional; whatever it is, it obeys every rule unless it is an optional null.
   */
  ghost predicate FieldIs(f: Formats, members: map<string, Value>, field: Field, x: Value) {
    && (field.name in members ==> Becomes(f, members[field.name], field, x))
    && (field.name !in members && field.defaultJson.Some? ==>
          f.json(field.defaultJson.value).Some? && Becomes(f, f.json(field.defaultJson.value).value, field, x))
    && (field.name !in members && field.defaultJson.None? ==> field.optional && x.Null?)
    && ((field.optional && x.Null?) || forall i :: 0 <= i < |field.rules| ==> Meets(f, x, field.rules[i]))
  }

  lemma FieldMeans(f: Formats, members: map<string, Value>, field: Field, x: Value)
    ensures NormalizeField(f, members, field) == Ok(x) <==> FieldIs(f, members, field, x)
  {
  }

  /** An object is a record exactly when each field has a value, and then it has those and no others. */
  lemma RecordMeans(f: Formats, members: map<string, Value>, fields: seq<Field>, r: map<string, Value>)
    requires NamesDiffer(fields) && !IsEnvelope(Object(members))
    ensures Normalize(f, Object(members), Record(fields)) == Ok(Object(r)) <==>
      && AreFields(r, fields)
      && forall i :: 0 <= i < |fields| ==> FieldIs(f, members, fields[i], r[fields[i].name])
  {
    var t := Record(fields);
    assert Normalize(f, Object(members), t) == NormalizePlain(f, Object(members), t);
    if Normalize(f, Object(members), t) == Ok(Object(r)) {
      assert NormalizeFields(f, members, t, |fields|) == Ok(r);
      forall i | 0 <= i < |fields|
        ensures fields[i].name in r && FieldIs(f, members, fields[i], r[fields[i].name])
      {
        FieldNormalized(f, members, t, |fields|, i);
        FieldMeans(f, members, fields[i], r[fields[i].name]);
      }
      forall name | name in r
        ensures exists i :: 0 <= i < |fields| && fields[i].name == name
      {
        OnlyFields(f, members, t, |fields|, name);
      }
    }
    if AreFields(r, fields) && (forall i :: 0 <= i < |fields| ==> FieldIs(f, members, fields[i], r[fields[i].name])) {
      RecordIsBuilt(f, members, t, r);
    }
  }

  lemma RecordIsBuilt(f: Formats, members: map<string, Value>, t: Type, r: map<string, Value>)
    requires t.Record? && NamesDiffer(t.fields) && AreFields(r, t.fields)
    requires forall i :: 0 <= i < |t.fields| ==> FieldIs(f, members, t.fields[i], r[t.fields[i].name])
    ensures NormalizeFields(f, members, t, |t.fields|) == Ok(r)
  {
    forall i | 0 <= i < |t.fields|
      ensures NormalizeField(f, members, t.fields[i]) == Ok(r[t.fields[i].name])
    {
      FieldMeans(f, members, t.fields[i], r[t.fields[i].name]);
    }
    FieldsAccepted(f, members, t, |t.fields|);
    var built := NormalizeFields(f, members, t, |t.fields|).value;
    forall i | 0 <= i < |t.fields|
      ensures t.fields[i].name in built && built[t.fields[i].name] == r[t.fields[i].name]
    {
      FieldNormalized(f, members, t, |t.fields|, i);
    }
    forall name | name in built
      ensures exists i :: 0 <= i < |t.fields| && t.fields[i].name == name
    {
      OnlyFields(f, members, t, |t.fields|, name);
    }
    assert built.Keys == r.Keys;
    assert built == r;
  }

  /** Both bounds of a length rule are allowed: with equal bounds, exactly that length. */
  lemma LengthBoundsAreInclusive(f: Formats, text: string, items: seq<Value>, n: nat)
    ensures Meets(f, Str(text), Length(Some(n), Some(n))) <==> |text| == n
    ensures Meets(f, Array(items), Length(Some(n), Some(n))) <==> |items| == n
    ensures Meets(f, Str(text), Length(Some(n), None)) <==> n <= |text|
    ensures Meets(f, Str(text), Length(None, Some(n))) <==> |text| <= n
  {
  }

  // ---------------------------------------------------------------- results belong to the type

  /** What a result has to be: a canonical value of the type, settled if no field name is reserved. */
  ghost predicate IsResult(f: Formats, w: Value, t: Type) {
    Conforms(f, w, t) && (Unreserved(t) ==> Settled(w, t))
  }

  /** Every normalized value is a canonical value of its type. */
  lemma {:induction false} NormalizedConforms(f: Formats, v: Value, t: Type)
    requires f.Canonical() && WellNamed(t) && Normalize(f, v, t).Ok?
    ensures IsResult(f, Normalize(f, v, t).value, t)
    decreases t, 1
  {
    var u := Unwrapped(v);
    match t
    case Text =>
    case Int =>
    case Float =>
    case Decimal =>
    case Boolean =>
    case Json =>
    case Formatted(_) =>
    case Enum(_) =>
    case List(element) => ItemsConform(f, u.items, element);
    case Set(element) =>
      ItemsConform(f, u.items, element);
      var items := NormalizeAll(f, u.items, element).value;
      MergedConforms(f, items, element);
    case Optional(inner) =>
      if !u.Null? {
        NormalizedConforms(f, u, inner);
      }
    case Record(_) => RecordConforms(f, u.members, t);
    case Dictionary(_, _) =>
      EntriesConform(f, u.items, t);
      MergedEntriesConform(f, NormalizeEntries(f, u.items, t).value, t);
    case Vector(_) => FloatsNormalized(f, u.items);
    case Geometry(_) =>
    case Nothing =>
  }

  lemma {:induction false} ItemsConform(f: Formats, values: seq<Value>, t: Type)
    requires f.Canonical() && WellNamed(t) && NormalizeAll(f, values, t).Ok?
    ensures forall i :: 0 <= i < |NormalizeAll(f, values, t).value| ==>
      IsResult(f, NormalizeAll(f, values, t).value[i], t)
    decreases t, 2
  {
    AllNormalized(f, values, t);
    forall i | 0 <= i < |values|
      ensures IsResult(f, NormalizeAll(f, values, t).value[i], t)
    {
      NormalizedConforms(f, values[i], t);
    }
  }

  lemma MergedConforms(f: Formats, items: seq<Value>, t: Type)
    requires forall i :: 0 <= i < |items| ==> IsResult(f, items[i], t)
    ensures IsResult(f, Array(Merged(items, ITSELF)), Set(t))
  {
    MergedKeepsKeysApart(items, ITSELF);
    var merged := Merged(items, ITSELF);
    forall i | 0 <= i < |merged|
      ensures IsResult(f, merged[i], t)
    {
      MergedAddsNothing(items, ITSELF, merged[i]);
    }
    SetIsResult(f, merged, t);
  }

  lemma SetIsResult(f: Formats, items: seq<Value>, t: Type)
    requires Differ(items, ITSELF) && forall i :: 0 <= i < |items| ==> IsResult(f, items[i], t)
    ensures IsResult(f, Array(items), Set(t))
  {
    assert forall i :: 0 <= i < |items| ==> IsResult(f, items[i], t);
  }

  /** A normalized entry has a key and a value that are results. */
  ghost predicate IsEntryResult(f: Formats, w: Value, t: Type)
    requires t.Dictionary?
  {
    IsEntry(w) && IsResult(f, w.members["key"], t.key) && IsResult(f, w.members["value"], t.value)
  }

  lemma {:induction false} EntryConforms(f: Formats, v: Value, t: Type)
    requires f.Canonical() && WellNamed(t) && t.Dictionary? && NormalizeEntry(f, v, t).Ok?
    ensures IsEntryResult(f, NormalizeEntry(f, v, t).value, t)
    decreases t, 0, 0
  {
    NormalizedConforms(f, v.members["key"], t.key);
    NormalizedConforms(f, v.members["value"], t.value);
  }

  lemma {:induction false} EntriesConform(f: Formats, values: seq<Value>, t: Type)
    requires f.Canonical() && WellNamed(t) && t.Dictionary? && NormalizeEntries(f, values, t).Ok?
    ensures forall i :: 0 <= i < |NormalizeEntries(f, values, t).value| ==>
      IsEntryResult(f, NormalizeEntries(f, values, t).value[i], t)
    decreases t, 0, 1
  {
    EntriesNormalized(f, values, t);
    forall i | 0 <= i < |values|
      ensures IsEntryResult(f, NormalizeEntries(f, values, t).value[i], t)
    {
      EntryConforms(f, values[i], t);
    }
  }

  lemma MergedEntriesConform(f: Formats, items: seq<Value>, t: Type)
    requires t.Dictionary?
    requires forall i :: 0 <= i < |items| ==> IsEntryResult(f, items[i], t)
    ensures IsResult(f, Array(Merged(items, KEY_MEMBER)), t)
  {
    MergedKeepsKeysApart(items, KEY_MEMBER);
    var merged := Merged(items, KEY_MEMBER);
    forall i | 0 <= i < |merged|
      ensures IsEntryResult(f, merged[i], t)
    {
      MergedAddsNothing(items, KEY_MEMBER, merged[i]);
    }
    EntriesAreResult(f, merged, t);
  }

  lemma EntriesAreResult(f: Formats, items: seq<Value>, t: Type)
    requires t.Dictionary? && Differ(items, KEY_MEMBER)
    requires forall i :: 0 <= i < |items| ==> IsEntryResult(f, items[i], t)
    ensures IsResult(f, Array(items), t)
  {
    assert forall i :: 0 <= i < |items| ==> IsEntryResult(f, items[i], t);
  }

  /** What one field's result has to be. */
  ghost predicate IsFieldResult(f: Formats, w: Value, field: Field) {
    Validates(f, w, field) && ((field.optional && w.Null?) || IsResult(f, w, field.valueType))
  }

  lemma {:induction false} FieldConforms(f: Formats, members: map<string, Value>, field: Field)
    requires f.Canonical() && WellNamed(field.valueType) && NormalizeField(f, members, field).Ok?
    ensures IsFieldResult(f, NormalizeField(f, members, field).value, field)
    decreases field.valueType, 2
  {
    var given := Given(f, members, field).value;
    if !(field.optional && given.Null?) {
      NormalizedConforms(f, given, field.valueType);
    }
  }

  ghost predicate GivesFieldResult(f: Formats, members: map<string, Value>, field: Field) {
    NormalizeField(f, members, field).Ok? && IsFieldResult(f, NormalizeField(f, members, field).value, field)
  }

  lemma {:induction false} RecordConforms(f: Formats, members: map<string, Value>, t: Type)
    requires f.Canonical() && WellNamed(t) && t.Record? && NormalizeFields(f, members, t, |t.fields|).Ok?
    requires !IsEnvelope(Object(members))
    ensures IsResult(f, Object(NormalizeFields(f, members, t, |t.fields|).value), t)
    decreases t, 0
  {
    forall i | 0 <= i < |t.fields|
      ensures GivesFieldResult(f, members, t.fields[i])
    {
      FieldNormalized(f, members, t, |t.fields|, i);
      FieldConforms(f, members, t.fields[i]);
    }
    RecordIsResult(f, members, t);
  }

  lemma RecordIsResult(f: Formats, members: map<string, Value>, t: Type)
    requires f.Canonical() && t.Record? && NamesDiffer(t.fields) && !IsEnvelope(Object(members))
    requires NormalizeFields(f, members, t, |t.fields|).Ok?
    requires forall i :: 0 <= i < |t.fields| ==> GivesFieldResult(f, members, t.fields[i])
    ensures IsResult(f, Object(NormalizeFields(f, members, t, |t.fields|).value), t)
  {
    var r := NormalizeFields(f, members, t, |t.fields|).value;
    RecordHasFields(f, members, t);
    RecordOfResultsConforms(f, r, t);
    if Unreserved(t) {
      RecordIsNoEnvelope(f, members, t);
      RecordOfResultsSettles(f, r, t);
    }
  }

  lemma RecordHasFields(f: Formats, members: map<string, Value>, t: Type)
    requires t.Record? && NamesDiffer(t.fields) && NormalizeFields(f, members, t, |t.fields|).Ok?
    requires forall i :: 0 <= i < |t.fields| ==> GivesFieldResult(f, members, t.fields[i])
    ensures var r := NormalizeFields(f, members, t, |t.fields|).value;
            && AreFields(r, t.fields)
            && forall i :: 0 <= i < |t.fields| ==> IsFieldResult(f, r[t.fields[i].name], t.fields[i])
  {
    var r := NormalizeFields(f, members, t, |t.fields|).value;
    forall i | 0 <= i < |t.fields|
      ensures t.fields[i].name in r && IsFieldResult(f, r[t.fields[i].name], t.fields[i])
    {
      FieldNormalized(f, members, t, |t.fields|, i);
      assert GivesFieldResult(f, members, t.fields[i]);
    }
    forall name | name in r
      ensures exists i :: 0 <= i < |t.fields| && t.fields[i].name == name
    {
      OnlyFields(f, members, t, |t.fields|, name);
    }
  }

  lemma RecordOfResultsSettles(f: Formats, r: map<string, Value>, t: Type)
    requires t.Record? && AreFields(r, t.fields) && Unreserved(t) && !IsEnvelope(Object(r))
    requires forall i :: 0 <= i < |t.fields| ==> IsFieldResult(f, r[t.fields[i].name], t.fields[i])
    ensures Settled(Object(r), t)
  {
    assert forall i :: 0 <= i < |t.fields| ==> IsFieldResult(f, r[t.fields[i].name], t.fields[i]);
  }

  lemma RecordOfResultsConforms(f: Formats, r: map<string, Value>, t: Type)
    requires t.Record? && AreFields(r, t.fields)
    requires forall i :: 0 <= i < |t.fields| ==> IsFieldResult(f, r[t.fields[i].name], t.fields[i])
    ensures Conforms(f, Object(r), t)
  {
    assert forall i :: 0 <= i < |t.fields| ==> IsFieldResult(f, r[t.fields[i].name], t.fields[i]);
  }

  lemma {:induction false} TextIsAdmitted(f: Formats, w: Value, t: Type)
    requires f.Canonical() && Conforms(f, w, t) && w.Str?
    ensures MayBeText(t)
  {
    if t.Optional? {
      TextIsAdmitted(f, w, t.inner);
    }
  }

  lemma {:induction false} TextMemberIsAdmitted(f: Formats, w: Value, t: Type)
    requires f.Canonical() && Conforms(f, w, t) && HoldsText(w)
    ensures MayHoldText(t)
  {
    if t.Optional? {
      TextMemberIsAdmitted(f, w, t.inner);
    } else if t.Record? {
      var i :| 0 <= i < |t.fields| && t.fields[i].name == "text";
      TextIsAdmitted(f, w.members["text"], t.fields[i].valueType);
    }
  }

  /** An open type only unwraps. */
  lemma {:induction false} OpenUnwraps(f: Formats, v: Value, t: Type)
    requires IsOpen(t)
    ensures Normalize(f, v, t) == Ok(Unwrapped(v))
  {
    if t.Optional? {
      OpenUnwraps(f, Unwrapped(v), t.inner);
    }
  }

  /** A reserved field that cannot make an envelope does not hold a text member. */
  lemma ReservedFieldHoldsNoText(f: Formats, members: map<string, Value>, field: Field)
    requires f.Canonical() && !IsEnvelope(Object(members)) && field.name == ENVELOPE && !MayWrap(field)
    requires GivesFieldResult(f, members, field)
    ensures !HoldsText(NormalizeField(f, members, field).value)
  {
    var w := NormalizeField(f, members, field).value;
    if IsOpen(field.valueType) {
      var given := Given(f, members, field).value;
      if !(field.optional && given.Null?) {
        OpenUnwraps(f, given, field.valueType);
      }
    } else if HoldsText(w) {
      TextMemberIsAdmitted(f, w, field.valueType);
    }
  }

  /** A record without fields that can make it an envelope is none. */
  lemma RecordIsNoEnvelope(f: Formats, members: map<string, Value>, t: Type)
    requires f.Canonical() && t.Record? && NamesDiffer(t.fields) && Unreserved(t) && !IsEnvelope(Object(members))
    requires NormalizeFields(f, members, t, |t.fields|).Ok?
    requires forall i :: 0 <= i < |t.fields| ==> GivesFieldResult(f, members, t.fields[i])
    ensures !IsEnvelope(Object(NormalizeFields(f, members, t, |t.fields|).value))
  {
    var r := NormalizeFields(f, members, t, |t.fields|).value;
    if ENVELOPE in r {
      OnlyFields(f, members, t, |t.fields|, ENVELOPE);
      var i :| 0 <= i < |t.fields| && t.fields[i].name == ENVELOPE;
      FieldNormalized(f, members, t, |t.fields|, i);
      ReservedFieldHoldsNoText(f, members, t.fields[i]);
    }
  }

  // ---------------------------------------------------------------- fixed points

  lemma {:induction false} SettledIsNoEnvelope(f: Formats, w: Value, t: Type)
    requires f.Canonical() && Conforms(f, w, t) && Settled(w, t)
    ensures !IsEnvelope(w)
    decreases t
  {
    if t.Optional? && !w.Null? {
      SettledIsNoEnvelope(f, w, t.inner);
    } else if t.Geometry? {
      assert f.geometry(t.shape, w).Some?;
    }
  }

  /** A settled value in canonical form is left as it is. */
  lemma {:induction false} SettledIsFixed(f: Formats, w: Value, t: Type)
    requires f.Canonical() && WellNamed(t) && Conforms(f, w, t) && Settled(w, t)
    ensures Normalize(f, w, t) == Ok(w)
    decreases t, 1
  {
    SettledIsNoEnvelope(f, w, t);
    match t
    case Text =>
    case Int =>
    case Float =>
    case Decimal =>
    case Boolean =>
    case Json =>
    case Formatted(_) =>
    case Enum(_) =>
    case List(element) => ItemsFixed(f, w.items, element);
    case Set(element) =>
      ItemsFixed(f, w.items, element);
      MergedKeepsKeysApart(w.items, ITSELF);
    case Optional(inner) =>
      if !w.Null? {
        SettledIsFixed(f, w, inner);
      }
    case Record(_) => RecordFixed(f, w, t);
    case Dictionary(_, _) =>
      DictionaryFixed(f, w, t);
      MergedKeepsKeysApart(w.items, KEY_MEMBER);
    case Vector(_) => FloatsFixed(f, w.items);
    case Geometry(_) =>
    case Nothing =>
  }

  lemma {:induction false} ItemsFixed(f: Formats, items: seq<Value>, t: Type)
    requires f.Canonical() && WellNamed(t)
    requires forall i :: 0 <= i < |items| ==> Conforms(f, items[i], t) && Settled(items[i], t)
    ensures NormalizeAll(f, items, t) == Ok(items)
    decreases t, 2
  {
    forall i | 0 <= i < |items|
      ensures Normalize(f, items[i], t) == Ok(items[i])
    {
      SettledIsFixed(f, items[i], t);
    }
    AllFixed(f, items, t);
  }

  lemma {:induction false} DictionaryFixed(f: Formats, w: Value, t: Type)
    requires f.Canonical() && WellNamed(t) && t.Dictionary? && Conforms(f, w, t) && Settled(w, t)
    ensures NormalizeEntries(f, w.items, t) == Ok(w.items)
    decreases t, 0
  {
    forall i | 0 <= i < |w.items|
      ensures NormalizeEntry(f, w.items[i], t) == Ok(w.items[i])
    {
      var entry := w.items[i].members;
      assert IsEntry(w.items[i]);
      SettledIsFixed(f, entry["key"], t.key);
      SettledIsFixed(f, entry["value"], t.value);
      assert entry == map["key" := entry["key"], "value" := entry["value"]];
    }
    EntriesFixed(f, w.items, t);
  }

  lemma {:induction false} RecordFixed(f: Formats, w: Value, t: Type)
    requires f.Canonical() && WellNamed(t) && t.Record? && Conforms(f, w, t) && Settled(w, t)
    ensures NormalizeFields(f, w.members, t, |t.fields|) == Ok(w.members)
    decreases t, 0
  {
    var fields := t.fields;
    forall i | 0 <= i < |fields|
      ensures NormalizeField(f, w.members, fields[i]) == Ok(w.members[fields[i].name])
    {
      var x := w.members[fields[i].name];
      if !(fields[i].optional && x.Null?) {
        SettledIsFixed(f, x, fields[i].valueType);
      }
    }
    FieldsAccepted(f, w.members, t, |fields|);
    RecordUnchanged(f, w.members, t);
  }

  /** A record whose fields are each left as they are is left as it is. */
  lemma RecordUnchanged(f: Formats, members: map<string, Value>, t: Type)
    requires t.Record? && NamesDiffer(t.fields) && AreFields(members, t.fields)
    requires NormalizeFields(f, members, t, |t.fields|).Ok?
    requires forall i :: 0 <= i < |t.fields| ==>
      NormalizeField(f, members, t.fields[i]) == Ok(members[t.fields[i].name])
    ensures NormalizeFields(f, members, t, |t.fields|) == Ok(members)
  {
    var r := NormalizeFields(f, members, t, |t.fields|).value;
    forall i | 0 <= i < |t.fields|
      ensures t.fields[i].name in r && r[t.fields[i].name] == members[t.fields[i].name]
    {
      FieldNormalized(f, members, t, |t.fields|, i);
    }
    forall name | name in r
      ensures name in members
    {
      OnlyFields(f, members, t, |t.fields|, name);
    }
    assert r == members;
  }

  /** What normalization leaves as it is has no envelope where it would be read as one. */
  lemma {:induction false} FixedIsSettled(f: Formats, w: Value, t: Type)
    requires WellNamed(t) && Normalize(f, w, t) == Ok(w)
    ensures Settled(w, t)
    decreases t, 1
  {
    match t
    case List(element) =>
      AllNormalized(f, w.items, element);
      ItemsSettled(f, w.items, element);
    case Set(element) =>
      AllNormalized(f, w.items, element);
      MergedKeepsKeysApart(NormalizeAll(f, w.items, element).value, ITSELF);
      ItemsSettled(f, w.items, element);
    case Optional(inner) =>
      if !w.Null? {
        assert Unwrapped(Unwrapped(w)) == Unwrapped(w);
        assert Normalize(f, Unwrapped(w), inner) == Normalize(f, w, inner);
        FixedIsSettled(f, w, inner);
      }
    case Record(_) => FixedRecordIsSettled(f, w, t);
    case Dictionary(_, _) => FixedDictionaryIsSettled(f, w, t);
    case _ =>
  }

  lemma {:induction false} ItemsSettled(f: Formats, items: seq<Value>, t: Type)
    requires WellNamed(t)
    requires forall i :: 0 <= i < |items| ==> Normalize(f, items[i], t) == Ok(items[i])
    ensures forall i :: 0 <= i < |items| ==> Settled(items[i], t)
    decreases t, 2
  {
    forall i | 0 <= i < |items|
      ensures Settled(items[i], t)
    {
      FixedIsSettled(f, items[i], t);
    }
  }

  /** A dictionary that is left as it is has entries that are each left as they are. */
  lemma FixedEntries(f: Formats, w: Value, t: Type)
    requires t.Dictionary? && Normalize(f, w, t) == Ok(w)
    ensures w.Array?
    ensures forall i :: 0 <= i < |w.items| ==> NormalizeEntry(f, w.items[i], t) == Ok(w.items[i])
  {
    EntriesNormalized(f, w.items, t);
    MergedKeepsKeysApart(NormalizeEntries(f, w.items, t).value, KEY_MEMBER);
  }

  ghost predicate EntryIsSettled(w: Value, t: Type)
    requires t.Dictionary?
  {
    IsEntry(w) ==> Settled(w.members["key"], t.key) && Settled(w.members["value"], t.value)
  }

  lemma {:induction false} FixedEntryIsSettled(f: Formats, w: Value, t: Type)
    requires WellNamed(t) && t.Dictionary? && NormalizeEntry(f, w, t) == Ok(w)
    ensures EntryIsSettled(w, t)
    decreases t, 0, 0
  {
    FixedIsSettled(f, w.members["key"], t.key);
    FixedIsSettled(f, w.members["value"], t.value);
  }

  lemma {:induction false} FixedDictionaryIsSettled(f: Formats, w: Value, t: Type)
    requires WellNamed(t) && t.Dictionary? && Normalize(f, w, t) == Ok(w)
    ensures Settled(w, t)
    decreases t, 0, 1
  {
    FixedEntries(f, w, t);
    forall i | 0 <= i < |w.items|
      ensures EntryIsSettled(w.items[i], t)
    {
      FixedEntryIsSettled(f, w.items[i], t);
    }
    EntriesAreSettled(w, t);
  }

  lemma EntriesAreSettled(w: Value, t: Type)
    requires t.Dictionary? && w.Array? && forall i :: 0 <= i < |w.items| ==> EntryIsSettled(w.items[i], t)
    ensures Settled(w, t)
  {
    assert forall i :: 0 <= i < |w.items| ==> EntryIsSettled(w.items[i], t);
  }

  lemma {:induction false} FixedRecordIsSettled(f: Formats, w: Value, t: Type)
    requires WellNamed(t) && t.Record? && Normalize(f, w, t) == Ok(w)
    ensures Settled(w, t)
    decreases t, 0
  {
    var fields := t.fields;
    forall i | 0 <= i < |fields|
      ensures fields[i].name in w.members
      ensures (fields[i].optional && w.members[fields[i].name].Null?)
              || Settled(w.members[fields[i].name], fields[i].valueType)
    {
      FieldNormalized(f, w.members, t, |fields|, i);
      var x := w.members[fields[i].name];
      if !(fields[i].optional && x.Null?) {
        FixedIsSettled(f, x, fields[i].valueType);
      }
    }
  }

  /** The fixed points of normalization are exactly the settled canonical values of the type. */
  lemma FixedPoints(f: Formats, w: Value, t: Type)
    requires f.Canonical() && WellNamed(t)
    ensures Normalize(f, w, t) == Ok(w) <==> Conforms(f, w, t) && Settled(w, t)
  {
    if Normalize(f, w, t) == Ok(w) {
      NormalizedConforms(f, w, t);
      FixedIsSettled(f, w, t);
    } else if Conforms(f, w, t) && Settled(w, t) {
      SettledIsFixed(f, w, t);
    }
  }

  /** Without reserved field names every result is settled, so normalization is idempotent. */
  lemma NormalizationIsIdempotent(f: Formats, v: Value, t: Type)
    requires f.Canonical() && WellNamed(t) && Unreserved(t) && Normalize(f, v, t).Ok?
    ensures Normalize(f, Normalize(f, v, t).value, t) == Normalize(f, v, t)
  {
    NormalizedConforms(f, v, t);
    FixedPoints(f, Normalize(f, v, t).value, t);
  }

  // ---------------------------------------------------------------- the same, said of the input

  /** The value, if it is accepted, normalizes to text. */
  ghost predicate GivesText(f: Formats, v: Value, t: Type) {
    match t
    case Json => Unwrapped(v).Str?
    case Optional(inner) => !Unwrapped(v).Null? && GivesText(f, Unwrapped(v), inner)
    case _ => t.Text? || t.Decimal? || t.Formatted? || t.Enum?
  }

  lemma {:induction false} GivesTextIff(f: Formats, v: Value, t: Type)
    requires f.Canonical() && Normalize(f, v, t).Ok?
    ensures Normalize(f, v, t).value.Str? <==> GivesText(f, v, t)
    decreases t
  {
    if t.Optional? && !Unwrapped(v).Null? {
      GivesTextIff(f, Unwrapped(v), t.inner);
    }
  }

  ghost predicate FieldGivesText(f: Formats, members: map<string, Value>, field: Field) {
    var given := Given(f, members, field);
    given.Ok? && !(field.optional && given.value.Null?) && GivesText(f, given.value, field.valueType)
  }

  lemma FieldGivesTextIff(f: Formats, members: map<string, Value>, field: Field)
    requires f.Canonical() && NormalizeField(f, members, field).Ok?
    ensures NormalizeField(f, members, field).value.Str? <==> FieldGivesText(f, members, field)
  {
    var given := Given(f, members, field).value;
    if !(field.optional && given.Null?) {
      GivesTextIff(f, given, field.valueType);
    }
  }

  /** The value, if it is accepted, normalizes to an object with a text member `text`. */
  ghost predicate GivesTextMember(f: Formats, v: Value, t: Type) {
    var u := Unwrapped(v);
    match t
    case Json => HoldsText(u)
    case Optional(inner) => !u.Null? && GivesTextMember(f, u, inner)
    case Record(fields) =>
      u.Object? && exists i :: 0 <= i < |fields| && fields[i].name == "text" && FieldGivesText(f, u.members, fields[i])
    case Geometry(shape) => f.geometry(shape, u).Some? && HoldsText(f.geometry(shape, u).value)
    case _ => false
  }

  lemma {:induction false} GivesTextMemberIff(f: Formats, v: Value, t: Type)
    requires f.Canonical() && WellNamed(t) && Normalize(f, v, t).Ok?
    ensures HoldsText(Normalize(f, v, t).value) <==> GivesTextMember(f, v, t)
    decreases t
  {
    var u := Unwrapped(v);
    if t.Optional? {
      if !u.Null? {
        GivesTextMemberIff(f, u, t.inner);
      }
    } else if t.Record? {
      RecordGivesTextMemberIff(f, u.members, t);
    }
  }

  lemma RecordGivesTextMemberIff(f: Formats, members: map<string, Value>, t: Type)
    requires f.Canonical() && t.Record? && NamesDiffer(t.fields) && NormalizeFields(f, members, t, |t.fields|).Ok?
    ensures HoldsText(Object(NormalizeFields(f, members, t, |t.fields|).value)) <==>
            exists i :: 0 <= i < |t.fields| && t.fields[i].name == "text" && FieldGivesText(f, members, t.fields[i])
  {
    var r := NormalizeFields(f, members, t, |t.fields|).value;
    forall i | 0 <= i < |t.fields| && t.fields[i].name == "text"
      ensures "text" in r && (r["text"].Str? <==> FieldGivesText(f, members, t.fields[i]))
    {
      FieldNormalized(f, members, t, |t.fields|, i);
      FieldGivesTextIff(f, members, t.fields[i]);
    }
    if "text" in r {
      OnlyFields(f, members, t, |t.fields|, "text");
    }
  }

  ghost predicate FieldGivesTextMember(f: Formats, members: map<string, Value>, field: Field) {
    var given := Given(f, members, field);
    given.Ok? && !(field.optional && given.value.Null?) && GivesTextMember(f, given.value, field.valueType)
  }

  lemma FieldGivesTextMemberIff(f: Formats, members: map<string, Value>, field: Field)
    requires f.Canonical() && WellNamed(field.valueType) && NormalizeField(f, members, field).Ok?
    ensures HoldsText(NormalizeField(f, members, field).value) <==> FieldGivesTextMember(f, members, field)
  {
    var given := Given(f, members, field).value;
    if !(field.optional && given.Null?) {
      GivesTextMemberIff(f, given, field.valueType);
    }
  }

  /** The object, given for the record, becomes an envelope. */
  ghost predicate GivesEnvelope(f: Formats, members: map<string, Value>, fields: seq<Field>) {
    exists i :: 0 <= i < |fields| && fields[i].name == ENVELOPE && FieldGivesTextMember(f, members, fields[i])
  }

  lemma GivesEnvelopeIff(f: Formats, members: map<string, Value>, t: Type)
    requires f.Canonical() && WellNamed(t) && t.Record? && NormalizeFields(f, members, t, |t.fields|).Ok?
    ensures IsEnvelope(Object(NormalizeFields(f, members, t, |t.fields|).value))
            <==> GivesEnvelope(f, members, t.fields)
  {
    var r := NormalizeFields(f, members, t, |t.fields|).value;
    forall i | 0 <= i < |t.fields| && t.fields[i].name == ENVELOPE
      ensures ENVELOPE in r && (HoldsText(r[ENVELOPE]) <==> FieldGivesTextMember(f, members, t.fields[i]))
    {
      FieldNormalized(f, members, t, |t.fields|, i);
      FieldGivesTextMemberIff(f, members, t.fields[i]);
    }
    if ENVELOPE in r {
      OnlyFields(f, members, t, |t.fields|, ENVELOPE);
    }
  }

  /** The normalized key of a dictionary's entry. */
  function EntryKey(f: Formats, v: Value, t: Type): Outcome
    requires t.Dictionary?
  {
    if v.Object? && "key" in v.members then Normalize(f, v.members["key"], t.key) else Err(Mismatch)
  }

  /** No later entry replaces entry `i`. */
  ghost predicate EntryStays(f: Formats, entries: seq<Value>, t: Type, i: nat)
    requires t.Dictionary? && i < |entries|
  {
    forall j :: i < j < |entries| ==> EntryKey(f, entries[j], t) != EntryKey(f, entries[i], t)
  }

  /**
   * No record in the value, as it is given, becomes an envelope; entries that are
   * replaced in their dictionary do not count.
   */
  ghost predicate GivenSettled(f: Formats, v: Value, t: Type)
    decreases t, 1
  {
    var u := Unwrapped(v);
    match t
    case List(element) => u.Array? ==> forall i :: 0 <= i < |u.items| ==> GivenSettled(f, u.items[i], element)
    case Set(element) => u.Array? ==> forall i :: 0 <= i < |u.items| ==> GivenSettled(f, u.items[i], element)
    case Optional(inner) => u.Null? || GivenSettled(f, u, inner)
    case Record(fields) =>
      u.Object? ==>
        && !GivesEnvelope(f, u.members, fields)
        && forall i :: 0 <= i < |fields| ==> FieldGivenSettled(f, u.members, fields[i])
    case Dictionary(_, _) =>
      u.Array? ==> forall i :: 0 <= i < |u.items| && EntryStays(f, u.items, t, i) ==>
        EntryGivenSettled(f, u.items[i], t)
    case _ => true
  }

  ghost predicate FieldGivenSettled(f: Formats, members: map<string, Value>, field: Field)
    decreases field.valueType, 2
  {
    var given := Given(f, members, field);
    given.Err? || (field.optional && given.value.Null?) || GivenSettled(f, given.value, field.valueType)
  }

  ghost predicate EntryGivenSettled(f: Formats, v: Value, t: Type)
    requires t.Dictionary?
    decreases t, 0
  {
    v.Object? && "key" in v.members && "value" in v.members ==>
      GivenSettled(f, v.members["key"], t.key) && GivenSettled(f, v.members["value"], t.value)
  }

  lemma NullIsSettled(t: Type)
    ensures Settled(Null, t)
  {
  }

  /** A result is settled exactly when the input is given so. */
  lemma {:induction false} SettledIffGiven(f: Formats, v: Value, t: Type)
    requires f.Canonical() && WellNamed(t) && Normalize(f, v, t).Ok?
    ensures Settled(Normalize(f, v, t).value, t) <==> GivenSettled(f, v, t)
    decreases t, 1
  {
    var u := Unwrapped(v);
    match t
    case Text =>
    case Int =>
    case Float =>
    case Decimal =>
    case Boolean =>
    case Json =>
    case Formatted(_) =>
    case Enum(_) =>
    case List(element) => ItemsSettledIff(f, u.items, element);
    case Set(element) =>
      ItemsSettledIff(f, u.items, element);
      MergedSettledIff(NormalizeAll(f, u.items, element).value, element);
    case Optional(inner) =>
      if !u.Null? {
        SettledIffGiven(f, u, inner);
        NullIsSettled(inner);
      }
    case Record(_) => RecordSettledIff(f, u.members, t);
    case Dictionary(_, _) =>
      DictionarySettledIff(f, u.items, t);
    case Vector(_) =>
    case Geometry(_) =>
    case Nothing =>
  }

  ghost predicate AllSettled(items: seq<Value>, t: Type) {
    forall i :: 0 <= i < |items| ==> Settled(items[i], t)
  }

  ghost predicate AllGivenSettled(f: Formats, values: seq<Value>, t: Type) {
    forall i :: 0 <= i < |values| ==> GivenSettled(f, values[i], t)
  }

  lemma {:induction false} ItemsSettledIff(f: Formats, values: seq<Value>, t: Type)
    requires f.Canonical() && WellNamed(t) && NormalizeAll(f, values, t).Ok?
    ensures AllSettled(NormalizeAll(f, values, t).value, t) <==> AllGivenSettled(f, values, t)
    decreases t, 2
  {
    AllNormalized(f, values, t);
    forall i | 0 <= i < |values|
      ensures Settled(NormalizeAll(f, values, t).value[i], t) <==> GivenSettled(f, values[i], t)
    {
      SettledIffGiven(f, values[i], t);
    }
  }

  lemma {:induction false} MergedHasAll(items: seq<Value>, x: Value)
    requires x in items
    ensures x in Merged(items, ITSELF)
  {
    var init, last := items[..|items| - 1], items[|items| - 1];
    if x == last {
      PutHasItem(Merged(init, ITSELF), last, ITSELF);
    } else {
      MergedHasAll(init, x);
      PutKeeps(Merged(init, ITSELF), last, ITSELF, x);
    }
  }

  lemma MergedSettledIff(items: seq<Value>, t: Type)
    ensures AllSettled(Merged(items, ITSELF), t) <==> AllSettled(items, t)
  {
    var merged := Merged(items, ITSELF);
    if AllSettled(items, t) {
      forall i | 0 <= i < |merged|
        ensures Settled(merged[i], t)
      {
        MergedAddsNothing(items, ITSELF, merged[i]);
      }
    }
    if AllSettled(merged, t) {
      forall i | 0 <= i < |items|
        ensures Settled(items[i], t)
      {
        MergedHasAll(items, items[i]);
      }
    }
  }

  lemma {:induction false} FieldSettledIff(f: Formats, members: map<string, Value>, field: Field)
    requires f.Canonical() && WellNamed(field.valueType) && NormalizeField(f, members, field).Ok?
    ensures var x := NormalizeField(f, members, field).value;
            (field.optional && x.Null?) || Settled(x, field.valueType) <==> FieldGivenSettled(f, members, field)
    decreases field.valueType, 2
  {
    var given := Given(f, members, field).value;
    NullIsSettled(field.valueType);
    if !(field.optional && given.Null?) {
      SettledIffGiven(f, given, field.valueType);
    }
  }

  lemma {:induction false} RecordSettledIff(f: Formats, members: map<string, Value>, t: Type)
    requires f.Canonical() && WellNamed(t) && t.Record? && NormalizeFields(f, members, t, |t.fields|).Ok?
    ensures Settled(Object(NormalizeFields(f, members, t, |t.fields|).value), t) <==>
            && !GivesEnvelope(f, members, t.fields)
            && forall i :: 0 <= i < |t.fields| ==> FieldGivenSettled(f, members, t.fields[i])
    decreases t, 0
  {
    var r, fields := NormalizeFields(f, members, t, |t.fields|).value, t.fields;
    GivesEnvelopeIff(f, members, t);
    forall i | 0 <= i < |fields|
      ensures fields[i].name in r
      ensures (fields[i].optional && r[fields[i].name].Null?) || Settled(r[fields[i].name], fields[i].valueType)
              <==> FieldGivenSettled(f, members, fields[i])
    {
      FieldNormalized(f, members, t, |fields|, i);
      FieldSettledIff(f, members, fields[i]);
    }
  }

  lemma {:induction false} EntrySettledIff(f: Formats, v: Value, t: Type)
    requires f.Canonical() && WellNamed(t) && t.Dictionary? && NormalizeEntry(f, v, t).Ok?
    ensures IsEntry(NormalizeEntry(f, v, t).value)
    ensures EntryIsSettled(NormalizeEntry(f, v, t).value, t) <==> EntryGivenSettled(f, v, t)
    ensures EntryKey(f, v, t) == Ok(KEY_MEMBER(NormalizeEntry(f, v, t).value))
    decreases t, 0, 0
  {
    SettledIffGiven(f, v.members["key"], t.key);
    SettledIffGiven(f, v.members["value"], t.value);
  }

  lemma {:induction false} PutReplaces(items: seq<Value>, item: Value, key: Value -> Value, x: Value)
    requires Differ(items, key) && x in Put(items, item, key) && key(x) == key(item)
    ensures x == item
  {
    if items != [] && key(items[0]) != key(item) {
      assert x in Put(items[1..], item, key);
      PutReplaces(items[1..], item, key, x);
    }
  }

  ghost predicate IsLastOfKey(items: seq<Value>, key: Value -> Value, i: nat)
    requires i < |items|
  {
    forall j :: i < j < |items| ==> key(items[j]) != key(items[i])
  }

  lemma PutCases(items: seq<Value>, item: Value, key: Value -> Value, x: Value)
    requires Differ(items, key) && x in Put(items, item, key)
    ensures x == item || (x in items && key(x) != key(item))
  {
    PutAddsOnly(items, item, key, x);
    if key(x) == key(item) {
      PutReplaces(items, item, key, x);
    }
  }

  /** Whatever merging leaves is the last element of its key. */
  lemma {:induction false} MergedIsLast(items: seq<Value>, key: Value -> Value, x: Value) returns (i: nat)
    requires x in Merged(items, key)
    ensures i < |items| && items[i] == x && IsLastOfKey(items, key, i)
  {
    var init, last := items[..|items| - 1], items[|items| - 1];
    MergedKeepsKeysApart(init, key);
    PutCases(Merged(init, key), last, key, x);
    if x == last {
      i := |items| - 1;
    } else {
      i := MergedIsLast(init, key, x);
      LastOfKeyExtends(init, last, key, i);
      InitAndLast(items);
    }
  }

  lemma LastOfKeyExtends(items: seq<Value>, last: Value, key: Value -> Value, i: nat)
    requires i < |items| && IsLastOfKey(items, key, i) && key(items[i]) != key(last)
    ensures IsLastOfKey(items + [last], key, i)
  {
  }

  ghost predicate LastEntriesSettled(items: seq<Value>, t: Type)
    requires t.Dictionary?
  {
    forall i :: 0 <= i < |items| && IsLastOfKey(items, KEY_MEMBER, i) ==> EntryIsSettled(items[i], t)
  }

  lemma MergedEntriesSettledIff(items: seq<Value>, t: Type)
    requires t.Dictionary?
    ensures Settled(Array(Merged(items, KEY_MEMBER)), t) <==> LastEntriesSettled(items, t)
  {
    var merged := Merged(items, KEY_MEMBER);
    if LastEntriesSettled(items, t) {
      forall k | 0 <= k < |merged|
        ensures EntryIsSettled(merged[k], t)
      {
        var i := MergedIsLast(items, KEY_MEMBER, merged[k]);
      }
      EntriesAreSettled(Array(merged), t);
    }
    if Settled(Array(merged), t) {
      forall i | 0 <= i < |items| && IsLastOfKey(items, KEY_MEMBER, i)
        ensures EntryIsSettled(items[i], t)
      {
        MergedKeepsLast(items, KEY_MEMBER, i);
        SettledEntry(merged, t, items[i]);
      }
    }
  }

  lemma SettledEntry(items: seq<Value>, t: Type, x: Value)
    requires t.Dictionary? && Settled(Array(items), t) && x in items
    ensures EntryIsSettled(x, t)
  {
    var k :| 0 <= k < |items| && items[k] == x;
  }

  lemma {:induction false} DictionarySettledIff(f: Formats, values: seq<Value>, t: Type)
    requires f.Canonical() && WellNamed(t) && t.Dictionary? && NormalizeEntries(f, values, t).Ok?
    ensures Settled(Array(Merged(NormalizeEntries(f, values, t).value, KEY_MEMBER)), t) <==>
            forall i :: 0 <= i < |values| && EntryStays(f, values, t, i) ==> EntryGivenSettled(f, values[i], t)
    decreases t, 0, 1
  {
    var r := NormalizeEntries(f, values, t).value;
    EntriesNormalized(f, values, t);
    forall i | 0 <= i < |values|
      ensures EntryIsSettled(r[i], t) <==> EntryGivenSettled(f, values[i], t)
      ensures EntryKey(f, values[i], t) == Ok(KEY_MEMBER(r[i]))
    {
      EntrySettledIff(f, values[i], t);
    }
    forall i | 0 <= i < |values|
      ensures EntryStays(f, values, t, i) <==> IsLastOfKey(r, KEY_MEMBER, i)
    {
    }
    MergedEntriesSettledIff(r, t);
  }

  /** Normalizing twice is normalizing once exactly when no record of the input becomes an envelope. */
  lemma IdempotentIffGivenSettled(f: Formats, v: Value, t: Type)
    requires f.Canonical() && WellNamed(t) && Normalize(f, v, t).Ok?
    ensures Normalize(f, Normalize(f, v, t).value, t) == Normalize(f, v, t) <==> GivenSettled(f, v, t)
  {
    NormalizedConforms(f, v, t);
    FixedPoints(f, Normalize(f, v, t).value, t);
    SettledIffGiven(f, v, t);
  }

  // ---------------------------------------------------------------- coerced values

  lemma {:induction false} CoercedConforms(f: Formats, v: Value, t: Type)
    requires f.Canonical() && WellNamed(t) && Coerce(f, v, t).Ok?
    ensures Conforms(f, Coerce(f, v, t).value, t)
    decreases t, 1
  {
    match t
    case Text =>
    case Int =>
    case Float =>
    case Decimal =>
    case Boolean =>
    case Json =>
    case Formatted(_) =>
    case Enum(_) =>
    case List(element) => CoercedItemsConform(f, Listed(v), element);
    case Set(element) =>
      CoercedItemsConform(f, Listed(v), element);
      CoercedSetConforms(f, CoerceAll(f, Listed(v), element).value, element);
    case Optional(inner) =>
      if !v.Null? {
        CoercedConforms(f, v, inner);
      }
    case Record(_) => NormalizedConforms(f, Parsed(f, v).value, t);
    case Dictionary(_, _) => NormalizedConforms(f, Parsed(f, v).value, t);
    case Vector(_) => NormalizedConforms(f, Parsed(f, v).value, t);
    case Geometry(_) => NormalizedConforms(f, Parsed(f, v).value, t);
    case Nothing =>
  }

  lemma {:induction false} CoercedItemsConform(f: Formats, values: seq<Value>, t: Type)
    requires f.Canonical() && WellNamed(t) && CoerceAll(f, values, t).Ok?
    ensures forall i :: 0 <= i < |CoerceAll(f, values, t).value| ==> Conforms(f, CoerceAll(f, values, t).value[i], t)
    decreases t, 2
  {
    AllCoerced(f, values, t);
    forall i | 0 <= i < |values|
      ensures Conforms(f, CoerceAll(f, values, t).value[i], t)
    {
      CoercedConforms(f, values[i], t);
    }
  }

  lemma CoercedSetConforms(f: Formats, items: seq<Value>, t: Type)
    requires forall i :: 0 <= i < |items| ==> Conforms(f, items[i], t)
    ensures Conforms(f, Array(Merged(items, ITSELF)), Set(t))
  {
    MergedKeepsKeysApart(items, ITSELF);
    var merged := Merged(items, ITSELF);
    forall i | 0 <= i < |merged|
      ensures Conforms(f, merged[i], t)
    {
      MergedAddsNothing(items, ITSELF, merged[i]);
    }
  }

  /** An open part of the input, where coercion keeps it as it is, is no envelope; records are given settled. */
  ghost predicate GivenPlain(f: Formats, v: Value, t: Type) {
    match t
    case Json => Parsed(f, v).Ok? ==> !IsEnvelope(Parsed(f, v).value)
    case List(element) => forall i :: 0 <= i < |Listed(v)| ==> GivenPlain(f, Listed(v)[i], element)
    case Set(element) => forall i :: 0 <= i < |Listed(v)| ==> GivenPlain(f, Listed(v)[i], element)
    case Optional(inner) => v.Null? || GivenPlain(f, v, inner)
    case _ => (t.Record? || t.Dictionary?) && Parsed(f, v).Ok? ==> GivenSettled(f, Parsed(f, v).value, t)
  }

  /** A coerced value is settled exactly when the input is plain. */
  lemma {:induction false} CoercedSettledIff(f: Formats, v: Value, t: Type)
    requires f.Canonical() && WellNamed(t) && Coerce(f, v, t).Ok?
    ensures Settled(Coerce(f, v, t).value, t) <==> GivenPlain(f, v, t)
    decreases t, 1
  {
    match t
    case Text =>
    case Int =>
    case Float =>
    case Decimal =>
    case Boolean =>
    case Json =>
    case Formatted(_) =>
    case Enum(_) =>
    case List(_) => CoercedListSettledIff(f, v, t);
    case Set(_) => CoercedSetSettledIff(f, v, t);
    case Optional(inner) =>
      if !v.Null? {
        CoercedSettledIff(f, v, inner);
        NullIsSettled(inner);
      }
    case Record(_) => SettledIffGiven(f, Parsed(f, v).value, t);
    case Dictionary(_, _) => SettledIffGiven(f, Parsed(f, v).value, t);
    case Vector(_) =>
    case Geometry(_) =>
    case Nothing =>
  }

  lemma {:induction false} CoercedListSettledIff(f: Formats, v: Value, t: Type)
    requires f.Canonical() && WellNamed(t) && t.List? && Coerce(f, v, t).Ok?
    ensures Settled(Coerce(f, v, t).value, t) <==> GivenPlain(f, v, t)
    decreases t, 0
  {
    CoercedItemsSettledIff(f, Listed(v), t.element);
  }

  lemma {:induction false} CoercedSetSettledIff(f: Formats, v: Value, t: Type)
    requires f.Canonical() && WellNamed(t) && t.Set? && Coerce(f, v, t).Ok?
    ensures Settled(Coerce(f, v, t).value, t) <==> GivenPlain(f, v, t)
    decreases t, 0
  {
    CoercedItemsSettledIff(f, Listed(v), t.element);
    MergedSettledIff(CoerceAll(f, Listed(v), t.element).value, t.element);
  }

  ghost predicate AllGivenPlain(f: Formats, values: seq<Value>, t: Type) {
    forall i :: 0 <= i < |values| ==> GivenPlain(f, values[i], t)
  }

  lemma {:induction false} CoercedItemsSettledIff(f: Formats, values: seq<Value>, t: Type)
    requires f.Canonical() && WellNamed(t) && CoerceAll(f, values, t).Ok?
    ensures AllSettled(CoerceAll(f, values, t).value, t) <==> AllGivenPlain(f, values, t)
    decreases t, 2
  {
    AllCoerced(f, values, t);
    forall i | 0 <= i < |values|
      ensures Settled(CoerceAll(f, values, t).value[i], t) <==> GivenPlain(f, values[i], t)
    {
      CoercedSettledIff(f, values[i], t);
    }
  }

  /** A coerced value is a fixed point of normalization exactly when the input is plain. */
  lemma CoercedIsFixedIffGivenPlain(f: Formats, v: Value, t: Type)
    requires f.Canonical() && WellNamed(t) && Coerce(f, v, t).Ok?
    ensures Normalize(f, Coerce(f, v, t).value, t) == Coerce(f, v, t) <==> GivenPlain(f, v, t)
  {
    CoercedConforms(f, v, t);
    FixedPoints(f, Coerce(f, v, t).value, t);
    CoercedSettledIff(f, v, t);
  }

  /** Coercion copies some part of the value as it is, outside records and dictionaries. */
  predicate Copies(t: Type) {
    match t
    case Json => true
    case List(element) => Copies(element)
    case Set(element) => Copies(element)
    case Optional(inner) => Copies(inner)
    case _ => false
  }

  lemma {:induction false} UncopiedIsPlain(f: Formats, v: Value, t: Type)
    requires f.Canonical() && WellNamed(t) && Unreserved(t) && !Copies(t) && Coerce(f, v, t).Ok?
    ensures GivenPlain(f, v, t)
    decreases t, 1
  {
    match t
    case List(element) => UncopiedItemsArePlain(f, Listed(v), element);
    case Set(element) => UncopiedItemsArePlain(f, Listed(v), element);
    case Optional(inner) =>
      if !v.Null? {
        UncopiedIsPlain(f, v, inner);
      }
    case Record(_) =>
      NormalizedConforms(f, Parsed(f, v).value, t);
      SettledIffGiven(f, Parsed(f, v).value, t);
    case Dictionary(_, _) =>
      NormalizedConforms(f, Parsed(f, v).value, t);
      SettledIffGiven(f, Parsed(f, v).value, t);
    case _ =>
  }

  lemma {:induction false} UncopiedItemsArePlain(f: Formats, values: seq<Value>, t: Type)
    requires f.Canonical() && WellNamed(t) && Unreserved(t) && !Copies(t) && CoerceAll(f, values, t).Ok?
    ensures AllGivenPlain(f, values, t)
    decreases t, 2
  {
    AllCoerced(f, values, t);
    forall i | 0 <= i < |values|
      ensures GivenPlain(f, values[i], t)
    {
      UncopiedIsPlain(f, values[i], t);
    }
  }

  /** An envelope is copied, and is then not plain, wherever something is copied. */
  lemma {:induction false} EnvelopeIsCopied(f: Formats, v: Value, t: Type)
    requires Copies(t) && IsEnvelope(v)
    ensures Coerce(f, v, t).Ok? && !GivenPlain(f, v, t)
    decreases t, 0
  {
    match t
    case List(element) => EnvelopeItemIsCopied(f, v, element);
    case Set(element) => EnvelopeItemIsCopied(f, v, element);
    case Optional(inner) => EnvelopeIsCopied(f, v, inner);
    case Json =>
  }

  lemma {:induction false} EnvelopeItemIsCopied(f: Formats, v: Value, t: Type)
    requires Copies(t) && IsEnvelope(v)
    ensures Listed(v) == [v] && CoerceAll(f, [v], t).Ok? && !GivenPlain(f, Listed(v)[0], t)
    decreases t, 1
  {
    EnvelopeIsCopied(f, v, t);
    assert [v][..0] == [] && CoerceAll(f, [], t) == Ok([]);
  }

  ghost predicate AlwaysFixed(f: Formats, t: Type) {
    forall v :: Coerce(f, v, t).Ok? ==> Normalize(f, Coerce(f, v, t).value, t) == Coerce(f, v, t)
  }

  /** Without reserved names, every coerced value is a fixed point if and only if nothing is copied. */
  lemma AlwaysFixedIffNothingCopied(f: Formats, t: Type)
    requires f.Canonical() && WellNamed(t) && Unreserved(t)
    ensures AlwaysFixed(f, t) <==> !Copies(t)
  {
    if Copies(t) {
      var v := Wrapped(Str("x"));
      EnvelopeIsCopied(f, v, t);
      CoercedIsFixedIffGivenPlain(f, v, t);
    } else {
      forall v | Coerce(f, v, t).Ok?
        ensures Normalize(f, Coerce(f, v, t).value, t) == Coerce(f, v, t)
      {
        UncopiedIsPlain(f, v, t);
        CoercedIsFixedIffGivenPlain(f, v, t);
      }
    }
  }

  /** Coercion has no other reading for the value: open text spells itself, decimals are short. */
  ghost predicate Unambiguous(f: Formats, w: Value, t: Type)
    decreases t, 1
  {
    match t
    case Json => w.Str? ==> f.json(w.text) == Some(w)
    case Decimal => w.Str? ==> f.scale(w.text) <= 28
    case List(element) => w.Array? ==> AllUnambiguous(f, w.items, element)
    case Set(element) => w.Array? ==> AllUnambiguous(f, w.items, element)
    case Optional(inner) => w.Null? || Unambiguous(f, w, inner)
    case _ => true
  }

  ghost predicate AllUnambiguous(f: Formats, items: seq<Value>, t: Type)
    decreases t, 2
  {
    forall i :: 0 <= i < |items| ==> Unambiguous(f, items[i], t)
  }

  /** What normalization leaves as it is, coercion leaves as it is exactly when it has no other reading. */
  lemma {:induction false} FixedIsCoercedToItselfIff(f: Formats, w: Value, t: Type)
    requires f.Canonical() && WellNamed(t) && Conforms(f, w, t) && Settled(w, t)
    ensures Coerce(f, w, t) == Ok(w) <==> Unambiguous(f, w, t)
    decreases t, 1
  {
    SettledIsFixed(f, w, t);
    match t
    case List(element) => ItemsCoercedToThemselvesIff(f, w.items, element);
    case Set(element) =>
      ItemsCoercedToThemselvesIff(f, w.items, element);
      MergedKeepsKeysApart(w.items, ITSELF);
      SetCoercedToItself(f, w.items, element);
    case Optional(inner) =>
      if !w.Null? {
        FixedIsCoercedToItselfIff(f, w, inner);
      }
    case _ =>
  }

  lemma {:induction false} ItemsCoercedToThemselvesIff(f: Formats, items: seq<Value>, t: Type)
    requires f.Canonical() && WellNamed(t)
    requires forall i :: 0 <= i < |items| ==> Conforms(f, items[i], t) && Settled(items[i], t)
    ensures CoerceAll(f, items, t) == Ok(items) <==> AllUnambiguous(f, items, t)
    decreases t, 2
  {
    forall i | 0 <= i < |items|
      ensures Coerce(f, items[i], t) == Ok(items[i]) <==> Unambiguous(f, items[i], t)
    {
      FixedIsCoercedToItselfIff(f, items[i], t);
    }
    if AllUnambiguous(f, items, t) {
      AllCoercedToThemselves(f, items, t);
    } else if CoerceAll(f, items, t) == Ok(items) {
      AllCoerced(f, items, t);
    }
  }

  /** A set that merging gives back was not merged. */
  lemma SetCoercedToItself(f: Formats, items: seq<Value>, t: Type)
    ensures CoerceAll(f, items, t).Ok? && Merged(CoerceAll(f, items, t).value, ITSELF) == items ==>
      CoerceAll(f, items, t) == Ok(items)
  {
    if CoerceAll(f, items, t).Ok? {
      AllCoerced(f, items, t);
      MergedKeepsKeysApart(CoerceAll(f, items, t).value, ITSELF);
    }
  }

  lemma {:induction false} AllCoercedToThemselves(f: Formats, values: seq<Value>, t: Type)
    requires forall i :: 0 <= i < |values| ==> Coerce(f, values[i], t) == Ok(values[i])
    ensures CoerceAll(f, values, t) == Ok(values)
  {
    if values != [] {
      AllCoercedToThemselves(f, values[..|values| - 1], t);
      LastCoercedToItself(f, values, t);
    }
  }

  lemma LastCoercedToItself(f: Formats, values: seq<Value>, t: Type)
    requires values != [] && Coerce(f, values[|values| - 1], t) == Ok(values[|values| - 1])
    requires CoerceAll(f, values[..|values| - 1], t) == Ok(values[..|values| - 1])
    ensures CoerceAll(f, values, t) == Ok(values)
  {
    InitAndLast(values);
  }

  // ---------------------------------------------------------------- reading what was written

  /**
   * How a client writes a value of type `t` into a parameter: scalars as the text that spells
   * them, lists and sets as repeated parameters, everything else as JSON text made by `write`.
   */
  function Written(f: Formats, write: Value -> string, w: Value, t: Type): Value
    decreases t, 0
  {
    match t
    case Text => w
    case Decimal => w
    case Formatted(_) => w
    case Enum(_) => w
    case Int => Str(if w.Number? then f.digits(w.number) else "")
    case Float => Str(if w.Number? then f.digits(w.number) else "")
    case Boolean => Str(if w == Bool(true) then "true" else "false")
    case List(element) => Array(if w.Array? then WrittenAll(f, write, w.items, element) else [])
    case Set(element) => Array(if w.Array? then WrittenAll(f, write, w.items, element) else [])
    case Optional(inner) => if w.Null? then Null else Written(f, write, w, inner)
    case Nothing => Null
    case _ => Str(write(w))
  }

  function WrittenAll(f: Formats, write: Value -> string, items: seq<Value>, t: Type): seq<Value>
    decreases t, 1
  {
    seq(|items|, i requires 0 <= i < |items| => Written(f, write, items[i], t))
  }

  /** The leaf formats read back this value: its numerals and its JSON text; its decimals are short. */
  ghost predicate Legible(f: Formats, write: Value -> string, w: Value, t: Type)
    decreases t, 0
  {
    match t
    case Int => w.Number? && w.number.Whole? && f.integer(f.digits(w.number)) == Some(w.number.integer)
    case Float => w.Number? && w.number.Floating? && f.float(f.digits(w.number)) == Some(w.number.float)
    case Decimal => w.Str? && f.scale(w.text) <= 28
    case List(element) => w.Array? && AllLegible(f, write, w.items, element)
    case Set(element) => w.Array? && AllLegible(f, write, w.items, element)
    case Optional(inner) => w.Null? || Legible(f, write, w, inner)
    case Json => f.json(write(w)) == Some(w)
    case Record(_) => f.json(write(w)) == Some(w)
    case Dictionary(_, _) => f.json(write(w)) == Some(w)
    case Vector(_) => f.json(write(w)) == Some(w)
    case Geometry(_) => f.json(write(w)) == Some(w)
    case _ => true
  }

  ghost predicate AllLegible(f: Formats, write: Value -> string, items: seq<Value>, t: Type)
    decreases t, 1
  {
    forall i :: 0 <= i < |items| ==> Legible(f, write, items[i], t)
  }

  lemma {:induction false} WrittenNull(f: Formats, write: Value -> string, w: Value, t: Type)
    requires Conforms(f, w, t) && Written(f, write, w, t).Null?
    ensures w.Null?
    decreases t
  {
    match t
    case Optional(inner) =>
      if !w.Null? {
        WrittenNull(f, write, w, inner);
      }
    case _ =>
  }

  /** Every value of a type that is written as text is read back as the same value. */
  lemma {:induction false} WrittenIsRead(f: Formats, write: Value -> string, w: Value, t: Type)
    requires f.Canonical() && WellNamed(t) && Conforms(f, w, t) && Settled(w, t) && Legible(f, write, w, t)
    ensures Coerce(f, Written(f, write, w, t), t) == Ok(w)
    decreases t, 0
  {
    match t
    case Text =>
    case Int =>
    case Float =>
    case Decimal =>
    case Boolean =>
    case Json =>
    case Formatted(_) =>
    case Enum(_) =>
    case List(element) => ItemsAreRead(f, write, w.items, element);
    case Set(element) =>
      ItemsAreRead(f, write, w.items, element);
      MergedKeepsKeysApart(w.items, ITSELF);
    case Optional(inner) =>
      if !w.Null? {
        WrittenIsRead(f, write, w, inner);
        if Written(f, write, w, inner).Null? {
          WrittenNull(f, write, w, inner);
        }
      }
    case Record(_) => SettledIsFixed(f, w, t);
    case Dictionary(_, _) => SettledIsFixed(f, w, t);
    case Vector(_) => SettledIsFixed(f, w, t);
    case Geometry(_) => SettledIsFixed(f, w, t);
    case Nothing =>
  }

  lemma {:induction false} ItemsAreRead(f: Formats, write: Value -> string, items: seq<Value>, t: Type)
    requires f.Canonical() && WellNamed(t) && AllLegible(f, write, items, t)
    requires forall i :: 0 <= i < |items| ==> Conforms(f, items[i], t) && Settled(items[i], t)
    ensures CoerceAll(f, WrittenAll(f, write, items, t), t) == Ok(items)
    decreases t, 1
  {
    var values := WrittenAll(f, write, items, t);
    forall i | 0 <= i < |items|
      ensures Coerce(f, values[i], t) == Ok(items[i])
    {
      WrittenIsRead(f, write, items[i], t);
    }
    AllCoercedTo(f, values, items, t);
  }

  lemma {:induction false} AllCoercedTo(f: Formats, values: seq<Value>, items: seq<Value>, t: Type)
    requires |values| == |items|
    requires forall i :: 0 <= i < |values| ==> Coerce(f, values[i], t) == Ok(items[i])
    ensures CoerceAll(f, values, t) == Ok(items)
  {
    if values != [] {
      AllCoercedTo(f, values[..|values| - 1], items[..|items| - 1], t);
      InitAndLast(items);
    }
  }

  lemma LoneIsListed(f: Formats, v: Value, w: Value, t: Type)
    requires Coerce(f, v, t) == Ok(w)
    ensures CoerceAll(f, [v], t) == Ok([w]) && Merged([w], ITSELF) == [w]
  {
    AllCoercedTo(f, [v], [w], t);
    assert [w][..0] == [];
  }

  /** A parameter that is given once is a list, or a set, of one element. */
  lemma LoneParameterIsRead(f: Formats, v: Value, w: Value, t: Type)
    requires Coerce(f, v, t) == Ok(w) && !v.Array?
    ensures Coerce(f, v, List(t)) == Ok(Array([w])) && Coerce(f, v, Set(t)) == Ok(Array([w]))
  {
    LoneIsListed(f, v, w, t);
  }

  /** A boolean parameter is one of two texts, and each of them is one boolean. */
  lemma BooleanTexts(f: Formats, text: string)
    ensures Coerce(f, Str(text), Boolean).Ok? <==> text == "true" || text == "false"
    ensures Coerce(f, Str("true"), Boolean) == Ok(Bool(true)) && Coerce(f, Str("false"), Boolean) == Ok(Bool(false))
  {
    assert "true" != "false";
  }

  /** Texts, members of an enumeration and booleans are spelled in one way only. */
  lemma OneSpelling(f: Formats, write: Value -> string, text: string, w: Value, t: Type)
    requires t.Text? || t.Enum? || t.Boolean?
    requires Coerce(f, Str(text), t) == Ok(w)
    ensures Str(text) == Written(f, write, w, t)
  {
  }

  /** A decimal in canonical form is read exactly when it has at most 28 fractional digits. */
  lemma LongDecimalIsRefused(f: Formats, text: string)
    requires f.decimal(text) == Some(text)
    ensures Coerce(f, Str(text), Decimal) == if f.scale(text) <= 28 then Ok(Str(text)) else Err(Mismatch)
  {
  }

  /** An envelope means its text, whatever else it carries. */
  lemma EnvelopeIsItsText(f: Formats, members: map<string, Value>, inner: map<string, Value>, text: string, t: Type)
    requires ENVELOPE in members && members[ENVELOPE] == Object(inner)
    requires "text" in inner && inner["text"] == Str(text)
    ensures Normalize(f, Object(members), t) == Normalize(f, Str(text), t)
  {
  }

  // ---------------------------------------------------------------- where the conditions are needed

  function Plain(name: string, t: Type): Field {
    Field(name, t, false, None, [])
  }

  function Wrapped(text: Value): Value {
    Object(map[ENVELOPE := Object(map["text" := text])])
  }

  /** Two fields of one name: the second normalization refuses what the first returned. */
  lemma RepeatedNameIsRefused(f: Formats)
    ensures var t := Record([Plain("a", Int), Plain("a", Float)]);
      var w := Object(map["a" := Number(Floating(f.round(1)))]);
      Normalize(f, Object(map["a" := Number(Whole(1))]), t) == Ok(w) && Normalize(f, w, t).Err?
  {
    var t := Record([Plain("a", Int), Plain("a", Float)]);
    var v := map["a" := Number(Whole(1))];
    var w := map["a" := Number(Floating(f.round(1)))];
    assert NormalizeFields(f, v, t, 0) == Ok(map[]);
    assert NormalizeField(f, v, t.fields[0]) == Ok(v["a"]);
    assert NormalizeFields(f, v, t, 1) == Ok(v);
    assert NormalizeField(f, v, t.fields[1]) == Ok(w["a"]);
    assert v["a" := w["a"]] == w;
    assert NormalizeFields(f, v, t, 2) == Ok(v[t.fields[1].name := w["a"]]);
    assert NormalizeField(f, w, t.fields[0]).Err?;
    assert NormalizeFields(f, w, t, 1).Err?;
  }

  /** A field with the reserved name: the result is itself read as an envelope, and refused. */
  lemma ReservedNameIsRefused(f: Formats)
    ensures var t := Record([Plain(ENVELOPE, Record([Plain("text", Text)]))]);
      Normalize(f, Wrapped(Wrapped(Str("x"))), t) == Ok(Wrapped(Str("x")))
      && Normalize(f, Wrapped(Str("x")), t).Err?
  {
    var inner := Record([Plain("text", Text)]);
    var t := Record([Plain(ENVELOPE, inner)]);
    var v := map["text" := Wrapped(Str("x"))];
    assert NormalizeFields(f, v, inner, 0) == Ok(map[]);
    assert NormalizeField(f, v, inner.fields[0]) == Ok(Str("x"));
    assert NormalizeFields(f, v, inner, 1) == Ok(map["text" := Str("x")]);
    assert Normalize(f, Object(v), inner) == Ok(Object(map["text" := Str("x")]));
    var outer := map[ENVELOPE := Object(v)];
    assert NormalizeFields(f, outer, t, 0) == Ok(map[]);
    assert NormalizeField(f, outer, t.fields[0]) == Ok(Object(map["text" := Str("x")]));
    assert NormalizeFields(f, outer, t, 1) == Ok(map[ENVELOPE := Object(map["text" := Str("x")])]);
  }

  /** An open value that is an envelope survives coercion, and normalization then unwraps it. */
  lemma OpenEnvelopeIsUnwrapped(f: Formats)
    ensures Coerce(f, Wrapped(Str("x")), Json) == Ok(Wrapped(Str("x")))
    ensures Normalize(f, Wrapped(Str("x")), Json) == Ok(Str("x"))
  {
  }
}
