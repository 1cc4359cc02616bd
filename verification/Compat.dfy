/** The contract comparison: what it reports between two versions of a schema, and what an empty report
    means for the values written under one and read under the other. */
module Compat {
  import opened Wrappers

  type Name = string

  datatype JsonType = NULL | BOOLEAN | INTEGER | NUMBER | STRING | ARRAY | OBJECT

  datatype Value =
    | Null
    | Bool(b: bool)
    | Number(number: real)
    | Text(text: string)
    | Array(elements: seq<Value>)
    | Object(fields: map<Name, Value>)

  /** A schema with its references resolved; `closed` allows no other properties. */
  datatype Schema = Schema(types: Option<set<JsonType>>, required: set<Name>, properties: map<Name, Schema>,
                           items: Option<Schema>, closed: bool, values: Option<set<Value>>, allOf: seq<Schema>)

  const ANY := Schema(None, {}, map[], None, false, None, [])

  // ----- what a schema accepts

  /** Sections 6.1.1 and 6.1.2 of JSON Schema Validation 2020-12: an integer is a number without a fraction. */
  predicate HasType(v: Value, t: JsonType) {
    match t
    case NULL => v.Null?
    case BOOLEAN => v.Bool?
    case INTEGER => v.Number? && v.number.Floor as real == v.number
    case NUMBER => v.Number?
    case STRING => v.Text?
    case ARRAY => v.Array?
    case OBJECT => v.Object?
  }

  predicate FitsTypes(types: Option<set<JsonType>>, v: Value) {
    types.Some? ==> exists t <- types.value :: HasType(v, t)
  }

  /** Read openly: fields the schema does not declare are passed over. */
  predicate Accepts(s: Schema, v: Value)
    decreases s, v
  {
    && FitsTypes(s.types, v)
    && (s.values.Some? ==> v in s.values.value)
    && (v.Object? ==>
          && s.required <= v.fields.Keys
          && forall f <- v.fields | f in s.properties :: Accepts(s.properties[f], v.fields[f]))
    && (v.Array? && s.items.Some? ==> forall e <- v.elements :: Accepts(s.items.value, e))
    && (forall part <- s.allOf :: Accepts(part, v))
  }

  // ----- one object view of a schema and its parts

  function MergeOne(base: Schema, part: Schema): Schema {
    base.(types := if base.types.None? then part.types else base.types,
          required := base.required + part.required,
          properties := base.properties + part.properties)
  }

  function Flatten(s: Schema): (flat: Schema)
    ensures flat.allOf == []
    decreases s
  {
    Merged(s.(allOf := []), s.allOf)
  }

  function Merged(base: Schema, parts: seq<Schema>): (flat: Schema)
    requires base.allOf == []
    ensures flat.allOf == []
    decreases parts
  {
    if parts == [] then base else Merged(MergeOne(base, Flatten(parts[0])), parts[1..])
  }

  /** What the flattened view accepts, at every level. */
  predicate AcceptsFlat(s: Schema, v: Value)
    decreases v
  {
    var flat := Flatten(s);
    && FitsTypes(flat.types, v)
    && (flat.values.Some? ==> v in flat.values.value)
    && (v.Object? ==>
          && flat.required <= v.fields.Keys
          && forall f <- v.fields | f in flat.properties :: AcceptsFlat(flat.properties[f], v.fields[f]))
    && (v.Array? && flat.items.Some? ==> forall e <- v.elements :: AcceptsFlat(flat.items.value, e))
  }

  // ----- the comparison

  datatype Direction = Request | Response

  datatype Finding =
    | SchemaRemoved(at: seq<Name>)
    | TypeChanged(at: seq<Name>)
    | ValuesRemoved(at: seq<Name>, lost: set<Value>)
    | FieldRemoved(at: seq<Name>, name: Name)
    | FieldMadeOptional(at: seq<Name>, name: Name)
    | FieldBecameRequired(at: seq<Name>, name: Name)
    | AcceptedFieldRemoved(at: seq<Name>, name: Name)

  const MAX_DEPTH := 25

  /** The types the other side allows. */
  predicate TypesAllowed(before: set<JsonType>, after: set<JsonType>, d: Direction) {
    var (from, to) := if d.Response? then (after, before) else (before, after);
    forall t <- from :: t in to || (t == INTEGER && (INTEGER in before || NUMBER in before))
  }

  function Lost(before: Schema, after: Schema): set<Value> {
    if before.values.Some? && after.values.Some? then before.values.value - after.values.value else {}
  }

  /** What is said about one level's names and values. */
  predicate NamesReport(before: Schema, after: Schema, d: Direction, at: seq<Name>, f: Finding) {
    f.at == at &&
    match f
    case FieldRemoved(_, name) => d.Response? && name in before.required && name !in after.properties
    case FieldMadeOptional(_, name) =>
      d.Response? && name in before.required && name in after.properties && name !in after.required
    case FieldBecameRequired(_, name) => d.Request? && name in after.required && name !in before.required
    case AcceptedFieldRemoved(_, name) =>
      d.Request? && after.closed && name in before.properties && name !in after.properties
    case ValuesRemoved(_, lost) => d.Request? && lost == Lost(before, after) && lost != {}
    case _ => false
  }

  predicate Redefined(before: Schema, after: Schema, d: Direction) {
    before.types.Some? && after.types.Some? && !TypesAllowed(before.types.value, after.types.value, d)
  }

  function Shared(before: Schema, after: Schema): set<Name> { before.properties.Keys * after.properties.Keys }

  function Steps(depth: nat): nat { if depth > MAX_DEPTH then 0 else MAX_DEPTH + 1 - depth }

  /** Whether comparing the two reports a finding, at this level or below. */
  predicate Reports(older: Option<Schema>, newer: Option<Schema>, d: Direction, at: seq<Name>, depth: nat, f: Finding)
    decreases Steps(depth), 1
  {
    && depth <= MAX_DEPTH && older.Some?
    && if newer.None? then f == SchemaRemoved(at)
       else
         var before, after := Flatten(older.value), Flatten(newer.value);
         if Redefined(before, after, d) then f == TypeChanged(at)
         else
           || NamesReport(before, after, d, at, f)
           || (exists name <- Shared(before, after) :: FieldReports(before, after, d, at, depth, name, f))
           || Reports(before.items, after.items, d, at + ["[]"], depth + 1, f)
  }

  /** Whether a finding is under a field both declare. */
  predicate FieldReports(before: Schema, after: Schema, d: Direction, at: seq<Name>, depth: nat, name: Name, f: Finding)
    requires depth <= MAX_DEPTH
    decreases Steps(depth), 0
  {
    && name in before.properties && name in after.properties
    && Reports(Some(before.properties[name]), Some(after.properties[name]), d, at + [name], depth + 1, f)
  }
}
