/** The one object view that `allOf` is folded into: it never asks for more than the schema, and exactly when
    it asks for no less. */
module CompatFlat {
  import opened Wrappers
  import opened Compat
  import opened CompatValues

  // ----- the view at every level

  lemma {:induction false} FlattenShrinks(s: Schema)
    ensures Flatten(s).items == s.items
    ensures forall name <- Flatten(s).properties :: Flatten(s).properties[name] < s
    decreases s
  {
    MergedShrinks(s.(allOf := []), s.allOf);
  }

  lemma {:induction false} MergedShrinks(base: Schema, parts: seq<Schema>)
    requires base.allOf == []
    ensures var flat := Merged(base, parts);
            && flat.items == base.items
            && forall name <- flat.properties :: (name in base.properties && flat.properties[name] == base.properties[name])
                                              || exists part <- parts :: flat.properties[name] < part
    decreases parts
  {
    if parts != [] {
      assert parts[0] in parts && forall part <- parts[1..] :: part in parts;
      FlattenShrinks(parts[0]);
      MergedShrinks(MergeOne(base, Flatten(parts[0])), parts[1..]);
    }
  }

  /** The schema with its parts folded at every level. */
  function Flattened(s: Schema): Schema
    decreases s
  {
    var flat := Flatten(s);
    FlattenShrinks(s);
    flat.(properties := map name <- flat.properties :: Flattened(flat.properties[name]),
          items := if flat.items.Some? then Some(Flattened(flat.items.value)) else None)
  }

  lemma {:induction false} FlattenedAccepts(s: Schema, v: Value)
    ensures AcceptsFlat(s, v) <==> Accepts(Flattened(s), v)
    decreases v
  {
    var flat := Flatten(s);
    if v.Object? {
      forall f <- v.fields | f in flat.properties
        ensures AcceptsFlat(flat.properties[f], v.fields[f]) <==> Accepts(Flattened(flat.properties[f]), v.fields[f])
      {
        FlattenedAccepts(flat.properties[f], v.fields[f]);
      }
    } else if v.Array? && flat.items.Some? {
      forall e <- v.elements ensures AcceptsFlat(flat.items.value, e) <==> Accepts(Flattened(flat.items.value), e) {
        FlattenedAccepts(flat.items.value, e);
      }
    }
  }

  /** The same, read strictly. */
  lemma {:induction false} FlattenedAcceptsStrictly(s: Schema, v: Value)
    ensures AcceptsFlatStrictly(s, v) <==> Takes(Flattened(s), v, true)
    decreases v
  {
    var flat := Flatten(s);
    if v.Object? {
      forall f <- v.fields | f in flat.properties
        ensures AcceptsFlatStrictly(flat.properties[f], v.fields[f]) <==> Takes(Flattened(flat.properties[f]), v.fields[f], true)
      {
        FlattenedAcceptsStrictly(flat.properties[f], v.fields[f]);
      }
    } else if v.Array? && flat.items.Some? {
      forall e <- v.elements ensures AcceptsFlatStrictly(flat.items.value, e) <==> Takes(Flattened(flat.items.value), e, true) {
        FlattenedAcceptsStrictly(flat.items.value, e);
      }
    }
  }

  /** Read strictly, a closed schema refuses a field it does not declare itself, whatever its neighbours in
      an `allOf` declare. */
  predicate Takes(s: Schema, v: Value, strict: bool)
    decreases s, v
  {
    && LetsThrough(s.types, s.values, v)
    && (v.Object? ==>
          && s.required <= v.fields.Keys
          && (strict && s.closed ==> v.fields.Keys <= s.properties.Keys)
          && forall f <- v.fields | f in s.properties :: Takes(s.properties[f], v.fields[f], strict))
    && (v.Array? && s.items.Some? ==> forall e <- v.elements :: Takes(s.items.value, e, strict))
    && (forall part <- s.allOf :: Takes(part, v, strict))
  }

  predicate AcceptsFlatStrictly(s: Schema, v: Value)
    decreases v
  {
    var flat := Flatten(s);
    && FitsTypes(flat.types, v)
    && (flat.values.Some? ==> v in flat.values.value)
    && (v.Object? ==>
          && flat.required <= v.fields.Keys
          && (flat.closed ==> v.fields.Keys <= flat.properties.Keys)
          && forall f <- v.fields | f in flat.properties :: AcceptsFlatStrictly(flat.properties[f], v.fields[f]))
    && (v.Array? && flat.items.Some? ==> forall e <- v.elements :: AcceptsFlatStrictly(flat.items.value, e))
  }

  lemma {:induction false} TakesOpenly(s: Schema, v: Value)
    ensures Takes(s, v, false) <==> Accepts(s, v)
    decreases s, v
  {
    if v.Object? {
      forall f <- v.fields | f in s.properties
        ensures Takes(s.properties[f], v.fields[f], false) <==> Accepts(s.properties[f], v.fields[f])
      {
        TakesOpenly(s.properties[f], v.fields[f]);
      }
    } else if v.Array? && s.items.Some? {
      forall e <- v.elements ensures Takes(s.items.value, e, false) <==> Accepts(s.items.value, e) {
        TakesOpenly(s.items.value, e);
      }
    }
    forall part <- s.allOf ensures Takes(part, v, false) <==> Accepts(part, v) {
      TakesOpenly(part, v);
    }
  }

  lemma {:induction false} StrictTakesOpenly(s: Schema, v: Value)
    requires Takes(s, v, true)
    ensures Takes(s, v, false)
    decreases s, v
  {
    if v.Object? {
      forall f <- v.fields | f in s.properties ensures Takes(s.properties[f], v.fields[f], false) {
        StrictTakesOpenly(s.properties[f], v.fields[f]);
      }
    } else if v.Array? && s.items.Some? {
      forall e <- v.elements ensures Takes(s.items.value, e, false) {
        StrictTakesOpenly(s.items.value, e);
      }
    }
    forall part <- s.allOf ensures Takes(part, v, false) {
      StrictTakesOpenly(part, v);
    }
  }

  // ----- it asks for no more

  lemma MergeOneWeakens(base: Schema, part: Schema, v: Value)
    requires base.allOf == [] && Accepts(base, v) && Accepts(part, v) && part.allOf == []
    ensures Accepts(MergeOne(base, part), v)
  {}

  lemma {:induction false} MergedWeakens(base: Schema, parts: seq<Schema>, v: Value)
    requires base.allOf == [] && Accepts(base, v) && forall part <- parts :: Accepts(part, v)
    ensures Accepts(Merged(base, parts), v)
    decreases parts
  {
    if parts != [] {
      FlattenWeakens(parts[0], v);
      MergeOneWeakens(base, Flatten(parts[0]), v);
      MergedWeakens(MergeOne(base, Flatten(parts[0])), parts[1..], v);
    }
  }

  lemma BaseAccepts(s: Schema, v: Value)
    ensures Accepts(s, v) <==> Accepts(s.(allOf := []), v) && forall part <- s.allOf :: Accepts(part, v)
  {}

  /** The flattened view asks for no more than the schema. */
  lemma {:induction false} FlattenWeakens(s: Schema, v: Value)
    requires Accepts(s, v)
    ensures Accepts(Flatten(s), v)
    decreases s
  {
    BaseAccepts(s, v);
    MergedWeakens(s.(allOf := []), s.allOf, v);
  }

  /** Flattening at every level asks for no more than the schema. */
  lemma {:induction false} AllLevelsWeaken(s: Schema, v: Value)
    requires Accepts(s, v)
    ensures AcceptsFlat(s, v)
    decreases v
  {
    FlattenWeakens(s, v);
    var flat := Flatten(s);
    if v.Object? {
      forall f <- v.fields | f in flat.properties ensures AcceptsFlat(flat.properties[f], v.fields[f]) {
        AllLevelsWeaken(flat.properties[f], v.fields[f]);
      }
    } else if v.Array? && flat.items.Some? {
      forall e <- v.elements ensures AcceptsFlat(flat.items.value, e) {
        AllLevelsWeaken(flat.items.value, e);
      }
    }
  }

  // ----- when it asks for no less

  function FieldOf(s: Schema, name: Name): Schema { if name in s.properties then s.properties[name] else ANY }

  function ItemOf(s: Schema): Schema { if s.items.Some? then s.items.value else ANY }

  /** Looking at schemas only, and at the values they list: what the one says, the other and all its parts say
      already. What a schema does not declare may be anything, unless it is read strictly and closed. */
  predicate Narrows(inner: Schema, outer: Schema, strict: bool)
    decreases outer
  {
    if inner.values.Some? then
      forall v <- inner.values.value | Takes(inner, v, strict) :: Takes(outer, v, strict)
    else
      && LevelFits(inner.types, None, outer.types, outer.values)
      && (OBJECT in TypesOf(inner.types) ==>
            && outer.required <= inner.required
            && (strict && outer.closed ==> inner.closed && inner.properties.Keys <= outer.properties.Keys)
            && (forall name <- outer.properties ::
                  (strict && inner.closed && name !in inner.properties)
                  || Narrows(FieldOf(inner, name), outer.properties[name], strict)))
      && (ARRAY in TypesOf(inner.types) && outer.items.Some? ==> Narrows(ItemOf(inner), outer.items.value, strict))
      && (forall part <- outer.allOf :: Narrows(inner, part, strict))
  }

  lemma AnyTakes(v: Value, strict: bool)
    ensures Takes(ANY, v, strict)
  {}

  lemma TypePasses(types: Option<set<JsonType>>, v: Value)
    requires FitsTypes(types, v)
    ensures v.Object? ==> OBJECT in TypesOf(types)
    ensures v.Array? ==> ARRAY in TypesOf(types)
  {}

  lemma {:induction false} NarrowsKeeps(inner: Schema, outer: Schema, v: Value, strict: bool)
    requires Narrows(inner, outer, strict) && Takes(inner, v, strict)
    ensures Takes(outer, v, strict)
    decreases outer
  {
    if inner.values.None? {
      LevelFitsExactly(inner.types, None, outer.types, outer.values);
      TypePasses(inner.types, v);
      if v.Object? {
        forall f <- v.fields | f in outer.properties ensures Takes(outer.properties[f], v.fields[f], strict) {
          AnyTakes(v.fields[f], strict);
          NarrowsKeeps(FieldOf(inner, f), outer.properties[f], v.fields[f], strict);
        }
      } else if v.Array? && outer.items.Some? {
        forall e <- v.elements ensures Takes(outer.items.value, e, strict) {
          AnyTakes(e, strict);
          NarrowsKeeps(ItemOf(inner), outer.items.value, e, strict);
        }
      }
      forall part <- outer.allOf ensures Takes(part, v, strict) {
        NarrowsKeeps(inner, part, v, strict);
      }
    }
  }

  /** Folding loses nothing of this schema, at any level. */
  predicate Faithful(s: Schema) { Narrows(Flattened(s), s, false) }

  /** The same of its strict reading, in which a part may be closed too. */
  predicate StrictlyFaithful(s: Schema) { Narrows(Flattened(s), s, true) }

  /** Of a schema of which folding loses nothing, the flattened view asks for no less. */
  lemma AllLevelsKeep(s: Schema, v: Value)
    requires Faithful(s) && AcceptsFlat(s, v)
    ensures Accepts(s, v)
  {
    FlattenedAccepts(s, v);
    TakesOpenly(Flattened(s), v);
    NarrowsKeeps(Flattened(s), s, v, false);
    TakesOpenly(s, v);
  }

  /** What the flattened view accepts strictly, the schema accepts, openly or strictly, if nothing is lost. */
  lemma StrictlyKeeps(s: Schema, v: Value)
    requires AcceptsFlatStrictly(s, v)
    ensures Faithful(s) ==> Accepts(s, v)
    ensures StrictlyFaithful(s) ==> Takes(s, v, true)
  {
    FlattenedAcceptsStrictly(s, v);
    if Faithful(s) {
      StrictTakesOpenly(Flattened(s), v);
      NarrowsKeeps(Flattened(s), s, v, false);
      TakesOpenly(s, v);
    }
    if StrictlyFaithful(s) {
      NarrowsKeeps(Flattened(s), s, v, true);
    }
  }

  // ----- and only then

  /** Without parts, and under it something fits every required field and every element. */
  predicate Roomy(s: Schema)
    decreases s, 0
  {
    && s.allOf == []
    && (forall name <- s.properties :: Roomy(s.properties[name]) && (name in s.required ==> Inhabited(s.properties[name])))
    && (s.items.Some? ==> Inhabited(s.items.value))
  }

  /** Something fits it. */
  predicate Inhabited(s: Schema)
    decreases s, 1
  {
    Roomy(s) && if s.values.Some? then exists v <- s.values.value :: Accepts(s, v) else TypesOf(s.types) != {}
  }

  ghost function Witness(s: Schema): (v: Value)
    requires exists v :: Accepts(s, v)
    ensures Accepts(s, v)
  {
    var v :| Accepts(s, v); v
  }

  /** An object with the required fields and no other. */
  lemma {:induction false} LeastObject(s: Schema) returns (v: Value)
    requires Roomy(s) && s.values.None? && OBJECT in TypesOf(s.types)
    ensures Accepts(s, v) && v.Object? && v.fields.Keys == s.required
    decreases s, 0
  {
    forall name <- s.required ensures exists w :: Accepts(FieldOf(s, name), w) {
      var w := Null;
      if name in s.properties {
        w := SomeValue(s.properties[name]);
      }
      assert Accepts(FieldOf(s, name), w);
    }
    v := Object(map name <- s.required :: Witness(FieldOf(s, name)));
    assert HasType(v, OBJECT);
  }

  /** A value of a type the schema lets through, and of no other type but a number. */
  lemma {:induction false} SomeOfType(s: Schema, t: JsonType) returns (v: Value)
    requires Roomy(s) && s.values.None? && t in TypesOf(s.types)
    ensures Accepts(s, v) && HasType(v, t)
    ensures forall other | HasType(v, other) :: other == t || (t == INTEGER && other == NUMBER)
    decreases s, 1
  {
    if t == OBJECT {
      v := LeastObject(s);
    } else {
      v := if t == ARRAY then Array([]) else Member(t, 0);
      FitsTypesOf(s.types, v);
    }
  }

  lemma {:induction false} SomeValue(s: Schema) returns (v: Value)
    requires Inhabited(s)
    ensures Accepts(s, v)
    decreases s, 2
  {
    if s.values.Some? {
      v :| v in s.values.value && Accepts(s, v);
    } else {
      var t :| t in TypesOf(s.types);
      v := SomeOfType(s, t);
    }
  }

  // ----- more values than a list holds

  lemma {:induction false} LongerName(names: set<Name>) returns (longer: Name)
    ensures longer !in names && forall name <- names :: |name| < |longer|
    decreases names
  {
    if name :| name in names {
      var shorter := LongerName(names - {name});
      longer := if |name| < |shorter| then shorter else Letters(|name| + 1);
    } else {
      longer := "";
    }
  }

  function NamesIn(v: Value): set<Name> { if v.Object? then v.fields.Keys else {} }

  lemma UnlistedObject(s: Schema, list: set<Value>) returns (v: Value)
    requires Roomy(s) && s.values.None? && OBJECT in TypesOf(s.types)
    ensures Accepts(s, v) && v !in list
  {
    var least := LeastObject(s);
    var listed := set o <- list, f <- NamesIn(o) :: f;
    var name := LongerName(s.properties.Keys + listed);
    v := Object(least.fields[name := Null]);
    assert HasType(v, OBJECT) && name in NamesIn(v);
    assert forall o <- list, f <- NamesIn(o) :: f in listed;
    FitsTypesOf(s.types, v);
    assert forall f <- v.fields | f in s.properties :: f in least.fields && v.fields[f] == least.fields[f];
  }

  lemma UnlistedArray(s: Schema, list: set<Value>) returns (v: Value)
    requires Roomy(s) && s.values.None? && ARRAY in TypesOf(s.types)
    ensures Accepts(s, v) && v !in list
  {
    var bound := RanksBounded(list);
    var w := Null;
    if s.items.Some? {
      w := SomeValue(s.items.value);
    }
    v := Array(seq(bound, i => w));
    assert HasType(v, ARRAY) && Rank(v) == bound;
    FitsTypesOf(s.types, v);
  }

  lemma UnlistedValue(s: Schema, list: set<Value>) returns (v: Value)
    requires Roomy(s) && s.values.None? && !ListsAll(list, TypesOf(s.types))
    ensures Accepts(s, v) && v !in list
  {
    var t :| t in TypesOf(s.types) && !ListsType(list, t);
    if t == OBJECT {
      v := UnlistedObject(s, list);
    } else if t == ARRAY {
      v := UnlistedArray(s, list);
    } else {
      if t == NULL {
        v := Null;
      } else if t == BOOLEAN {
        v := Bool(Bool(true) !in list);
      } else {
        v := Unlisted(t, list);
      }
      FitsTypesOf(s.types, v);
    }
  }

  /** Where narrowing fails there is a value that shows it. */
  lemma {:induction false} Refused(inner: Schema, outer: Schema) returns (v: Value)
    requires Roomy(inner) && !Narrows(inner, outer, false)
    ensures Accepts(inner, v) && !Accepts(outer, v)
    decreases outer
  {
    if inner.values.Some? {
      v :| v in inner.values.value && Takes(inner, v, false) && !Takes(outer, v, false);
      TakesOpenly(inner, v);
      TakesOpenly(outer, v);
    } else if !LevelFits(inner.types, None, outer.types, outer.values) {
      v := RefusedHere(inner, outer);
    } else if part :| part in outer.allOf && !Narrows(inner, part, false) {
      v := Refused(inner, part);
    } else if ARRAY in TypesOf(inner.types) && outer.items.Some? && !Narrows(ItemOf(inner), outer.items.value, false) {
      var w := Refused(ItemOf(inner), outer.items.value);
      v := Array([w]);
      assert HasType(v, ARRAY) && w in v.elements;
      FitsTypesOf(inner.types, v);
    } else if !(outer.required <= inner.required) {
      v := LeastObject(inner);
    } else {
      var name :| name in outer.properties && !Narrows(FieldOf(inner, name), outer.properties[name], false);
      var w := Refused(FieldOf(inner, name), outer.properties[name]);
      v := WithField(inner, name, w);
      assert name in v.fields && v.fields[name] == w;
    }
  }

  lemma WithField(s: Schema, name: Name, w: Value) returns (v: Value)
    requires Roomy(s) && s.values.None? && OBJECT in TypesOf(s.types) && Accepts(FieldOf(s, name), w)
    ensures Accepts(s, v) && v.Object? && name in v.fields && v.fields[name] == w
  {
    var least := LeastObject(s);
    v := Object(least.fields[name := w]);
    assert HasType(v, OBJECT);
    FitsTypesOf(s.types, v);
    assert forall f <- v.fields | f in s.properties && f != name :: f in least.fields && v.fields[f] == least.fields[f];
  }

  lemma RefusedHere(inner: Schema, outer: Schema) returns (v: Value)
    requires Roomy(inner) && inner.values.None? && !LevelFits(inner.types, None, outer.types, outer.values)
    ensures Accepts(inner, v) && !Accepts(outer, v)
  {
    if !TypesInclude(outer.types, inner.types) {
      var t :| t in TypesOf(inner.types) && !Covers(outer.types.value, t);
      v := SomeOfType(inner, t);
    } else {
      v := UnlistedValue(inner, outer.values.value);
    }
  }

  /** Narrowing is exactly inclusion, of whatever the one lets through in what the other does. */
  lemma NarrowsExactly(inner: Schema, outer: Schema)
    requires Roomy(inner)
    ensures Narrows(inner, outer, false) <==> forall v :: Accepts(inner, v) ==> Accepts(outer, v)
  {
    if Narrows(inner, outer, false) {
      forall v | Accepts(inner, v) ensures Accepts(outer, v) {
        TakesOpenly(inner, v);
        NarrowsKeeps(inner, outer, v, false);
        TakesOpenly(outer, v);
      }
    } else {
      var v := Refused(inner, outer);
    }
  }

  /** The flattened view asks for as much as the schema exactly when folding loses nothing, for any parts
      in parts, fields and elements. */
  lemma FaithfulExactly(s: Schema)
    requires Roomy(Flattened(s))
    ensures Faithful(s) <==> forall v :: AcceptsFlat(s, v) <==> Accepts(s, v)
  {
    NarrowsExactly(Flattened(s), s);
    forall v ensures AcceptsFlat(s, v) <==> Accepts(Flattened(s), v)
             ensures Accepts(s, v) ==> AcceptsFlat(s, v)
    {
      FlattenedAccepts(s, v);
      if Accepts(s, v) { AllLevelsWeaken(s, v); }
    }
  }
}
