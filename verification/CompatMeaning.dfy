/** What an empty comparison report means: the old schema accepts whatever the new one writes. */
module CompatMeaning {
  import opened Wrappers
  import opened Compat
  import opened CompatFlat
  import opened CompatValues

  // ----- an empty report

  /** The value has only fields its schema declares, at every level: what a provider writes. */
  predicate Declared(s: Schema, v: Value)
    decreases v
  {
    var flat := Flatten(s);
    && (v.Object? ==> forall f <- v.fields :: f in flat.properties && Declared(flat.properties[f], v.fields[f]))
    && (v.Array? && flat.items.Some? ==> forall e <- v.elements :: Declared(flat.items.value, e))
  }

  predicate Writes(s: Schema, v: Value) { Accepts(s, v) && Declared(s, v) }

  /** What the comparison of responses leaves unchecked at one level: a type no longer said, and a list of
      values that gained one or went. */
  predicate StaysReadable(before: Schema, after: Schema) {
    && (before.types.Some? && after.types.None? ==>
          if after.values.Some? then forall v <- after.values.value :: FitsTypes(before.types, v)
          else TypesInclude(before.types, None))
    && (before.values.Some? ==>
          if after.values.Some? then forall v <- after.values.value | FitsTypes(after.types, v) :: v in before.values.value
          else ListsAll(before.values.value, TypesOf(after.types)))
  }

  /** Types the comparison allows are types the old level has. */
  lemma AllowedTypesInclude(before: Schema, after: Schema)
    requires !Redefined(before, after, Response) && before.types.Some? && after.types.Some?
    ensures TypesInclude(before.types, after.types)
  {}

  /** Of a level not reported, the old lets through whatever the new does exactly when what was left unchecked
      stays readable. */
  lemma StaysReadableExactly(before: Schema, after: Schema)
    requires !Redefined(before, after, Response)
    ensures StaysReadable(before, after) <==>
            forall v :: LetsThrough(after.types, after.values, v) ==> LetsThrough(before.types, before.values, v)
  {
    LevelFitsExactly(after.types, after.values, before.types, before.values);
    if before.types.Some? && after.types.Some? {
      AllowedTypesInclude(before, after);
      TypesIncludeExactly(before.types, after.types);
    }
  }

  /** What is left unchecked stays readable at every level both versions have, and these end in time. */
  predicate Seen(o: Schema, n: Schema, levels: nat)
    decreases levels
  {
    && levels > 0
    && var before, after := Flatten(o), Flatten(n);
       && StaysReadable(before, after)
       && (forall name <- Shared(before, after) :: Seen(before.properties[name], after.properties[name], levels - 1))
       && (before.items.Some? && after.items.Some? ==> Seen(before.items.value, after.items.value, levels - 1))
       && (before.items.Some? ==> levels > 1)
  }

  /** Nothing is reported. */
  ghost predicate Clean(older: Option<Schema>, newer: Option<Schema>, d: Direction, at: seq<Name>, depth: nat) {
    forall f :: !Reports(older, newer, d, at, depth, f)
  }

  lemma Reported(older: Option<Schema>, newer: Option<Schema>, d: Direction, at: seq<Name>, depth: nat) returns (f: Finding)
    requires !Clean(older, newer, d, at, depth)
    ensures Reports(older, newer, d, at, depth, f)
  {
    f :| Reports(older, newer, d, at, depth, f);
  }

  ghost predicate NamesClean(before: Schema, after: Schema, d: Direction, at: seq<Name>) {
    forall f :: !NamesReport(before, after, d, at, f)
  }

  ghost predicate FieldsClean(before: Schema, after: Schema, d: Direction, at: seq<Name>, depth: nat) {
    forall name <- Shared(before, after) ::
      Clean(Some(before.properties[name]), Some(after.properties[name]), d, at + [name], depth + 1)
  }

  lemma CleanHasCleanParts(o: Schema, n: Schema, d: Direction, at: seq<Name>, depth: nat)
    requires depth <= MAX_DEPTH && Clean(Some(o), Some(n), d, at, depth)
    ensures var before, after := Flatten(o), Flatten(n);
            && !Redefined(before, after, d) && NamesClean(before, after, d, at)
            && Clean(before.items, after.items, d, at + ["[]"], depth + 1)
  {
    var before, after := Flatten(o), Flatten(n);
    assert !Reports(Some(o), Some(n), d, at, depth, TypeChanged(at));
    if f :| NamesReport(before, after, d, at, f) {
      assert Reports(Some(o), Some(n), d, at, depth, f);
    }
    if !Clean(before.items, after.items, d, at + ["[]"], depth + 1) {
      var f := Reported(before.items, after.items, d, at + ["[]"], depth + 1);
      assert Reports(Some(o), Some(n), d, at, depth, f);
    }
  }

  lemma CleanField(o: Schema, n: Schema, d: Direction, at: seq<Name>, depth: nat, name: Name)
    requires depth <= MAX_DEPTH && Clean(Some(o), Some(n), d, at, depth) && name in Shared(Flatten(o), Flatten(n))
    ensures Clean(Some(Flatten(o).properties[name]), Some(Flatten(n).properties[name]), d, at + [name], depth + 1)
  {
    var before, after := Flatten(o), Flatten(n);
    assert !Reports(Some(o), Some(n), d, at, depth, TypeChanged(at));
    if !Clean(Some(before.properties[name]), Some(after.properties[name]), d, at + [name], depth + 1) {
      var f := Reported(Some(before.properties[name]), Some(after.properties[name]), d, at + [name], depth + 1);
      assert FieldReports(before, after, d, at, depth, name, f);
      assert Reports(Some(o), Some(n), d, at, depth, f);
    }
  }

  lemma CleanPartsAreClean(o: Schema, n: Schema, d: Direction, at: seq<Name>, depth: nat)
    requires depth <= MAX_DEPTH
    requires !Redefined(Flatten(o), Flatten(n), d) && NamesClean(Flatten(o), Flatten(n), d, at)
    requires FieldsClean(Flatten(o), Flatten(n), d, at, depth)
    requires Clean(Flatten(o).items, Flatten(n).items, d, at + ["[]"], depth + 1)
    ensures Clean(Some(o), Some(n), d, at, depth)
  {
    var before, after := Flatten(o), Flatten(n);
    forall f ensures !Reports(Some(o), Some(n), d, at, depth, f) {
      assert !NamesReport(before, after, d, at, f) && !Reports(before.items, after.items, d, at + ["[]"], depth + 1, f);
      assert forall name <- Shared(before, after) :: !FieldReports(before, after, d, at, depth, name, f);
    }
  }

  /** Of two schemas compared, nothing is reported exactly when the types are allowed and nothing is said of
      the names, of a shared field, or of the items. */
  lemma CleanIs(o: Schema, n: Schema, d: Direction, at: seq<Name>, depth: nat)
    requires depth <= MAX_DEPTH
    ensures var before, after := Flatten(o), Flatten(n);
            Clean(Some(o), Some(n), d, at, depth) <==>
            && !Redefined(before, after, d) && NamesClean(before, after, d, at)
            && FieldsClean(before, after, d, at, depth) && Clean(before.items, after.items, d, at + ["[]"], depth + 1)
  {
    var before, after := Flatten(o), Flatten(n);
    if Clean(Some(o), Some(n), d, at, depth) {
      CleanHasCleanParts(o, n, d, at, depth);
      forall name <- Shared(before, after)
        ensures Clean(Some(before.properties[name]), Some(after.properties[name]), d, at + [name], depth + 1)
      {
        CleanField(o, n, d, at, depth, name);
      }
    } else if && !Redefined(before, after, d) && NamesClean(before, after, d, at)
              && FieldsClean(before, after, d, at, depth) && Clean(before.items, after.items, d, at + ["[]"], depth + 1) {
      CleanPartsAreClean(o, n, d, at, depth);
    }
  }

  /** What an empty report says of one level. */
  lemma CleanLevel(o: Schema, n: Schema, at: seq<Name>, depth: nat)
    requires depth <= MAX_DEPTH && Clean(Some(o), Some(n), Response, at, depth)
    ensures var before, after := Flatten(o), Flatten(n);
            && !Redefined(before, after, Response)
            && before.required <= after.required * after.properties.Keys
            && Clean(before.items, after.items, Response, at + ["[]"], depth + 1)
  {
    var before, after := Flatten(o), Flatten(n);
    CleanHasCleanParts(o, n, Response, at, depth);
    forall name <- before.required ensures name in after.properties && name in after.required {
      assert !NamesReport(before, after, Response, at, FieldRemoved(at, name));
      assert !NamesReport(before, after, Response, at, FieldMadeOptional(at, name));
    }
  }

  lemma CleanLevelReads(o: Schema, n: Schema, v: Value, at: seq<Name>, depth: nat)
    requires depth <= MAX_DEPTH && Clean(Some(o), Some(n), Response, at, depth)
    requires StaysReadable(Flatten(o), Flatten(n)) && AcceptsFlat(n, v)
    ensures var before := Flatten(o);
            LetsThrough(before.types, before.values, v) && (v.Object? ==> before.required <= v.fields.Keys)
  {
    var before, after := Flatten(o), Flatten(n);
    CleanLevel(o, n, at, depth);
    StaysReadableExactly(before, after);
    assert LetsThrough(after.types, after.values, v);
  }

  lemma CleanItems(o: Schema, n: Schema, at: seq<Name>, depth: nat)
    requires depth < MAX_DEPTH && Clean(Some(o), Some(n), Response, at, depth) && Flatten(o).items.Some?
    ensures Flatten(n).items.Some?
    ensures Clean(Flatten(o).items, Flatten(n).items, Response, at + ["[]"], depth + 1)
  {
    CleanLevel(o, n, at, depth);
    var below := at + ["[]"];
    assert !Reports(Flatten(o).items, Flatten(n).items, Response, below, depth + 1, SchemaRemoved(below));
  }

  lemma {:induction false} CleanReads(o: Schema, n: Schema, v: Value, at: seq<Name>, depth: nat)
    requires Clean(Some(o), Some(n), Response, at, depth)
    requires Seen(o, n, Steps(depth))
    requires AcceptsFlat(n, v) && Declared(n, v)
    ensures AcceptsFlat(o, v)
    decreases v, 1
  {
    CleanLevelReads(o, n, v, at, depth);
    if v.Object? {
      forall f <- v.fields | f in Flatten(o).properties ensures AcceptsFlat(Flatten(o).properties[f], v.fields[f]) {
        FieldReads(o, n, v, at, depth, f);
      }
    } else if v.Array? && Flatten(o).items.Some? {
      forall e <- v.elements ensures AcceptsFlat(Flatten(o).items.value, e) {
        ElementReads(o, n, v, at, depth, e);
      }
    }
  }

  lemma {:induction false} FieldReads(o: Schema, n: Schema, v: Value, at: seq<Name>, depth: nat, f: Name)
    requires Clean(Some(o), Some(n), Response, at, depth)
    requires Seen(o, n, Steps(depth))
    requires AcceptsFlat(n, v) && Declared(n, v)
    requires v.Object? && f in v.fields && f in Flatten(o).properties
    ensures AcceptsFlat(Flatten(o).properties[f], v.fields[f])
    decreases v, 0
  {
    CleanLevel(o, n, at, depth);
    CleanField(o, n, Response, at, depth, f);
    CleanReads(Flatten(o).properties[f], Flatten(n).properties[f], v.fields[f], at + [f], depth + 1);
  }

  lemma {:induction false} ElementReads(o: Schema, n: Schema, v: Value, at: seq<Name>, depth: nat, e: Value)
    requires Clean(Some(o), Some(n), Response, at, depth)
    requires Seen(o, n, Steps(depth))
    requires AcceptsFlat(n, v) && Declared(n, v)
    requires v.Array? && e in v.elements && Flatten(o).items.Some?
    ensures AcceptsFlat(Flatten(o).items.value, e)
    decreases v, 0
  {
    CleanItems(o, n, at, depth);
    CleanReads(Flatten(o).items.value, Flatten(n).items.value, e, at + ["[]"], depth + 1);
  }

  /** When the comparison of two versions of a response reports nothing, a reader of the old one accepts
      every value the new one writes: if what the comparison leaves unchecked stays readable at every level,
      and folding the parts of the old one loses nothing. */
  lemma ResponsesStayReadable(o: Schema, n: Schema, v: Value, at: seq<Name>)
    requires Clean(Some(o), Some(n), Response, at, 0)
    requires Seen(o, n, MAX_DEPTH + 1) && Faithful(o) && Writes(n, v)
    ensures Accepts(o, v)
  {
    AllLevelsWeaken(n, v);
    CleanReads(o, n, v, at, 0);
    AllLevelsKeep(o, v);
  }

  // ----- what an empty report is, without the report

  /** What is written under one version's types can be read under the other's, an integer being a number. */
  predicate TypesFit(inner: Option<set<JsonType>>, outer: Option<set<JsonType>>, numeric: bool) {
    inner.Some? && outer.Some? ==> forall t <- inner.value :: t in outer.value || (numeric && t == INTEGER)
  }

  predicate Numeric(types: Option<set<JsonType>>) { types.Some? && (INTEGER in types.value || NUMBER in types.value) }

  predicate TypesAdd(before: Schema, after: Schema, d: Direction) {
    if d.Response? then TypesFit(after.types, before.types, Numeric(before.types))
    else TypesFit(before.types, after.types, Numeric(before.types))
  }

  /** Nothing a reader relies on is taken away (responses), and nothing more is asked of a writer (requests). */
  predicate NamesAdd(before: Schema, after: Schema, d: Direction) {
    match d
    case Response => before.required <= after.required && before.required <= after.properties.Keys
    case Request =>
      && after.required <= before.required
      && (after.closed ==> before.properties.Keys <= after.properties.Keys)
      && (before.values.Some? && after.values.Some? ==> before.values.value <= after.values.value)
  }

  /** The new version only adds to the old one, within so many levels. */
  predicate OnlyAdds(o: Option<Schema>, n: Option<Schema>, d: Direction, levels: nat)
    decreases levels
  {
    levels > 0 && o.Some? ==>
      && n.Some?
      && var before, after := Flatten(o.value), Flatten(n.value);
         && TypesAdd(before, after, d) && NamesAdd(before, after, d)
         && (forall name <- Shared(before, after) ::
               OnlyAdds(Some(before.properties[name]), Some(after.properties[name]), d, levels - 1))
         && OnlyAdds(before.items, after.items, d, levels - 1)
  }

  lemma NamesCleanAdd(before: Schema, after: Schema, d: Direction, at: seq<Name>)
    requires NamesClean(before, after, d, at)
    ensures NamesAdd(before, after, d)
  {
    forall name <- before.required | d.Response? ensures name in after.required && name in after.properties {
      assert !NamesReport(before, after, d, at, FieldRemoved(at, name));
      assert !NamesReport(before, after, d, at, FieldMadeOptional(at, name));
    }
    forall name <- after.required | d.Request? ensures name in before.required {
      assert !NamesReport(before, after, d, at, FieldBecameRequired(at, name));
    }
    forall name <- before.properties | d.Request? && after.closed ensures name in after.properties {
      assert !NamesReport(before, after, d, at, AcceptedFieldRemoved(at, name));
    }
    assert !NamesReport(before, after, d, at, ValuesRemoved(at, Lost(before, after)));
    if d.Request? && before.values.Some? && after.values.Some? {
      forall v <- before.values.value ensures v in after.values.value {
        assert v !in Lost(before, after);
      }
    }
  }

  lemma NamesCleanIs(before: Schema, after: Schema, d: Direction, at: seq<Name>)
    ensures NamesClean(before, after, d, at) <==> NamesAdd(before, after, d)
  {
    if NamesClean(before, after, d, at) {
      NamesCleanAdd(before, after, d, at);
    } else {
      assert NamesAdd(before, after, d) && d.Request? ==> Lost(before, after) == {};
    }
  }

  lemma TypesAddIs(before: Schema, after: Schema, d: Direction)
    ensures !Redefined(before, after, d) <==> TypesAdd(before, after, d)
  {}

  /** Nothing is reported exactly when the new version only adds to the old, as deep as the comparison goes. */
  lemma {:induction false} CleanIsOnlyAdding(o: Option<Schema>, n: Option<Schema>, d: Direction, at: seq<Name>, depth: nat)
    ensures Clean(o, n, d, at, depth) <==> OnlyAdds(o, n, d, Steps(depth))
    decreases Steps(depth)
  {
    if depth <= MAX_DEPTH && o.Some? {
      if n.None? {
        assert Reports(o, n, d, at, depth, SchemaRemoved(at));
      } else {
        var before, after := Flatten(o.value), Flatten(n.value);
        CleanIs(o.value, n.value, d, at, depth);
        TypesAddIs(before, after, d);
        NamesCleanIs(before, after, d, at);
        FieldsCleanAdd(before, after, d, at, depth);
        CleanIsOnlyAdding(before.items, after.items, d, at + ["[]"], depth + 1);
      }
    }
  }

  lemma {:induction false} FieldsCleanAdd(before: Schema, after: Schema, d: Direction, at: seq<Name>, depth: nat)
    requires depth <= MAX_DEPTH
    ensures FieldsClean(before, after, d, at, depth) <==>
            forall name <- Shared(before, after) ::
              OnlyAdds(Some(before.properties[name]), Some(after.properties[name]), d, Steps(depth) - 1)
    decreases Steps(depth), 0
  {
    forall name <- Shared(before, after)
      ensures Clean(Some(before.properties[name]), Some(after.properties[name]), d, at + [name], depth + 1)
         <==> OnlyAdds(Some(before.properties[name]), Some(after.properties[name]), d, Steps(depth) - 1)
    {
      CleanIsOnlyAdding(Some(before.properties[name]), Some(after.properties[name]), d, at + [name], depth + 1);
    }
  }

  // ----- a schema against itself

  /** Within so many levels, every required name is declared. */
  predicate RequiredDeclared(s: Schema, levels: nat)
    decreases levels
  {
    levels > 0 ==>
      var flat := Flatten(s);
      && flat.required <= flat.properties.Keys
      && (forall name <- flat.properties :: RequiredDeclared(flat.properties[name], levels - 1))
      && (flat.items.Some? ==> RequiredDeclared(flat.items.value, levels - 1))
  }

  lemma SameLevel(s: Schema, d: Direction, at: seq<Name>)
    ensures !Redefined(Flatten(s), Flatten(s), d)
    ensures NamesClean(Flatten(s), Flatten(s), d, at) <==>
            d.Request? || Flatten(s).required <= Flatten(s).properties.Keys
  {
    var flat := Flatten(s);
    assert Lost(flat, flat) == {};
    if name :| name in flat.required && name !in flat.properties {
      assert d.Response? ==> NamesReport(flat, flat, d, at, FieldRemoved(at, name));
    }
  }

  /** A schema compared with itself reports nothing exactly when it is a request's, or every name it
      requires, as deep as the comparison goes, is declared. */
  lemma {:induction false} SelfComparison(s: Schema, d: Direction, at: seq<Name>, depth: nat)
    ensures Clean(Some(s), Some(s), d, at, depth) <==> d.Request? || RequiredDeclared(s, Steps(depth))
    decreases Steps(depth)
  {
    if depth <= MAX_DEPTH {
      var flat := Flatten(s);
      CleanIs(s, s, d, at, depth);
      SameLevel(s, d, at);
      forall name <- flat.properties
        ensures Clean(Some(flat.properties[name]), Some(flat.properties[name]), d, at + [name], depth + 1)
           <==> d.Request? || RequiredDeclared(flat.properties[name], Steps(depth) - 1)
      {
        SelfComparison(flat.properties[name], d, at + [name], depth + 1);
      }
      if flat.items.Some? {
        SelfComparison(flat.items.value, d, at + ["[]"], depth + 1);
      } else {
        assert Clean(None, None, d, at + ["[]"], depth + 1);
      }
    }
  }
}
