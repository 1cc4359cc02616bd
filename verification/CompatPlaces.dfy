/** Each finding of a comparison, told from the two versions at the place it names. */
module CompatPlaces {
  import opened Wrappers
  import opened Compat
  import opened CompatMeaning

  /** What a finding says of the two versions of one level, as they are once folded. */
  ghost predicate SaysOfLevel(before: Schema, after: Schema, d: Direction, f: Finding) {
    match f
    case SchemaRemoved(_) => false
    case TypeChanged(_) => !TypesAdd(before, after, d)
    case FieldRemoved(_, name) =>
      d == Response && TypesAdd(before, after, d) && name in before.required && name !in after.properties
    case FieldMadeOptional(_, name) =>
      d == Response && TypesAdd(before, after, d) && name in before.required * after.properties.Keys - after.required
    case FieldBecameRequired(_, name) =>
      d == Request && TypesAdd(before, after, d) && name in after.required - before.required
    case AcceptedFieldRemoved(_, name) =>
      d == Request && TypesAdd(before, after, d) && after.closed && name in before.properties.Keys - after.properties.Keys
    case ValuesRemoved(_, lost) =>
      && d == Request && TypesAdd(before, after, d) && before.values.Some? && after.values.Some?
      && lost != {} && forall v :: v in lost <==> v in before.values.value && v !in after.values.value
  }

  /** Following names of fields both versions declare, and `[]` into their elements, so many levels down. A change
      of type ends the way: nothing under it is compared. */
  ghost predicate SaysAt(older: Option<Schema>, newer: Option<Schema>, d: Direction, way: seq<Name>, levels: nat, f: Finding)
    decreases |way|
  {
    && levels > 0 && older.Some?
    && if newer.None? then way == [] && f.SchemaRemoved?
       else
         var before, after := Flatten(older.value), Flatten(newer.value);
         if way == [] then SaysOfLevel(before, after, d, f)
         else
           && TypesAdd(before, after, d)
           && (|| (way[0] in before.properties && way[0] in after.properties
                   && SaysAt(Some(before.properties[way[0]]), Some(after.properties[way[0]]), d, way[1..], levels - 1, f))
               || (way[0] == "[]" && SaysAt(before.items, after.items, d, way[1..], levels - 1, f)))
  }

  lemma SaysHere(before: Schema, after: Schema, d: Direction, at: seq<Name>, f: Finding)
    requires f.at == at && TypesAdd(before, after, d)
    ensures NamesReport(before, after, d, at, f) <==> SaysOfLevel(before, after, d, f)
  {
    if f.ValuesRemoved? {
      if SaysOfLevel(before, after, d, f) {
        assert f.lost == Lost(before, after);
      }
    }
  }

  /** The rest of the way from `at` to a finding's place. */
  function Rest(at: seq<Name>, f: Finding): seq<Name>
    requires at <= f.at
  {
    f.at[|at|..]
  }

  ghost predicate Says(older: Option<Schema>, newer: Option<Schema>, d: Direction, at: seq<Name>, depth: nat, f: Finding) {
    at <= f.at && SaysAt(older, newer, d, Rest(at, f), Steps(depth), f)
  }

  lemma OneOn(at: seq<Name>, name: Name, f: Finding)
    ensures at + [name] <= f.at <==> at <= f.at && |f.at| > |at| && Rest(at, f)[0] == name
    ensures at + [name] <= f.at ==> Rest(at + [name], f) == Rest(at, f)[1..]
  {
    if at <= f.at && |f.at| > |at| && f.at[|at|] == name {
      assert f.at[..|at| + 1] == at + [name];
    }
  }

  /** The comparison reports a finding exactly when it is so at the place the finding names: the way there leads
      through levels both versions have and whose types may stay, within the depth compared. */
  lemma {:induction false} ReportsExactly(older: Option<Schema>, newer: Option<Schema>, d: Direction, at: seq<Name>, depth: nat,
                                          f: Finding)
    ensures Reports(older, newer, d, at, depth, f) <==> Says(older, newer, d, at, depth, f)
    decreases Steps(depth)
  {
    if depth <= MAX_DEPTH && older.Some? && newer.Some? {
      var before, after := Flatten(older.value), Flatten(newer.value);
      TypesAddIs(before, after, d);
      if TypesAdd(before, after, d) {
        FieldsSay(before, after, d, at, depth, f);
        ReportsExactly(before.items, after.items, d, at + ["[]"], depth + 1, f);
        OneOn(at, "[]", f);
        if f.at == at { SaysHere(before, after, d, at, f); }
      }
    } else if depth <= MAX_DEPTH && older.Some? {
      assert f == SchemaRemoved(at) <==> f.SchemaRemoved? && f.at == at;
    }
  }

  lemma {:induction false} FieldsSay(before: Schema, after: Schema, d: Direction, at: seq<Name>, depth: nat, f: Finding)
    requires depth <= MAX_DEPTH
    ensures (exists name <- Shared(before, after) :: FieldReports(before, after, d, at, depth, name, f)) <==>
            && at <= f.at && |f.at| > |at| && Rest(at, f)[0] in Shared(before, after)
            && SaysAt(Some(before.properties[Rest(at, f)[0]]), Some(after.properties[Rest(at, f)[0]]), d, Rest(at, f)[1..],
                      Steps(depth) - 1, f)
    decreases Steps(depth), 0
  {
    forall name | name in Shared(before, after)
      ensures FieldReports(before, after, d, at, depth, name, f) <==>
              && at <= f.at && |f.at| > |at| && Rest(at, f)[0] == name
              && SaysAt(Some(before.properties[name]), Some(after.properties[name]), d, Rest(at, f)[1..], Steps(depth) - 1, f)
    {
      ReportsExactly(Some(before.properties[name]), Some(after.properties[name]), d, at + [name], depth + 1, f);
      OneOn(at, name, f);
    }
  }
}
