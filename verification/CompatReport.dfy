/** The comparison as it runs: pushing findings into a report while it walks two schemas side by side. */
module CompatReport {
  import opened Wrappers
  import opened Compat
  import opened CompatRequests

  class Report {
    var out: set<Finding>

    constructor ()
      ensures out == {}
    {
      out := {};
    }

    /** Adds everything the comparison has to say, and drops nothing. */
    method CompareSchemas(older: Option<Schema>, newer: Option<Schema>, d: Direction, at: seq<Name>, depth: nat)
      modifies this
      ensures forall f :: f in out <==> f in old(out) || Reports(older, newer, d, at, depth, f)
      decreases Steps(depth), 1
    {
      if depth > MAX_DEPTH || older.None? {
        return;
      }
      if newer.None? {
        out := out + {SchemaRemoved(at)};
        return;
      }
      var before, after := Flatten(older.value), Flatten(newer.value);
      if before.types.Some? && after.types.Some? {
        if !TypesAllowed(before.types.value, after.types.value, d) {
          out := out + {TypeChanged(at)};
          return;
        }
      }
      CompareParts(before, after, d, at, depth);
    }

    /** Names, fields and items. */
    method CompareParts(before: Schema, after: Schema, d: Direction, at: seq<Name>, depth: nat)
      requires depth <= MAX_DEPTH
      modifies this
      ensures forall f :: f in out <==> f in old(out) || PartsReport(before, after, d, at, depth, f)
      decreases Steps(depth), 0, 2
    {
      CompareNames(before, after, d, at);
      CompareFields(before, after, d, at, depth);
      CompareSchemas(before.items, after.items, d, at + ["[]"], depth + 1);
    }

    /** Required names, and a request's values. */
    method CompareNames(before: Schema, after: Schema, d: Direction, at: seq<Name>)
      modifies this
      ensures forall f :: f in out <==> f in old(out) || NamesReport(before, after, d, at, f)
    {
      if d.Request? {
        if Lost(before, after) != {} {
          out := out + {ValuesRemoved(at, Lost(before, after))};
        }
        out := out + set name <- after.required | name !in before.required :: FieldBecameRequired(at, name);
        if after.closed {
          out := out + set name <- before.properties | name !in after.properties :: AcceptedFieldRemoved(at, name);
        }
      } else {
        out := out + set name <- before.required | name !in after.properties :: FieldRemoved(at, name);
        out := out + set name <- before.required | name in after.properties && name !in after.required ::
                       FieldMadeOptional(at, name);
      }
    }

    /** The fields both versions declare. */
    method CompareFields(before: Schema, after: Schema, d: Direction, at: seq<Name>, depth: nat)
      requires depth <= MAX_DEPTH
      modifies this
      ensures forall f :: f in out <==> f in old(out) || AnyReports(Shared(before, after), before, after, d, at, depth, f)
      decreases Steps(depth), 0, 1
    {
      var todo := before.properties.Keys;
      ghost var was, done := out, Shared(before, after) - todo;
      while todo != {}
        invariant todo <= before.properties.Keys && done == Shared(before, after) - todo
        invariant forall f :: f in out <==> f in was || AnyReports(done, before, after, d, at, depth, f)
        decreases |todo|
      {
        var name :| name in todo;
        if name in after.properties {
          CompareField(before, after, d, at, depth, name, was, done);
          done := done + {name};
        }
        todo := todo - {name};
      }
    }

    /** One more field, beside those done. */
    method CompareField(before: Schema, after: Schema, d: Direction, at: seq<Name>, depth: nat, name: Name,
                        ghost was: set<Finding>, ghost done: set<Name>)
      requires depth <= MAX_DEPTH && name in Shared(before, after)
      requires forall f :: f in out <==> f in was || AnyReports(done, before, after, d, at, depth, f)
      modifies this
      ensures forall f :: f in out <==> f in was || AnyReports(done + {name}, before, after, d, at, depth, f)
      decreases Steps(depth), 0, 0
    {
      CompareSchemas(Some(before.properties[name]), Some(after.properties[name]), d, at + [name], depth + 1);
      AnyOneMore(done, before, after, d, at, depth, name);
    }
  }

  predicate PartsReport(before: Schema, after: Schema, d: Direction, at: seq<Name>, depth: nat, f: Finding)
    requires depth <= MAX_DEPTH
  {
    || NamesReport(before, after, d, at, f)
    || AnyReports(Shared(before, after), before, after, d, at, depth, f)
    || Reports(before.items, after.items, d, at + ["[]"], depth + 1, f)
  }

  /** Whether a finding is under one of these fields. */
  predicate AnyReports(names: set<Name>, before: Schema, after: Schema, d: Direction, at: seq<Name>, depth: nat, f: Finding)
    requires depth <= MAX_DEPTH
  {
    exists name <- names :: FieldReports(before, after, d, at, depth, name, f)
  }

  lemma AnyOneMore(names: set<Name>, before: Schema, after: Schema, d: Direction, at: seq<Name>, depth: nat, name: Name)
    requires depth <= MAX_DEPTH && name in Shared(before, after)
    ensures forall f :: AnyReports(names + {name}, before, after, d, at, depth, f) <==>
                        AnyReports(names, before, after, d, at, depth, f)
                        || Reports(Some(before.properties[name]), Some(after.properties[name]), d, at + [name], depth + 1, f)
  {
    forall f
      ensures FieldReports(before, after, d, at, depth, name, f) ==> AnyReports(names + {name}, before, after, d, at, depth, f)
    {
      assert name in names + {name};
    }
  }

  /** Every event of the old contracts, checked in both directions. */
  method FindEventBreakingChanges(older: Events, newer: Events) returns (found: set<EventFinding>)
    ensures forall f :: f in found <==> Reported(older, newer, f)
    ensures found == {} <==> EventsClean(older, newer)
  {
    found := {};
    var todo := older.Keys;
    while todo != {}
      invariant todo <= older.Keys
      invariant forall f :: f in found <==> f.event !in todo && Reported(older, newer, f)
      decreases |todo|
    {
      var event :| event in todo;
      if event !in newer {
        found := found + {EventRemoved(event)};
      } else {
        var report := new Report();
        report.CompareSchemas(Some(older[event]), Some(newer[event]), Response, [], 0);
        report.CompareSchemas(Some(older[event]), Some(newer[event]), Request, [], 0);
        found := found + set finding <- report.out :: InEvent(event, finding);
      }
      todo := todo - {event};
    }
  }
}
