/** The other direction, and events. */
module CompatRequests {
  import opened Wrappers
  import opened Compat
  import opened CompatFlat
  import opened CompatMeaning
  import opened CompatValues

  // ----- requests

  /** What the comparison of requests leaves unchecked at one level: an integer that becomes something else,
      a type said for the first time, and a first list of values. */
  predicate StaysAccepted(before: Schema, after: Schema) {
    && (after.types.Some? ==>
          if before.values.Some? then
            forall v <- before.values.value | FitsTypes(before.types, v) :: FitsTypes(after.types, v)
          else if before.types.None? then TypesInclude(after.types, None)
          else INTEGER in before.types.value ==> INTEGER in after.types.value || NUMBER in after.types.value)
    && (after.values.Some? && before.values.None? ==> ListsAll(after.values.value, TypesOf(before.types)))
  }

  /** The comparison lets a request's types change so that an old value is refused exactly when an integer
      becomes neither an integer nor a number. */
  lemma IntegerChangeExactly(before: set<JsonType>, after: set<JsonType>)
    requires TypesAllowed(before, after, Request)
    ensures (INTEGER in before ==> INTEGER in after || NUMBER in after) <==>
            forall v :: FitsTypes(Some(before), v) ==> FitsTypes(Some(after), v)
  {
    TypesIncludeExactly(Some(after), Some(before));
    assert TypesInclude(Some(after), Some(before)) <==> forall t <- before :: Covers(after, t);
  }

  /** Of a level not reported, the new accepts whatever the old let through exactly when what was left
      unchecked stays accepted. */
  lemma StaysAcceptedExactly(before: Schema, after: Schema)
    requires !Redefined(before, after, Request) && Lost(before, after) == {}
    ensures StaysAccepted(before, after) <==>
            forall v :: LetsThrough(before.types, before.values, v) ==> LetsThrough(after.types, after.values, v)
  {
    LevelFitsExactly(before.types, before.values, after.types, after.values);
    if before.types.Some? && after.types.Some? {
      IntegerChangeExactly(before.types.value, after.types.value);
      TypesIncludeExactly(after.types, before.types);
    }
    if before.values.Some? && after.values.Some? {
      assert forall v <- before.values.value :: v in after.values.value || v in Lost(before, after);
    }
  }

  /** What is left unchecked stays accepted at every level both versions have, and these end in time; elements
      get a schema only where there was one, or where there are no arrays. */
  predicate Stable(o: Schema, n: Schema, levels: nat)
    decreases levels
  {
    && levels > 0
    && var before, after := Flatten(o), Flatten(n);
       && StaysAccepted(before, after)
       && (after.items.Some? ==>
             || (before.types.Some? && ARRAY !in before.types.value)
             || (before.items.Some? && Stable(before.items.value, after.items.value, levels - 1)))
       && (forall name <- Shared(before, after) :: Stable(before.properties[name], after.properties[name], levels - 1))
  }

  lemma CleanRequest(o: Schema, n: Schema, at: seq<Name>, depth: nat)
    requires depth <= MAX_DEPTH && Clean(Some(o), Some(n), Request, at, depth)
    ensures var before, after := Flatten(o), Flatten(n);
            && !Redefined(before, after, Request)
            && after.required <= before.required
            && (after.closed ==> before.properties.Keys <= after.properties.Keys)
            && Lost(before, after) == {}
            && Clean(before.items, after.items, Request, at + ["[]"], depth + 1)
  {
    var before, after := Flatten(o), Flatten(n);
    CleanHasCleanParts(o, n, Request, at, depth);
    forall name <- after.required ensures name in before.required {
      assert !NamesReport(before, after, Request, at, FieldBecameRequired(at, name));
    }
    forall name <- before.properties | after.closed ensures name in after.properties {
      assert !NamesReport(before, after, Request, at, AcceptedFieldRemoved(at, name));
    }
    assert !NamesReport(before, after, Request, at, ValuesRemoved(at, Lost(before, after)));
  }

  lemma CleanLevelTakes(o: Schema, n: Schema, v: Value, at: seq<Name>, depth: nat)
    requires depth <= MAX_DEPTH && Clean(Some(o), Some(n), Request, at, depth) && Stable(o, n, Steps(depth))
    requires AcceptsFlat(o, v) && Declared(o, v)
    ensures var after := Flatten(n);
            && LetsThrough(after.types, after.values, v)
            && (v.Object? ==> after.required <= v.fields.Keys && (after.closed ==> v.fields.Keys <= after.properties.Keys))
  {
    var before, after := Flatten(o), Flatten(n);
    CleanRequest(o, n, at, depth);
    StaysAcceptedExactly(before, after);
    assert LetsThrough(before.types, before.values, v);
  }

  lemma {:induction false} CleanTakes(o: Schema, n: Schema, v: Value, at: seq<Name>, depth: nat)
    requires Clean(Some(o), Some(n), Request, at, depth) && Stable(o, n, Steps(depth))
    requires AcceptsFlat(o, v) && Declared(o, v)
    ensures AcceptsFlatStrictly(n, v)
    decreases v, 1
  {
    CleanLevelTakes(o, n, v, at, depth);
    if v.Object? {
      forall f <- v.fields | f in Flatten(n).properties ensures AcceptsFlatStrictly(Flatten(n).properties[f], v.fields[f]) {
        FieldTakes(o, n, v, at, depth, f);
      }
    } else if v.Array? && Flatten(n).items.Some? {
      forall e <- v.elements ensures AcceptsFlatStrictly(Flatten(n).items.value, e) {
        ElementTakes(o, n, v, at, depth, e);
      }
    }
  }

  lemma {:induction false} FieldTakes(o: Schema, n: Schema, v: Value, at: seq<Name>, depth: nat, f: Name)
    requires Clean(Some(o), Some(n), Request, at, depth) && Stable(o, n, Steps(depth))
    requires AcceptsFlat(o, v) && Declared(o, v)
    requires v.Object? && f in v.fields && f in Flatten(n).properties
    ensures AcceptsFlatStrictly(Flatten(n).properties[f], v.fields[f])
    decreases v, 0
  {
    CleanRequest(o, n, at, depth);
    CleanField(o, n, Request, at, depth, f);
    CleanTakes(Flatten(o).properties[f], Flatten(n).properties[f], v.fields[f], at + [f], depth + 1);
  }

  lemma {:induction false} ElementTakes(o: Schema, n: Schema, v: Value, at: seq<Name>, depth: nat, e: Value)
    requires Clean(Some(o), Some(n), Request, at, depth) && Stable(o, n, Steps(depth))
    requires AcceptsFlat(o, v) && Declared(o, v)
    requires v.Array? && e in v.elements && Flatten(n).items.Some?
    ensures AcceptsFlatStrictly(Flatten(n).items.value, e)
    decreases v, 0
  {
    CleanRequest(o, n, at, depth);
    CleanTakes(Flatten(o).items.value, Flatten(n).items.value, e, at + ["[]"], depth + 1);
  }

  /** When the comparison of two versions of a request reports nothing, and what it leaves unchecked stays
      accepted at every level, the flattened view of the new one accepts every value an old client writes,
      even where it is closed; and so does the new one itself, if folding its parts loses nothing. */
  lemma RequestsStayAccepted(o: Schema, n: Schema, v: Value, at: seq<Name>)
    requires Clean(Some(o), Some(n), Request, at, 0) && Stable(o, n, MAX_DEPTH + 1)
    requires Writes(o, v)
    ensures AcceptsFlatStrictly(n, v)
    ensures Faithful(n) ==> Accepts(n, v)
    ensures StrictlyFaithful(n) ==> Takes(n, v, true)
  {
    AllLevelsWeaken(o, v);
    CleanTakes(o, n, v, at, 0);
    StrictlyKeeps(n, v);
  }

  // ----- events

  datatype EventFinding = EventRemoved(event: Name) | InEvent(event: Name, finding: Finding)

  type Events = map<Name, Schema>

  /** Whether the event check has something to say about an event: it is gone, or its payload is reported
      on in either direction. */
  ghost predicate Reported(older: Events, newer: Events, f: EventFinding) {
    f.event in older &&
    match f
    case EventRemoved(event) => event !in newer
    case InEvent(event, finding) =>
      event in newer &&
      (Reports(Some(older[event]), Some(newer[event]), Response, [], 0, finding)
       || Reports(Some(older[event]), Some(newer[event]), Request, [], 0, finding))
  }

  ghost predicate EventsClean(older: Events, newer: Events) { forall f :: !Reported(older, newer, f) }

  /** What the comparison of responses leaves unchecked stays readable in these. */
  predicate Checked(o: Schema, n: Schema) {
    Seen(o, n, MAX_DEPTH + 1) && Faithful(o)
  }

  /** No report: every event is still there, its old readers accept what its new writers write, and its new
      readers what its old writers write. */
  lemma EventsStayReadable(older: Events, newer: Events, event: Name, v: Value)
    requires EventsClean(older, newer) && event in older
    ensures event in newer
    ensures Checked(older[event], newer[event]) && Writes(newer[event], v) ==> Accepts(older[event], v)
    ensures Stable(older[event], newer[event], MAX_DEPTH + 1) && Writes(older[event], v) ==>
              && AcceptsFlatStrictly(newer[event], v)
              && (Faithful(newer[event]) ==> Accepts(newer[event], v))
              && (StrictlyFaithful(newer[event]) ==> Takes(newer[event], v, true))
  {
    assert !Reported(older, newer, EventRemoved(event));
    EventClean(older, newer, event);
    var o, n := older[event], newer[event];
    if Checked(o, n) && Writes(n, v) {
      ResponsesStayReadable(o, n, v, []);
    }
    if Stable(o, n, MAX_DEPTH + 1) && Writes(o, v) {
      RequestsStayAccepted(o, n, v, []);
    }
  }

  lemma EventClean(older: Events, newer: Events, event: Name)
    requires EventsClean(older, newer) && event in older && event in newer
    ensures Clean(Some(older[event]), Some(newer[event]), Response, [], 0)
    ensures Clean(Some(older[event]), Some(newer[event]), Request, [], 0)
  {
    forall finding
      ensures !Reports(Some(older[event]), Some(newer[event]), Response, [], 0, finding)
      ensures !Reports(Some(older[event]), Some(newer[event]), Request, [], 0, finding)
    {
      assert !Reported(older, newer, InEvent(event, finding));
    }
  }

  /** Events compared with themselves report nothing exactly when each declares what it requires. */
  lemma SameEvents(events: Events)
    ensures EventsClean(events, events) <==> forall event <- events :: RequiredDeclared(events[event], MAX_DEPTH + 1)
  {
    if EventsClean(events, events) {
      forall event <- events ensures RequiredDeclared(events[event], MAX_DEPTH + 1) {
        EventClean(events, events, event);
        SelfComparison(events[event], Response, [], 0);
      }
    } else {
      var f :| Reported(events, events, f);
      SelfComparison(events[f.event], Response, [], 0);
      SelfComparison(events[f.event], Request, [], 0);
    }
  }
}
