/** What the comparison lets through, and exactly when that lets a value through too. */
module CompatLimits {
  import opened Wrappers
  import opened Compat
  import opened CompatFlat
  import opened CompatMeaning
  import opened CompatRequests
  import opened CompatValues

  function Of(t: JsonType): Schema { ANY.(types := Some({t})) }

  /** A schema with another under one optional field. */
  function Around(inner: Schema): Schema { ANY.(types := Some({OBJECT}), properties := map["next" := inner]) }

  /** Each schema has the next one under it. */
  predicate Nested(schemas: seq<Schema>) {
    schemas != [] && forall i, j | 0 <= i < |schemas| - 1 && j == i + 1 :: schemas[i] == Around(schemas[j])
  }

  lemma FlatAlready(s: Schema)
    requires s.allOf == []
    ensures Flatten(s) == s
  {
    assert s.(allOf := []) == s;
  }

  // ----- depth

  lemma AroundAdds(o: Schema, n: Schema, d: Direction, steps: nat)
    requires steps > 0
    ensures OnlyAdds(Some(Around(o)), Some(Around(n)), d, steps) <==> OnlyAdds(Some(o), Some(n), d, steps - 1)
  {
    FlatAlready(Around(o));
    FlatAlready(Around(n));
    assert Shared(Around(o), Around(n)) == {"next"};
    assert Around(o).properties["next"] == o && Around(n).properties["next"] == n;
  }

  lemma NestedRest(schemas: seq<Schema>)
    requires Nested(schemas) && |schemas| > 1
    ensures schemas[0] == Around(schemas[1]) && Nested(schemas[1..]) && schemas[1..][|schemas| - 2] == schemas[|schemas| - 1]
  {
    var rest := schemas[1..];
    forall i, j | 0 <= i < |rest| - 1 && j == i + 1 ensures rest[i] == Around(rest[j]) {
      assert schemas[i + 1] == Around(schemas[j + 1]);
    }
  }

  lemma {:induction false} NestedAdds(os: seq<Schema>, ns: seq<Schema>, d: Direction, steps: nat)
    requires Nested(os) && Nested(ns) && |os| == |ns|
    ensures var levels := |os| - 1;
            OnlyAdds(Some(os[0]), Some(ns[0]), d, steps) <==>
            steps <= levels || OnlyAdds(Some(os[levels]), Some(ns[levels]), d, steps - levels)
    decreases |os|
  {
    if |os| > 1 && steps > 0 {
      NestedRest(os);
      NestedRest(ns);
      AroundAdds(os[1], ns[1], d, steps);
      NestedAdds(os[1..], ns[1..], d, steps - 1);
    }
  }

  /** A change under so many levels is reported exactly as far as the comparison goes: at most 25 deep just as
      it would be at the top, and below not at all. */
  lemma NestedExactly(os: seq<Schema>, ns: seq<Schema>, d: Direction, at: seq<Name>, below: seq<Name>, depth: nat)
    requires Nested(os) && Nested(ns) && |os| == |ns|
    ensures var levels := |os| - 1;
            Clean(Some(os[0]), Some(ns[0]), d, at, depth) <==>
            depth + levels > MAX_DEPTH || Clean(Some(os[levels]), Some(ns[levels]), d, below, depth + levels)
  {
    var levels := |os| - 1;
    CleanIsOnlyAdding(Some(os[0]), Some(ns[0]), d, at, depth);
    NestedAdds(os, ns, d, Steps(depth));
    if depth + levels <= MAX_DEPTH {
      assert Steps(depth) - levels == Steps(depth + levels);
      CleanIsOnlyAdding(Some(os[levels]), Some(ns[levels]), d, below, depth + levels);
    }
  }

  // ----- types and values

  /** Two schemas, once folded, without names and elements to compare. */
  lemma CleanLeaves(o: Schema, n: Schema, d: Direction, at: seq<Name>)
    requires var before, after := Flatten(o), Flatten(n);
             && before.required == after.required == {} && before.items.None? && after.items.None?
             && Shared(before, after) == {} && !after.closed
             && !Redefined(before, after, d) && (d.Request? ==> Lost(before, after) == {})
    ensures Clean(Some(o), Some(n), d, at, 0)
  {
    var before, after := Flatten(o), Flatten(n);
    assert NamesClean(before, after, d, at);
    assert Clean(None, None, d, at + ["[]"], 1);
    CleanIs(o, n, d, at, 0);
  }

  predicate IsLeaf(s: Schema) {
    s.required == {} && s.properties == map[] && s.items.None? && s.allOf == []
  }

  lemma LeafAccepts(s: Schema, v: Value)
    requires IsLeaf(s)
    ensures Accepts(s, v) <==> LetsThrough(s.types, s.values, v)
    ensures Writes(s, v) <==> LetsThrough(s.types, s.values, v) && NoFields(v)
  {
    FlatAlready(s);
  }

  /** A leaf declares no fields, so it writes none. */
  predicate NoFields(v: Value) { v.Object? ==> v.fields == map[] }

  /** Of leaves the comparison of responses passes, the old one accepts everything the new one does exactly
      when what it left unchecked stays readable: a type no longer said, or a list that gained a value or went. */
  lemma LeafResponseExactly(o: Schema, n: Schema, at: seq<Name>)
    requires IsLeaf(o) && IsLeaf(n) && Clean(Some(o), Some(n), Response, at, 0)
    ensures StaysReadable(o, n) <==> forall v :: Accepts(n, v) ==> Accepts(o, v)
  {
    FlatAlready(o);
    FlatAlready(n);
    CleanHasCleanParts(o, n, Response, at, 0);
    StaysReadableExactly(o, n);
    if StaysReadable(o, n) {
      forall v | Accepts(n, v) ensures Accepts(o, v) {
        LeafAccepts(n, v);
        LeafAccepts(o, v);
      }
    } else {
      var v :| LetsThrough(n.types, n.values, v) && !LetsThrough(o.types, o.values, v);
      LeafAccepts(n, v);
      LeafAccepts(o, v);
    }
  }

  /** The same of requests: an integer, a type said for the first time, or a first list of values. */
  lemma LeafRequestExactly(o: Schema, n: Schema, at: seq<Name>)
    requires IsLeaf(o) && IsLeaf(n) && Clean(Some(o), Some(n), Request, at, 0)
    ensures StaysAccepted(o, n) <==> forall v :: Accepts(o, v) ==> Accepts(n, v)
  {
    FlatAlready(o);
    FlatAlready(n);
    CleanRequest(o, n, at, 0);
    StaysAcceptedExactly(o, n);
    if StaysAccepted(o, n) {
      forall v | Accepts(o, v) ensures Accepts(n, v) {
        LeafAccepts(n, v);
        LeafAccepts(o, v);
      }
    } else {
      var v :| LetsThrough(o.types, o.values, v) && !LetsThrough(n.types, n.values, v);
      LeafAccepts(n, v);
      LeafAccepts(o, v);
    }
  }

  /** A request's integer may become a string: no report, and the old client's numbers are refused. */
  lemma IntegerToStringPasses(at: seq<Name>)
    ensures Clean(Some(Of(INTEGER)), Some(Of(STRING)), Request, at, 0)
    ensures Writes(Of(INTEGER), Number(1.0)) && !AcceptsFlat(Of(STRING), Number(1.0))
  {
    FlatAlready(Of(INTEGER));
    FlatAlready(Of(STRING));
    CleanLeaves(Of(INTEGER), Of(STRING), Request, at);
    assert HasType(Number(1.0), INTEGER);
  }

  /** A response may gain a value the old list did not have: no report, and the old reader refuses it. */
  lemma NewResponseValuePasses(at: seq<Name>)
    ensures var o := Of(STRING).(values := Some({Text("OPEN")}));
            var n := Of(STRING).(values := Some({Text("OPEN"), Text("LOST")}));
            Clean(Some(o), Some(n), Response, at, 0) && Writes(n, Text("LOST")) && !Accepts(o, Text("LOST"))
  {
    var o := Of(STRING).(values := Some({Text("OPEN")}));
    var n := Of(STRING).(values := Some({Text("OPEN"), Text("LOST")}));
    FlatAlready(o);
    FlatAlready(n);
    CleanLeaves(o, n, Response, at);
    assert HasType(Text("LOST"), STRING);
    assert Text("LOST") != Text("OPEN");
  }

  /** A response that no longer says its type may write anything unreported. */
  lemma DroppedTypePasses(at: seq<Name>)
    ensures Clean(Some(Of(STRING)), Some(ANY), Response, at, 0)
    ensures Writes(ANY, Null) && !Accepts(Of(STRING), Null)
  {
    FlatAlready(Of(STRING));
    FlatAlready(ANY);
    CleanLeaves(Of(STRING), ANY, Response, at);
  }

  // ----- what folding drops of a part

  function Folded(parts: seq<Schema>): Schema { ANY.(allOf := parts) }

  lemma FoldsOne(part: Schema)
    requires part.allOf == []
    ensures Flatten(Folded([part])) == ANY.(types := part.types, required := part.required, properties := part.properties)
  {
    FlatAlready(part);
    assert [part][1..] == [];
    assert Merged(ANY, [part]) == Merged(MergeOne(ANY, part), []);
  }

  lemma FoldsTwo(x: Schema, y: Schema)
    requires x.allOf == [] && y.allOf == []
    ensures Flatten(Folded([x, y])) == MergeOne(MergeOne(ANY, x), y)
  {
    FlatAlready(x);
    FlatAlready(y);
    assert [x, y][1..] == [y] && [y][1..] == [];
    assert Merged(MergeOne(ANY, x), [y]) == Merged(MergeOne(MergeOne(ANY, x), y), []);
  }

  /** The shape of an extended object: two parts that both say they are objects and declare different names.
      Folding them loses nothing, provided it loses nothing under them. */
  lemma ExtendedObjectIsFaithful(x: Schema, y: Schema)
    requires x.allOf == y.allOf == [] && x.types == y.types == Some({OBJECT})
    requires x.values.None? && y.values.None? && x.properties.Keys !! y.properties.Keys
    requires forall name <- x.properties :: Faithful(x.properties[name])
    requires forall name <- y.properties :: Faithful(y.properties[name])
    ensures Faithful(Folded([x, y]))
  {
    FoldsTwo(x, y);
    var full := Flattened(Folded([x, y]));
    forall part <- [x, y] ensures Narrows(full, part, false) {
      assert TypesInclude(part.types, full.types);
      forall name <- part.properties ensures Narrows(FieldOf(full, name), part.properties[name], false) {
        assert FieldOf(full, name) == Flattened(part.properties[name]);
      }
    }
  }

  /** A part's list of values is dropped: a response may write another value unreported. */
  lemma PartListPasses(at: seq<Name>)
    ensures var o := Folded([Of(STRING).(values := Some({Text("OPEN")}))]);
            && Clean(Some(o), Some(Of(STRING)), Response, at, 0) && Seen(o, Of(STRING), MAX_DEPTH + 1)
            && Writes(Of(STRING), Text("LOST")) && !Accepts(o, Text("LOST"))
  {
    var part := Of(STRING).(values := Some({Text("OPEN")}));
    FoldsOne(part);
    FlatAlready(Of(STRING));
    CleanLeaves(Folded([part]), Of(STRING), Response, at);
    assert HasType(Text("LOST"), STRING) && Text("LOST") != Text("OPEN");
    assert part in Folded([part]).allOf && !Accepts(part, Text("LOST"));
  }

  /** So are its elements. */
  lemma PartItemsPass(at: seq<Name>)
    ensures var o := Folded([Of(ARRAY).(items := Some(Of(STRING)))]);
            && Clean(Some(o), Some(Of(ARRAY)), Response, at, 0) && Seen(o, Of(ARRAY), MAX_DEPTH + 1)
            && Writes(Of(ARRAY), Array([Null])) && !Accepts(o, Array([Null]))
  {
    var part := Of(ARRAY).(items := Some(Of(STRING)));
    FoldsOne(part);
    FlatAlready(Of(ARRAY));
    CleanLeaves(Folded([part]), Of(ARRAY), Response, at);
    assert HasType(Array([Null]), ARRAY);
    assert Null in Array([Null]).elements && !Accepts(Of(STRING), Null);
    assert part in Folded([part]).allOf && !Accepts(part, Array([Null]));
  }

  /** A type is dropped that comes after another. */
  lemma LaterTypePasses(at: seq<Name>)
    ensures var n := ANY.(types := Some({STRING, NULL})); var o := Folded([n, Of(STRING)]);
            && Clean(Some(o), Some(n), Response, at, 0) && Seen(o, n, MAX_DEPTH + 1)
            && Writes(n, Null) && !Accepts(o, Null)
  {
    var n := ANY.(types := Some({STRING, NULL}));
    FoldsTwo(n, Of(STRING));
    FlatAlready(n);
    var o := Folded([n, Of(STRING)]);
    CleanLeaves(o, n, Response, at);
    assert HasType(Null, NULL);
    assert o.allOf[1] == Of(STRING) && Of(STRING) in o.allOf && !Accepts(Of(STRING), Null);
  }

  /** And that it is closed: a request's field that a part refuses goes unreported. */
  lemma PartClosedPasses(at: seq<Name>)
    ensures var n := Folded([ANY.(closed := true)]);
            && Clean(Some(Part(ANY)), Some(n), Request, at, 0) && Stable(Part(ANY), n, MAX_DEPTH + 1)
            && Writes(Part(ANY), Holding(Null)) && !Takes(n, Holding(Null), true)
  {
    var part := ANY.(closed := true);
    var n := Folded([part]);
    FoldsOne(part);
    FlatAlready(Part(ANY));
    CleanLeaves(Part(ANY), n, Request, at);
    PartAccepts(ANY, Null);
    FlatAlready(ANY);
    assert "a" in Holding(Null).fields && part in n.allOf;
    assert !Takes(part, Holding(Null), true);
  }

  // ----- parts that declare one name twice

  function Part(s: Schema): Schema { ANY.(properties := map["a" := s]) }

  function Twice(x: Schema, y: Schema): Schema { Folded([Part(x), Part(y)]) }

  lemma LaterDeclarationWins(x: Schema, y: Schema)
    ensures Flatten(Twice(x, y)) == Part(y)
  {
    FoldsTwo(Part(x), Part(y));
    assert MergeOne(ANY, Part(x)) == Part(x) && MergeOne(Part(x), Part(y)) == Part(y);
  }

  lemma TwiceAccepts(x: Schema, y: Schema, v: Value)
    ensures Accepts(Twice(x, y), v) <==> Accepts(Part(x), v) && Accepts(Part(y), v)
  {
    assert [Part(x), Part(y)][0] == Part(x) && [Part(x), Part(y)][1] == Part(y);
    assert Part(x) in [Part(x), Part(y)] && Part(y) in [Part(x), Part(y)];
  }

  function Holding(w: Value): Value { Object(map["a" := w]) }

  lemma PartAccepts(s: Schema, w: Value)
    ensures Accepts(Part(s), Holding(w)) <==> Accepts(s, w)
  {
    assert "a" in Holding(w).fields && Holding(w).fields["a"] == w && Part(s).properties["a"] == s;
  }

  /** The flattened view of two parts that declare one name asks for as much as both exactly when the later
      declaration lets through only what the earlier does. */
  lemma OverlapExactly(x: Schema, y: Schema)
    requires IsLeaf(x) && IsLeaf(y)
    ensures LevelFits(y.types, y.values, x.types, x.values) <==>
            forall v :: Accepts(Flatten(Twice(x, y)), v) ==> Accepts(Twice(x, y), v)
  {
    LaterDeclarationWins(x, y);
    LevelFitsExactly(y.types, y.values, x.types, x.values);
    if LevelFits(y.types, y.values, x.types, x.values) {
      forall v | Accepts(Part(y), v) ensures Accepts(Twice(x, y), v) {
        TwiceAccepts(x, y, v);
        if v.Object? && "a" in v.fields {
          LeafAccepts(x, v.fields["a"]);
          LeafAccepts(y, v.fields["a"]);
        }
      }
    } else {
      var w :| LetsThrough(y.types, y.values, w) && !LetsThrough(x.types, x.values, w);
      LeafAccepts(x, w);
      LeafAccepts(y, w);
      PartAccepts(x, w);
      PartAccepts(y, w);
      TwiceAccepts(x, y, Holding(w));
    }
  }
}
