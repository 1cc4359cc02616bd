/** Types and value lists at one level of a schema: exactly when all that one lets through the other does. */
module CompatValues {
  import opened Wrappers
  import opened Compat

  /** What a level lets through of itself, before fields and elements. */
  predicate LetsThrough(types: Option<set<JsonType>>, values: Option<set<Value>>, v: Value) {
    FitsTypes(types, v) && (values.Some? ==> v in values.value)
  }

  // ----- types

  const ALL_TYPES := {NULL, BOOLEAN, INTEGER, NUMBER, STRING, ARRAY, OBJECT}

  predicate Covers(types: set<JsonType>, t: JsonType) { t in types || (t == INTEGER && NUMBER in types) }

  function TypesOf(types: Option<set<JsonType>>): set<JsonType> { if types.Some? then types.value else ALL_TYPES }

  predicate TypesInclude(outer: Option<set<JsonType>>, inner: Option<set<JsonType>>) {
    outer.Some? ==> forall t <- TypesOf(inner) :: Covers(outer.value, t)
  }

  function Nulls(k: nat): seq<Value> { seq(k, i => Null) }

  function Letters(k: nat): string { seq(k, i => 'a') }

  /** Values of a type, as many as there are of it. */
  function Member(t: JsonType, k: nat): (v: Value)
    ensures HasType(v, t)
  {
    match t
    case NULL => Null
    case BOOLEAN => Bool(k == 0)
    case INTEGER => Number(k as real)
    case NUMBER => Number(k as real + 0.5)
    case STRING => Text(Letters(k))
    case ARRAY => Array(Nulls(k))
    case OBJECT => Object(map["a" := Array(Nulls(k))])
  }

  /** A member of a type is of another only if that is the type, or it is an integer and the other a number. */
  lemma MemberHasOnly(t: JsonType, k: nat, other: JsonType)
    requires HasType(Member(t, k), other)
    ensures other == t || (t == INTEGER && other == NUMBER)
  {}

  lemma AllHaveSomeType(v: Value)
    ensures FitsTypes(Some(ALL_TYPES), v)
  {
    assert HasType(v, match v
                      case Null => NULL
                      case Bool(_) => BOOLEAN
                      case Number(_) => NUMBER
                      case Text(_) => STRING
                      case Array(_) => ARRAY
                      case Object(_) => OBJECT);
  }

  lemma FitsTypesOf(types: Option<set<JsonType>>, v: Value)
    ensures FitsTypes(types, v) <==> exists t <- TypesOf(types) :: HasType(v, t)
  {
    AllHaveSomeType(v);
  }

  /** Types include others, integers being numbers, exactly when every value of those is of these. */
  lemma TypesIncludeExactly(outer: Option<set<JsonType>>, inner: Option<set<JsonType>>)
    ensures TypesInclude(outer, inner) <==> forall v :: FitsTypes(inner, v) ==> FitsTypes(outer, v)
  {
    if TypesInclude(outer, inner) {
      forall v | FitsTypes(inner, v) ensures FitsTypes(outer, v) {
        IncludedFits(outer, inner, v);
      }
    } else {
      var t :| t in TypesOf(inner) && !Covers(outer.value, t);
      var v := Member(t, 0);
      FitsTypesOf(inner, v);
      if other :| other in outer.value && HasType(v, other) {
        MemberHasOnly(t, 0, other);
      }
      assert FitsTypes(inner, v) && !FitsTypes(outer, v);
    }
  }

  lemma IncludedFits(outer: Option<set<JsonType>>, inner: Option<set<JsonType>>, v: Value)
    requires TypesInclude(outer, inner) && FitsTypes(inner, v)
    ensures FitsTypes(outer, v)
  {
    FitsTypesOf(inner, v);
    if outer.Some? {
      var t :| t in TypesOf(inner) && HasType(v, t);
      if t !in outer.value { assert HasType(v, NUMBER); }
    }
  }

  // ----- value lists

  predicate Boundless(t: JsonType) { !t.NULL? && !t.BOOLEAN? }

  /** How far along the members of its type a value comes. */
  function Rank(v: Value): nat {
    match v
    case Number(r) => if r >= 0.0 then r.Floor else 0
    case Text(s) => |s|
    case Array(vs) => |vs|
    case Object(fs) => if "a" in fs && fs["a"].Array? then |fs["a"].elements| else 0
    case _ => 0
  }

  lemma MemberRank(t: JsonType, k: nat)
    requires Boundless(t)
    ensures Rank(Member(t, k)) == k
  {}

  lemma {:induction false} RanksBounded(list: set<Value>) returns (bound: nat)
    ensures forall v <- list :: Rank(v) < bound
    decreases |list|
  {
    if list == {} {
      bound := 0;
    } else {
      var v :| v in list;
      var rest := RanksBounded(list - {v});
      bound := if Rank(v) < rest then rest else Rank(v) + 1;
    }
  }

  /** No list holds every value of a type that has no end of them. */
  lemma Unlisted(t: JsonType, list: set<Value>) returns (v: Value)
    requires Boundless(t)
    ensures HasType(v, t) && v !in list
  {
    var k := RanksBounded(list);
    MemberRank(t, k);
    v := Member(t, k);
  }

  /** A list that holds every value of a type: only null and the booleans have few. */
  predicate ListsType(list: set<Value>, t: JsonType) {
    (t.NULL? && Null in list) || (t.BOOLEAN? && Bool(true) in list && Bool(false) in list)
  }

  predicate ListsAll(list: set<Value>, types: set<JsonType>) { forall t <- types :: ListsType(list, t) }

  lemma ListsAllExactly(list: set<Value>, types: Option<set<JsonType>>)
    ensures ListsAll(list, TypesOf(types)) <==> forall v :: FitsTypes(types, v) ==> v in list
  {
    if ListsAll(list, TypesOf(types)) {
      forall v | FitsTypes(types, v) ensures v in list {
        FitsTypesOf(types, v);
        var t :| t in TypesOf(types) && HasType(v, t);
        assert t.BOOLEAN? ==> v == Bool(true) || v == Bool(false);
      }
    } else {
      var t :| t in TypesOf(types) && !ListsType(list, t);
      var v: Value;
      if t.NULL? {
        v := Null;
      } else if t.BOOLEAN? {
        v := Bool(Bool(true) !in list);
      } else {
        v := Unlisted(t, list);
      }
      FitsTypesOf(types, v);
      assert HasType(v, t) && v !in list;
    }
  }

  // ----- both

  /** What one level lets through the other does: by looking at the list if there is one, at the types if not. */
  predicate LevelFits(innerTypes: Option<set<JsonType>>, innerValues: Option<set<Value>>,
                      outerTypes: Option<set<JsonType>>, outerValues: Option<set<Value>>)
  {
    if innerValues.Some? then
      forall v <- innerValues.value | FitsTypes(innerTypes, v) :: LetsThrough(outerTypes, outerValues, v)
    else
      TypesInclude(outerTypes, innerTypes)
      && (outerValues.Some? ==> ListsAll(outerValues.value, TypesOf(innerTypes)))
  }

  lemma LevelFitsExactly(innerTypes: Option<set<JsonType>>, innerValues: Option<set<Value>>,
                         outerTypes: Option<set<JsonType>>, outerValues: Option<set<Value>>)
    ensures LevelFits(innerTypes, innerValues, outerTypes, outerValues) <==>
            forall v :: LetsThrough(innerTypes, innerValues, v) ==> LetsThrough(outerTypes, outerValues, v)
  {
    if innerValues.None? {
      TypesIncludeExactly(outerTypes, innerTypes);
      assert forall v :: LetsThrough(innerTypes, innerValues, v) <==> FitsTypes(innerTypes, v);
      if outerValues.Some? {
        ListsAllExactly(outerValues.value, innerTypes);
        assert forall v :: LetsThrough(outerTypes, outerValues, v) <==> FitsTypes(outerTypes, v) && v in outerValues.value;
      } else {
        assert forall v :: LetsThrough(outerTypes, outerValues, v) <==> FitsTypes(outerTypes, v);
      }
    }
  }
}
