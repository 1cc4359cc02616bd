/** Exactly which user names, and which settings, the identity cache's promises need. */
module IdentityNames {
  import opened IdentityCache
  import opened IdentityFreshness

  // ----- two names that share a key

  /** A pair of sessions under which a name and its ending share a key. */
  lemma NamesMeet(u: string, v: string) returns (p: string)
    requires EndsWith(u, ":" + v)
    ensures u == p + ":" + v && KeyOf("", u) == KeyOf(":" + p, v) && IdOf(u) != IdOf(v)
  {
    p := u[..|u| - |v| - 1];
    assert u == p + (":" + v) == p + ":" + v;
    assert "" + ":" + u == ":" + p + ":" + v;
    assert |Lower(u)| != |Lower(v)|;
  }

  lemma RunsOn(w: World, step: Step, rest: seq<Step>, config: Config)
    requires Enabled(w, step) && Runs(Next(w, step, config), rest, config)
    ensures Runs(w, [step] + rest, config)
    ensures End(w, [step] + rest, config) == End(Next(w, step, config), rest, config)
  {
    assert ([step] + rest)[1..] == rest;
  }

  // ----- a first lookup, for any name

  function Asked(u: string): World {
    World(EMPTY.(inflight := map[KeyOf("", u) := 0]), [Lookup("", u, Running)], 0)
  }

  function Told(u: string, config: Config): World {
    var key := KeyOf("", u);
    World(Cache([key], map[key := EntryOf(u, Inactive, 0, config, 0)], map[IdOf(u) := {key}], map[key := 0]),
          [Lookup("", u, Answered(Inactive, 0))], 0)
  }

  function Over(u: string, config: Config): World {
    Told(u, config).(cache := Told(u, config).cache.(inflight := map[]))
  }

  lemma FirstAsks(u: string, config: Config)
    ensures Next(Start(0), Ask("", u), config) == Asked(u)
  {}

  lemma FirstIsTold(u: string, config: Config)
    requires config.ttl > 0
    ensures Next(Asked(u), Succeed(0, Inactive), config) == Told(u, config)
  {
    var key, c := KeyOf("", u), Asked(u).cache;
    assert |c.entries| == 0 && Evict(c, config, 0) == c;
    assert [] + [key] == [key] && {} + {key} == {key};
    assert Asked(u).lookups[0 := Lookup("", u, Answered(Inactive, 0))] == Told(u, config).lookups;
  }

  lemma FirstEnds(u: string, config: Config)
    ensures Next(Told(u, config), Finish(0), config) == Over(u, config)
  {}

  function FirstRun(u: string): seq<Step> { [Ask("", u), Succeed(0, Inactive), Finish(0)] }

  lemma FirstRunEnds(u: string, config: Config)
    requires config.ttl > 0
    ensures Runs(Start(0), FirstRun(u), config) && End(Start(0), FirstRun(u), config) == Over(u, config)
  {
    FirstAsks(u, config);
    FirstIsTold(u, config);
    FirstEnds(u, config);
    RunsOn(Told(u, config), Finish(0), [], config);
    RunsOn(Asked(u), Succeed(0, Inactive), [Finish(0)], config);
    RunsOn(Start(0), Ask("", u), [Succeed(0, Inactive), Finish(0)], config);
  }

  // ----- freshness

  /** A name that ends in a colon and another is answered for when the other has just been invalidated. */
  lemma StaleStory(u: string, v: string, names: iset<string>, config: Config) returns (story: Story)
    requires u in names && v in names && EndsWith(u, ":" + v) && config.ttl > 0
    ensures story.Happens(names, config) && !story.IsFresh(names, config)
  {
    var p := NamesMeet(u, v);
    story := Story(0, FirstRun(u), v, [], ":" + p, v);
    FirstRunEnds(u, config);
    var w := Over(u, config);
    var later := Next(w, Forget(v), config);
    assert IdOf(v) !in w.cache.keysByUser && later.cache.entries == w.cache.entries;
    assert AnswerTo(later, ":" + p, v) == Cached(EntryOf(u, Inactive, 0, config, 0));
  }

  /** Every question asked after an invalidation is answered by a lookup begun after it, over all runs with
      these names, exactly when nothing is kept or no name ends in a colon and another. */
  lemma FreshExactly(names: iset<string>, config: Config)
    ensures AlwaysFresh(names, config) <==> config.ttl <= 0 || Apart(names)
  {
    if config.ttl <= 0 || Apart(names) {
      forall story: Story | story.Happens(names, config) ensures story.IsFresh(names, config) {
        FreshAfterInvalidation(story, names, config);
      }
    } else {
      var u, v :| u in names && v in names && EndsWith(u, ":" + v);
      var story := StaleStory(u, v, names, config);
    }
  }

  // ----- whose answer it is

  /** Whose lookup answers. */
  predicate AnswersOwn(w: World, session: string, user: string) {
    match AnswerTo(w, session, user)
    case Cached(entry) => entry.lookup < |w.lookups| && w.lookups[entry.lookup].user == user
    case Joins(id) => id < |w.lookups| && w.lookups[id].user == user
    case Asks => true
  }

  /** A run, and a question. */
  datatype Question = Question(clock: int, steps: seq<Step>, session: string, user: string) {
    predicate Happens(names: iset<string>, config: Config) {
      Runs(Start(clock), steps, config) && AllNamedBy(steps, names) && user in names
    }

    predicate IsOwn(names: iset<string>, config: Config)
      requires Happens(names, config)
    {
      AnswersOwn(End(Start(clock), steps, config), session, user)
    }
  }

  ghost predicate AlwaysOwn(names: iset<string>, config: Config) {
    forall q: Question | q.Happens(names, config) :: q.IsOwn(names, config)
  }

  lemma {:induction false} RunKeepsUsers(w: World, steps: seq<Step>, names: iset<string>, config: Config)
    requires Users(w.lookups, names) && Runs(w, steps, config) && AllNamedBy(steps, names)
    ensures Users(End(w, steps, config).lookups, names)
    decreases |steps|
  {
    if steps != [] {
      UsersGrow(w, steps[0], names, config);
      RunKeepsUsers(Next(w, steps[0], config), steps[1..], names, config);
    }
  }

  lemma OwnAnswer(q: Question, names: iset<string>, config: Config)
    requires q.Happens(names, config) && Apart(names)
    ensures q.IsOwn(names, config)
  {
    var w := End(Start(q.clock), q.steps, config);
    RunKeepsUsers(Start(q.clock), q.steps, names, config);
    CachedAnswersAreRecent(q.clock, q.steps, q.session, q.user, config);
    match AnswerTo(w, q.session, q.user)
    case Asks =>
    case Cached(entry) => LookupIsOwn(w, entry.lookup, q.session, q.user, names);
    case Joins(id) => LookupIsOwn(w, id, q.session, q.user, names);
  }

  lemma LookupIsOwn(w: World, id: LookupId, session: string, user: string, names: iset<string>)
    requires Users(w.lookups, names) && id < |w.lookups| && user in names && Apart(names)
    requires w.lookups[id].Key() == KeyOf(session, user)
    ensures w.lookups[id].user == user
  {
    var l := w.lookups[id];
    assert l in w.lookups;
    SharedKeyEndsOne(l.session, l.user, session, user);
  }

  lemma OthersAnswer(u: string, v: string, names: iset<string>, config: Config) returns (q: Question)
    requires u in names && v in names && EndsWith(u, ":" + v)
    ensures q.Happens(names, config) && !q.IsOwn(names, config)
  {
    var p := NamesMeet(u, v);
    q := Question(0, [Ask("", u)], ":" + p, v);
    FirstAsks(u, config);
    RunsOn(Start(0), Ask("", u), [], config);
    assert AnswerTo(Asked(u), ":" + p, v) == Joins(0);
  }

  /** Every answer, from the cache or from a lookup joined, is a lookup's for that very user, over all runs
      with these names, exactly when no name ends in a colon and another. */
  lemma OwnExactly(names: iset<string>, config: Config)
    ensures AlwaysOwn(names, config) <==> Apart(names)
  {
    if Apart(names) {
      forall q: Question | q.Happens(names, config) ensures q.IsOwn(names, config) {
        OwnAnswer(q, names, config);
      }
    } else {
      var u, v :| u in names && v in names && EndsWith(u, ":" + v);
      var q := OthersAnswer(u, v, names, config);
    }
  }

  // ----- the index

  ghost predicate AlwaysIndexed(names: iset<string>, config: Config) {
    forall clock: int, steps | Runs(Start(clock), steps, config) && AllNamedBy(steps, names) ::
      Indexed(End(Start(clock), steps, config).cache)
  }

  function SecondAsked(u: string, p: string, v: string, config: Config): World {
    var over := Over(u, config);
    World(over.cache.(inflight := map[KeyOf("", u) := 1]), over.lookups + [Lookup(":" + p, v, Running)], config.ttl)
  }

  lemma SecondAsks(u: string, p: string, v: string, config: Config)
    requires KeyOf("", u) == KeyOf(":" + p, v) && config.ttl > 0
    ensures Next(Next(Over(u, config), Tick(config.ttl), config), Ask(":" + p, v), config) == SecondAsked(u, p, v, config)
  {}

  lemma SecondMisfiles(u: string, p: string, v: string, config: Config)
    requires KeyOf("", u) == KeyOf(":" + p, v) && IdOf(u) != IdOf(v) && config.ttl > 0 && config.max > 1
    ensures Enabled(SecondAsked(u, p, v, config), Succeed(1, Inactive))
    ensures !Indexed(Next(SecondAsked(u, p, v, config), Succeed(1, Inactive), config).cache)
  {
    var w := SecondAsked(u, p, v, config);
    var key := KeyOf("", u);
    var entry := EntryOf(v, Inactive, 1, config, w.clock);
    assert w.cache.entries.Keys == {key} && |w.cache.entries| == |w.cache.entries.Keys| == 1;
    assert Evict(w.cache, config, w.clock) == w.cache;
    var after := Next(w, Succeed(1, Inactive), config).cache;
    assert after == Put(w.cache, key, entry);
    assert IdOf(u) in after.keysByUser && key in after.keysByUser[IdOf(u)] && after.entries[key].user == IdOf(v);
  }

  lemma MisfilingRun(u: string, v: string, names: iset<string>, config: Config) returns (steps: seq<Step>)
    requires u in names && v in names && EndsWith(u, ":" + v) && config.ttl > 0 && config.max > 1
    ensures Runs(Start(0), steps, config) && AllNamedBy(steps, names)
    ensures !Indexed(End(Start(0), steps, config).cache)
  {
    var p := NamesMeet(u, v);
    FirstAsks(u, config);
    FirstIsTold(u, config);
    FirstEnds(u, config);
    SecondAsks(u, p, v, config);
    SecondMisfiles(u, p, v, config);
    var last := [Succeed(1, Inactive)];
    var asks := [Ask(":" + p, v)] + last;
    var waits := [Tick(config.ttl)] + asks;
    RunsOn(SecondAsked(u, p, v, config), Succeed(1, Inactive), [], config);
    RunsOn(Next(Over(u, config), Tick(config.ttl), config), Ask(":" + p, v), last, config);
    RunsOn(Over(u, config), Tick(config.ttl), asks, config);
    RunsOn(Told(u, config), Finish(0), waits, config);
    RunsOn(Asked(u), Succeed(0, Inactive), [Finish(0)] + waits, config);
    RunsOn(Start(0), Ask("", u), [Succeed(0, Inactive)] + ([Finish(0)] + waits), config);
    steps := [Ask("", u)] + ([Succeed(0, Inactive)] + ([Finish(0)] + waits));
  }

  /** The index groups the cache by user, over all runs with these names, exactly when nothing is kept, or one
      entry at most, or no name ends in a colon and another. */
  lemma IndexedExactly(names: iset<string>, config: Config)
    ensures AlwaysIndexed(names, config) <==> NeverMeet(names, config)
  {
    if NeverMeet(names, config) {
      forall clock: int, steps | Runs(Start(clock), steps, config) && AllNamedBy(steps, names)
        ensures Indexed(End(Start(clock), steps, config).cache)
      {
        StartNamed(clock, names, config);
        RunKeepsNamed(Start(clock), steps, names, config);
      }
    } else {
      var u, v :| u in names && v in names && EndsWith(u, ":" + v);
      var steps := MisfilingRun(u, v, names, config);
    }
  }

  // ----- the bound

  ghost predicate AlwaysBounded(config: Config) {
    forall clock: int, steps | Runs(Start(clock), steps, config) :: |End(Start(clock), steps, config).cache.entries| <= config.max
  }

  /** A cache told to hold none holds one. */
  lemma HoldsOne(u: string, config: Config)
    requires config.ttl > 0
    ensures Runs(Start(0), FirstRun(u), config) && |End(Start(0), FirstRun(u), config).cache.entries| == 1
  {
    FirstRunEnds(u, config);
    var entries := Over(u, config).cache.entries;
    assert entries.Keys == {KeyOf("", u)} && |entries| == |entries.Keys|;
  }

  /** The cache never exceeds `max` in any run, whatever the names, exactly when `max` is at least one, or
      nothing is kept and it is zero. */
  lemma BoundedExactly(config: Config)
    ensures AlwaysBounded(config) <==> config.max >= 1 || (config.ttl <= 0 && config.max == 0)
  {
    if config.max >= 1 || (config.ttl <= 0 && config.max == 0) {
      forall clock: int, steps | Runs(Start(clock), steps, config)
        ensures |End(Start(clock), steps, config).cache.entries| <= config.max
      {
        assert |EMPTY.entries| == 0;
        RunKeeps(Start(clock), steps, config);
      }
    } else if config.ttl > 0 {
      HoldsOne("", config);
    } else {
      assert Runs(Start(0), [], config) && |End(Start(0), [], config).cache.entries| == 0;
    }
  }
}
