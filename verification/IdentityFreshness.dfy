/** The identity cache over all runs: lookups start, answer, fail and end in any order while users are
    invalidated and time passes. What an answer may then be. */
module IdentityFreshness {
  import opened IdentityCache

  datatype Progress = Running | Answered(value: Introspection, at: int) | Failed

  /** One call to the User Service; its identity is its place in the order the calls began. */
  datatype Lookup = Lookup(session: string, user: string, progress: Progress) {
    function Key(): IdentityCache.Key { KeyOf(session, user) }
  }

  datatype World = World(cache: Cache, lookups: seq<Lookup>, clock: int)

  datatype Step =
    | Ask(session: string, user: string)
    | Succeed(lookup: LookupId, value: Introspection)
    | Fail(lookup: LookupId)
    | Finish(lookup: LookupId)
    | Forget(user: string)
    | Tick(time: nat)

  predicate Enabled(w: World, step: Step) {
    match step
    case Succeed(id, _) => id < |w.lookups| && w.lookups[id].progress.Running?
    case Fail(id) => id < |w.lookups| && w.lookups[id].progress.Running?
    case Finish(id) => id < |w.lookups| && !w.lookups[id].progress.Running?
    case _ => true
  }

  function AnswerTo(w: World, session: string, user: string): Answer {
    Introspect(w.cache, KeyOf(session, user), w.clock)
  }

  function Next(w: World, step: Step, config: Config): World
    requires Enabled(w, step)
  {
    match step
    case Ask(session, user) =>
      if AnswerTo(w, session, user).Asks? then
        w.(cache := w.cache.(inflight := w.cache.inflight[KeyOf(session, user) := |w.lookups|]),
           lookups := w.lookups + [Lookup(session, user, Running)])
      else w
    case Succeed(id, value) =>
      var l := w.lookups[id];
      w.(cache := Succeeded(w.cache, l.Key(), l.user, value, id, config, w.clock),
         lookups := w.lookups[id := l.(progress := Answered(value, w.clock))])
    case Fail(id) => w.(lookups := w.lookups[id := w.lookups[id].(progress := Failed)])
    case Finish(id) => w.(cache := Ended(w.cache, w.lookups[id].Key(), id))
    case Forget(user) => w.(cache := Invalidate(w.cache, IdOf(user)))
    case Tick(time) => w.(clock := w.clock + time)
  }

  predicate Runs(w: World, steps: seq<Step>, config: Config)
    decreases |steps|
  {
    steps == [] || (Enabled(w, steps[0]) && Runs(Next(w, steps[0], config), steps[1..], config))
  }

  function End(w: World, steps: seq<Step>, config: Config): World
    requires Runs(w, steps, config)
    decreases |steps|
  {
    if steps == [] then w else End(Next(w, steps[0], config), steps[1..], config)
  }

  const EMPTY := Cache([], map[], map[], map[])

  function Start(clock: int): World { World(EMPTY, [], clock) }

  // ----- keys and users

  /** No name ends in a colon and another name; so no key can be read as two users'. */
  ghost predicate Apart(names: iset<string>) { forall u, v | u in names && v in names :: !EndsWith(u, ":" + v) }

  predicate NamedBy(step: Step, names: iset<string>) {
    match step
    case Ask(_, user) => user in names
    case Forget(user) => user in names
    case _ => true
  }

  predicate AllNamedBy(steps: seq<Step>, names: iset<string>) { forall s <- steps :: NamedBy(s, names) }

  lemma KeyEndsWithUser(session: string, user: string)
    ensures EndsWith(KeyOf(session, user).text, ":" + user)
    ensures Detaches(KeyOf(session, user), IdOf(user))
  {
    var text := session + ":" + user;
    assert text[|session|..] == ":" + user;
    assert Lower(text)[|session|..] == ":" + Lower(user);
  }

  /** Of two endings of one text the shorter ends the longer. */
  lemma ShorterEndsLonger(text: string, a: string, b: string)
    requires EndsWith(text, a) && EndsWith(text, b) && |a| <= |b|
    ensures EndsWith(b, a)
  {
    assert text[|text| - |b|..][|b| - |a|..] == text[|text| - |a|..];
  }

  /** A key of two names ends the longer of them with a colon and the other. */
  lemma SharedKeyEndsOne(s: string, u: string, t: string, v: string)
    requires KeyOf(s, u) == KeyOf(t, v)
    ensures u == v || EndsWith(u, ":" + v) || EndsWith(v, ":" + u)
  {
    KeyEndsWithUser(s, u);
    KeyEndsWithUser(t, v);
    var text := KeyOf(s, u).text;
    if |u| == |v| {
      ShorterEndsLonger(text, ":" + u, ":" + v);
      assert (":" + v)[1..] == v && (":" + u)[1..] == u;
    } else if |u| < |v| {
      LongerEnds(text, u, v);
    } else {
      LongerEnds(text, v, u);
    }
  }

  lemma LongerEnds(text: string, a: string, b: string)
    requires EndsWith(text, ":" + a) && EndsWith(text, ":" + b) && |a| < |b|
    ensures EndsWith(b, ":" + a)
  {
    ShorterEndsLonger(text, ":" + a, ":" + b);
    assert (":" + b)[|b| - |a|..] == b[|b| - |a| - 1..];
  }

  // ----- what holds in every run, whatever the names

  /** Each lookup in flight is a lookup of its key. */
  predicate InFlight(inflight: map<Key, LookupId>, lookups: seq<Lookup>) {
    forall key <- inflight :: inflight[key] < |lookups| && lookups[inflight[key]].Key() == key
  }

  /** The entry is the answer of a lookup of its key and user, which ended `ttl` before it expires. */
  predicate Genuine(key: Key, entry: Entry, lookups: seq<Lookup>, clock: int, config: Config) {
    && entry.lookup < |lookups|
    && lookups[entry.lookup].Key() == key && IdOf(lookups[entry.lookup].user) == entry.user
    && lookups[entry.lookup].progress == Answered(entry.value, entry.expiresAt - config.ttl)
    && entry.expiresAt - config.ttl <= clock
  }

  predicate AllGenuine(entries: Entries, lookups: seq<Lookup>, clock: int, config: Config) {
    forall key <- entries :: Genuine(key, entries[key], lookups, clock, config)
  }

  ghost predicate Fits(c: Cache, config: Config) {
    && Listed(c.order, c.entries) && |c.entries| <= MaxSize(config)
    && (config.ttl <= 0 ==> c.entries == map[])
  }

  ghost predicate Inv(w: World, config: Config) {
    Fits(w.cache, config) && InFlight(w.cache.inflight, w.lookups) && AllGenuine(w.cache.entries, w.lookups, w.clock, config)
  }

  /** Lookups begin, and running ones end; nothing else about them changes. */
  predicate Grows(before: seq<Lookup>, after: seq<Lookup>) {
    && |before| <= |after|
    && (forall i | 0 <= i < |before| :: before[i].Key() == after[i].Key() && before[i].user == after[i].user)
    && (forall i | 0 <= i < |before| :: before[i].progress.Running? || before[i] == after[i])
  }

  lemma GenuineSurvives(entries: Entries, before: seq<Lookup>, after: seq<Lookup>, clock: int, later: int, config: Config)
    requires AllGenuine(entries, before, clock, config) && Grows(before, after) && clock <= later
    ensures AllGenuine(entries, after, later, config)
  {}

  lemma LookupsGrow(w: World, step: Step, config: Config)
    requires Enabled(w, step)
    ensures var after := Next(w, step, config);
            Grows(w.lookups, after.lookups) && w.clock <= after.clock
    ensures InFlight(w.cache.inflight, w.lookups) ==> InFlight(w.cache.inflight, Next(w, step, config).lookups)
  {}

  function EntryFor(w: World, id: LookupId, value: Introspection, config: Config): Entry
    requires id < |w.lookups|
  {
    EntryOf(w.lookups[id].user, value, id, config, w.clock)
  }

  lemma TookKeepsGenuine(c: Cache, after: Cache, key: Key, entry: Entry, lookups: seq<Lookup>, clock: int, config: Config)
    requires AllGenuine(c.entries, lookups, clock, config) && Genuine(key, entry, lookups, clock, config)
    requires Took(c, after, key, entry)
    ensures AllGenuine(after.entries, lookups, clock, config)
  {}

  lemma SucceedTakes(w: World, id: LookupId, value: Introspection, config: Config)
    requires Fits(w.cache, config) && id < |w.lookups|
    ensures var l := w.lookups[id];
            var after := Succeeded(w.cache, l.Key(), l.user, value, id, config, w.clock);
            && Fits(after, config) && Took(w.cache, after, l.Key(), EntryFor(w, id, value, config))
            && (!IsCurrent(w.cache, l.Key(), id) ==> after == w.cache)
  {
    SucceededKeeps(w.cache, w.lookups[id].Key(), w.lookups[id].user, value, id, config, w.clock);
  }

  lemma SucceedKeeps(w: World, id: LookupId, value: Introspection, config: Config)
    requires Inv(w, config) && Enabled(w, Succeed(id, value))
    ensures Inv(Next(w, Succeed(id, value), config), config)
  {
    var after := Next(w, Succeed(id, value), config);
    LookupsGrow(w, Succeed(id, value), config);
    GenuineSurvives(w.cache.entries, w.lookups, after.lookups, w.clock, w.clock, config);
    SucceedTakes(w, id, value, config);
    TookKeepsGenuine(w.cache, after.cache, w.lookups[id].Key(), EntryFor(w, id, value, config),
                     after.lookups, w.clock, config);
  }

  /** Fewer entries and fewer lookups in flight are as good as those there were. */
  lemma TrimmedKeeps(w: World, after: Cache, config: Config)
    requires Inv(w, config) && Listed(after.order, after.entries) && Pruned(w.cache.entries, after.entries)
    requires |after.entries| <= |w.cache.entries|
    requires forall key <- after.inflight :: key in w.cache.inflight && after.inflight[key] == w.cache.inflight[key]
    ensures Inv(w.(cache := after), config)
  {
    if config.ttl <= 0 {
      assert forall key :: key !in after.entries;
      assert after.entries == map[];
    }
  }

  lemma ForgetKeeps(w: World, user: string, config: Config)
    requires Inv(w, config)
    ensures Inv(Next(w, Forget(user), config), config)
  {
    var after := Invalidate(w.cache, IdOf(user));
    InvalidateTrims(w.cache, IdOf(user));
    TrimmedKeeps(w, after, config);
    assert Next(w, Forget(user), config) == w.(cache := after);
  }

  /** The other steps leave the entries alone. */
  lemma OthersKeep(w: World, step: Step, config: Config)
    requires Inv(w, config) && Enabled(w, step) && !step.Succeed? && !step.Forget?
    ensures Inv(Next(w, step, config), config)
  {
    var after := Next(w, step, config);
    LookupsGrow(w, step, config);
    GenuineSurvives(w.cache.entries, w.lookups, after.lookups, w.clock, after.clock, config);
    assert after.cache == w.cache.(inflight := after.cache.inflight);
  }

  lemma StepKeeps(w: World, step: Step, config: Config)
    requires Inv(w, config) && Enabled(w, step)
    ensures Inv(Next(w, step, config), config)
  {
    if step.Succeed? {
      SucceedKeeps(w, step.lookup, step.value, config);
    } else if step.Forget? {
      ForgetKeeps(w, step.user, config);
    } else {
      OthersKeep(w, step, config);
    }
  }

  lemma {:induction false} RunKeeps(w: World, steps: seq<Step>, config: Config)
    requires Inv(w, config) && Runs(w, steps, config)
    ensures Inv(End(w, steps, config), config)
    decreases |steps|
  {
    if steps != [] {
      StepKeeps(w, steps[0], config);
      RunKeeps(Next(w, steps[0], config), steps[1..], config);
    }
  }

  /** Whatever the names: an answer from the cache at time t is what a lookup of that very key answered, less
      than `ttl` before t, never a failure; and a joined lookup is one of that key. */
  lemma CachedAnswersAreRecent(clock: int, steps: seq<Step>, session: string, user: string, config: Config)
    requires Runs(Start(clock), steps, config)
    ensures var w := End(Start(clock), steps, config);
            match AnswerTo(w, session, user)
            case Cached(entry) =>
              && entry.lookup < |w.lookups| && w.lookups[entry.lookup].Key() == KeyOf(session, user)
              && w.lookups[entry.lookup].progress.Answered?
              && w.lookups[entry.lookup].progress.value == entry.value
              && w.lookups[entry.lookup].progress.at <= w.clock < w.lookups[entry.lookup].progress.at + config.ttl
            case Joins(id) => id < |w.lookups| && w.lookups[id].Key() == KeyOf(session, user)
            case Asks => true
  {
    RunKeeps(Start(clock), steps, config);
  }

  // ----- what holds in runs with these names

  predicate Users(lookups: seq<Lookup>, names: iset<string>) { forall l <- lookups :: l.user in names }

  lemma UsersGrow(w: World, step: Step, names: iset<string>, config: Config)
    requires Enabled(w, step) && Users(w.lookups, names) && NamedBy(step, names)
    ensures Users(Next(w, step, config).lookups, names)
  {
    match step
    case Succeed(id, _) => assert w.lookups[id] in w.lookups;
    case Fail(id) => assert w.lookups[id] in w.lookups;
    case _ =>
  }

  /** Answers of two users never meet under one key: nothing is kept, or one entry at most, or no key is
      two users'. */
  ghost predicate NeverMeet(names: iset<string>, config: Config) { config.ttl <= 0 || config.max <= 1 || Apart(names) }

  ghost predicate NamedInv(w: World, names: iset<string>, config: Config) {
    Inv(w, config) && Users(w.lookups, names) && Grouped(w.cache.entries, w.cache.keysByUser)
  }

  /** Only one user's entries are ever under a key. */
  lemma SameUser(entries: Entries, lookups: seq<Lookup>, clock: int, session: string, user: string,
                 names: iset<string>, config: Config)
    requires AllGenuine(entries, lookups, clock, config) && Users(lookups, names) && Apart(names) && user in names
    requires KeyOf(session, user) in entries
    ensures entries[KeyOf(session, user)].user == IdOf(user)
    ensures lookups[entries[KeyOf(session, user)].lookup].user == user
  {
    var other := lookups[entries[KeyOf(session, user)].lookup];
    assert other in lookups;
    SharedKeyEndsOne(session, user, other.session, other.user);
  }

  lemma StepKeepsNamed(w: World, step: Step, names: iset<string>, config: Config)
    requires NamedInv(w, names, config) && NeverMeet(names, config) && Enabled(w, step) && NamedBy(step, names)
    ensures NamedInv(Next(w, step, config), names, config)
  {
    StepKeeps(w, step, config);
    UsersGrow(w, step, names, config);
    if step.Succeed? {
      var l := w.lookups[step.lookup];
      assert l in w.lookups;
      if Apart(names) && l.Key() in w.cache.entries {
        SameUser(w.cache.entries, w.lookups, w.clock, l.session, l.user, names, config);
      }
      SucceededGroups(w.cache, l.Key(), l.user, step.value, step.lookup, config, w.clock);
    } else if step.Forget? {
      InvalidateGroups(w.cache.entries, w.cache.keysByUser, IdOf(step.user));
    }
  }

  lemma {:induction false} RunKeepsNamed(w: World, steps: seq<Step>, names: iset<string>, config: Config)
    requires NamedInv(w, names, config) && NeverMeet(names, config) && Runs(w, steps, config) && AllNamedBy(steps, names)
    ensures NamedInv(End(w, steps, config), names, config)
    decreases |steps|
  {
    if steps != [] {
      StepKeepsNamed(w, steps[0], names, config);
      RunKeepsNamed(Next(w, steps[0], config), steps[1..], names, config);
    }
  }

  // ----- freshness

  /** Nothing kept or in flight for `user` began before lookup number `floor`. */
  predicate Since(c: Cache, user: UserId, floor: nat) {
    && (forall key <- c.entries :: c.entries[key].user == user ==> c.entries[key].lookup >= floor)
    && (forall key <- c.inflight :: Detaches(key, user) ==> c.inflight[key] >= floor)
  }

  lemma TookKeepsSince(c: Cache, after: Cache, key: Key, entry: Entry, user: UserId, floor: nat)
    requires Since(c, user, floor) && Took(c, after, key, entry)
    requires entry.user == user ==> entry.lookup >= floor
    ensures Since(after, user, floor)
  {}

  lemma SucceedKeepsSince(w: World, id: LookupId, value: Introspection, user: UserId, floor: nat, config: Config)
    requires Inv(w, config) && Enabled(w, Succeed(id, value)) && Since(w.cache, user, floor)
    ensures Since(Next(w, Succeed(id, value), config).cache, user, floor)
  {
    var l := w.lookups[id];
    SucceedTakes(w, id, value, config);
    if IsCurrent(w.cache, l.Key(), id) {
      KeyEndsWithUser(l.session, l.user);
      TookKeepsSince(w.cache, Next(w, Succeed(id, value), config).cache, l.Key(), EntryFor(w, id, value, config),
                     user, floor);
    }
  }

  lemma StepKeepsSince(w: World, step: Step, user: UserId, floor: nat, config: Config)
    requires Inv(w, config) && Enabled(w, step) && Since(w.cache, user, floor) && floor <= |w.lookups|
    ensures Since(Next(w, step, config).cache, user, floor) && floor <= |Next(w, step, config).lookups|
  {
    if step.Succeed? {
      SucceedKeepsSince(w, step.lookup, step.value, user, floor, config);
    } else if step.Forget? {
      InvalidateTrims(w.cache, IdOf(step.user));
    }
  }

  lemma {:induction false} RunKeepsSince(w: World, steps: seq<Step>, user: UserId, floor: nat, config: Config)
    requires Inv(w, config) && Runs(w, steps, config) && Since(w.cache, user, floor) && floor <= |w.lookups|
    ensures Since(End(w, steps, config).cache, user, floor) && floor <= |End(w, steps, config).lookups|
    decreases |steps|
  {
    if steps != [] {
      StepKeeps(w, steps[0], config);
      StepKeepsSince(w, steps[0], user, floor, config);
      RunKeepsSince(Next(w, steps[0], config), steps[1..], user, floor, config);
    }
  }

  /** The lookup whose outcome the caller receives. */
  function LookupOf(w: World, answer: Answer): LookupId {
    match answer
    case Cached(entry) => entry.lookup
    case Joins(lookup) => lookup
    case Asks => |w.lookups|
  }

  lemma SinceAnswers(w: World, floor: nat, session: string, user: string, names: iset<string>, config: Config)
    requires Inv(w, config) && Users(w.lookups, names) && user in names && (config.ttl <= 0 || Apart(names))
    requires Since(w.cache, IdOf(user), floor) && floor <= |w.lookups|
    ensures LookupOf(w, AnswerTo(w, session, user)) >= floor
  {
    KeyEndsWithUser(session, user);
    if KeyOf(session, user) in w.cache.entries {
      SameUser(w.cache.entries, w.lookups, w.clock, session, user, names, config);
    }
  }

  lemma InvalidatedSince(c: Cache, id: UserId, floor: nat)
    requires Indexed(c)
    ensures Since(Invalidate(c, id), id, floor)
  {
    InvalidateScans(c, id);
    var after := Invalidate(c, id);
    forall key | key in after.entries ensures after.entries[key].user != id {}
    forall key | key in after.inflight ensures !Detaches(key, id) {}
  }

  lemma ForgetSince(w: World, name: string, config: Config)
    requires Fits(w.cache, config) && Grouped(w.cache.entries, w.cache.keysByUser)
    ensures Since(Next(w, Forget(name), config).cache, IdOf(name), |w.lookups|)
  {
    InvalidatedSince(w.cache, IdOf(name), |w.lookups|);
  }

  /** From any state a run reaches: a question about a user asked after that user was invalidated is
      answered by a lookup that began after the invalidation. */
  lemma FreshFrom(w: World, name: string, since: seq<Step>, session: string, user: string, names: iset<string>, config: Config)
    requires NamedInv(w, names, config) && (config.ttl <= 0 || Apart(names))
    requires Runs(Next(w, Forget(name), config), since, config) && AllNamedBy(since, names)
    requires name in names && user in names && IdOf(user) == IdOf(name)
    ensures var later := End(Next(w, Forget(name), config), since, config);
            LookupOf(later, AnswerTo(later, session, user)) >= |w.lookups|
  {
    var dropped := Next(w, Forget(name), config);
    StepKeepsNamed(w, Forget(name), names, config);
    ForgetSince(w, name, config);
    RunKeepsSince(dropped, since, IdOf(name), |w.lookups|, config);
    RunKeepsNamed(dropped, since, names, config);
    SinceAnswers(End(dropped, since, config), |w.lookups|, session, user, names, config);
  }

  /** One run, an invalidation, whatever follows it, and a question about the user invalidated. */
  datatype Story = Story(clock: int, before: seq<Step>, name: string, since: seq<Step>, session: string, user: string) {
    predicate Happens(names: iset<string>, config: Config) {
      && Runs(Start(clock), before, config) && AllNamedBy(before, names) && AllNamedBy(since, names)
      && name in names && user in names && IdOf(user) == IdOf(name)
      && Runs(Next(End(Start(clock), before, config), Forget(name), config), since, config)
    }

    predicate IsFresh(names: iset<string>, config: Config)
      requires Happens(names, config)
    {
      var w := End(Start(clock), before, config);
      var later := End(Next(w, Forget(name), config), since, config);
      LookupOf(later, AnswerTo(later, session, user)) >= |w.lookups|
    }
  }

  ghost predicate AlwaysFresh(names: iset<string>, config: Config) {
    forall story: Story | story.Happens(names, config) :: story.IsFresh(names, config)
  }

  lemma StartNamed(clock: int, names: iset<string>, config: Config)
    ensures NamedInv(Start(clock), names, config)
  {
    assert |EMPTY.entries| == 0;
  }

  /** Over all interleavings of lookups answering, failing, ending and being detached. */
  lemma FreshAfterInvalidation(story: Story, names: iset<string>, config: Config)
    requires story.Happens(names, config) && (config.ttl <= 0 || Apart(names))
    ensures story.IsFresh(names, config)
  {
    StartNamed(story.clock, names, config);
    RunKeepsNamed(Start(story.clock), story.before, names, config);
    FreshFrom(End(Start(story.clock), story.before, config), story.name, story.since, story.session, story.user, names, config);
  }
}
