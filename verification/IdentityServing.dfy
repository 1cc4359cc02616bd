/** What the identity cache keeps: exactly which entries make way for a new answer, and over all runs, how
    long an answer is served and a lookup shared. */
module IdentityServing {
  import opened Sets
  import opened IdentityCache
  import opened IdentityFreshness

  // ----- one answer

  predicate IsLive(c: Cache, key: Key, now: int) { key in c.entries && c.entries[key].expiresAt > now }

  function Live(c: Cache, now: int): set<Key> { set key <- c.entries | IsLive(c, key, now) }

  function Stale(c: Cache, now: int): set<Key> { set key <- c.entries | !IsLive(c, key, now) }

  /** The first in iteration order of those still live. */
  predicate IsFirstLive(c: Cache, key: Key, now: int) {
    exists i :: 0 <= i < |c.order| && c.order[i] == key && IsLive(c, key, now)
      && forall j | 0 <= j < i :: !IsLive(c, c.order[j], now)
  }

  /** A full cache makes way by all that has expired, and if as many as it may hold are live, by the first. */
  predicate MakesWay(c: Cache, key: Key, config: Config, now: int) {
    && |c.entries| >= config.max
    && (!IsLive(c, key, now) || (|Live(c, now)| >= config.max && IsFirstLive(c, key, now)))
  }

  function ExpiredAmong(entries: Entries, keys: seq<Key>, now: int): set<Key> { set k <- keys | Expired(entries, k, now) }

  lemma ExpiredAmongRest(c: Cache, keys: seq<Key>, now: int)
    requires keys != []
    ensures var next := if Expired(c.entries, keys[0], now) then IdentityCache.Forget(c, keys[0]) else c;
            var rest := ExpiredAmong(next.entries, keys[1..], now);
            ExpiredAmong(c.entries, keys, now) == rest + if Expired(c.entries, keys[0], now) then {keys[0]} else {}
  {
    assert keys == [keys[0]] + keys[1..];
  }

  lemma {:induction false} DropExpiredIs(c: Cache, keys: seq<Key>, now: int)
    ensures var after := DropExpired(c, keys, now);
            var gone := ExpiredAmong(c.entries, keys, now);
            after.entries == c.entries - gone && after.order == Without(c.order, gone)
    decreases |keys|
  {
    if keys == [] {
      WithoutNone(c.order);
      assert ExpiredAmong(c.entries, keys, now) == {};
    } else if Expired(c.entries, keys[0], now) {
      var next := IdentityCache.Forget(c, keys[0]);
      var rest := ExpiredAmong(next.entries, keys[1..], now);
      ExpiredAmongRest(c, keys, now);
      DropExpiredIs(next, keys[1..], now);
      WithoutTwice(c.order, {keys[0]}, rest);
      assert {keys[0]} + rest == rest + {keys[0]};
    } else {
      ExpiredAmongRest(c, keys, now);
      DropExpiredIs(c, keys[1..], now);
      assert ExpiredAmong(c.entries, keys, now) == ExpiredAmong(c.entries, keys[1..], now);
    }
  }

  lemma {:induction false} FirstWithout(s: seq<Key>, gone: set<Key>) returns (i: nat)
    requires Without(s, gone) != []
    ensures i < |s| && s[i] == Without(s, gone)[0] && s[i] !in gone && forall j | 0 <= j < i :: s[j] in gone
  {
    if s[0] in gone {
      var rest := FirstWithout(s[1..], gone);
      i := rest + 1;
    } else {
      i := 0;
    }
  }

  lemma DroppedAre(c: Cache, now: int)
    requires Listed(c.order, c.entries)
    ensures var after := DropExpired(c, c.order, now);
            && after.entries == c.entries - Stale(c, now) && after.order == Without(c.order, Stale(c, now))
            && after.entries.Keys == Live(c, now) && |after.entries| == |Live(c, now)|
  {
    DropExpiredIs(c, c.order, now);
    assert ExpiredAmong(c.entries, c.order, now) == Stale(c, now);
    var after := DropExpired(c, c.order, now);
    assert after.entries.Keys == Live(c, now) && |after.entries| == |after.entries.Keys|;
  }

  lemma FirstLiveIsUnique(c: Cache, a: Key, b: Key, now: int)
    requires IsFirstLive(c, a, now) && IsFirstLive(c, b, now)
    ensures a == b
  {}

  /** What goes when the expired ones are not enough is the first of the live. */
  lemma FirstLeft(c: Cache, now: int)
    requires Listed(c.order, c.entries)
    ensures var dropped := DropExpired(c, c.order, now);
            if dropped.order == [] then Live(c, now) == {}
            else IsFirstLive(c, dropped.order[0], now)
  {
    DroppedAre(c, now);
    var dropped := DropExpired(c, c.order, now);
    if dropped.order == [] {
      assert forall k :: k in Live(c, now) ==> k in c.order && k !in Stale(c, now) && k in dropped.order;
    } else {
      var i := FirstWithout(c.order, Stale(c, now));
      assert c.order[i] in c.order && forall j | 0 <= j < i :: !IsLive(c, c.order[j], now);
    }
  }

  /** The entries a full cache keeps: those still live, less the first if there are too many. */
  ghost predicate KeepsLive(c: Cache, kept: Entries, config: Config, now: int) {
    if |Live(c, now)| >= config.max && Live(c, now) != {} then
      exists first :: IsFirstLive(c, first, now) && kept == c.entries - Stale(c, now) - {first}
    else kept == c.entries - Stale(c, now)
  }

  lemma EvictKeeps(c: Cache, config: Config, now: int)
    requires Listed(c.order, c.entries)
    ensures var kept := Evict(c, config, now).entries;
            if |c.entries| >= config.max then KeepsLive(c, kept, config, now) else kept == c.entries
  {
    if |c.entries| >= config.max {
      DroppedAre(c, now);
      FirstLeft(c, now);
      var dropped := DropExpired(c, c.order, now);
      if dropped.order == [] {
        assert Evict(c, config, now) == dropped;
      } else {
        assert dropped.order[0] in dropped.entries;
        assert IdentityCache.Forget(dropped, dropped.order[0]).entries == dropped.entries - {dropped.order[0]};
      }
    }
  }

  lemma LosesExactly(c: Cache, kept: Entries, config: Config, now: int, key: Key)
    requires key in c.entries && |c.entries| >= config.max && KeepsLive(c, kept, config, now)
    ensures (key !in kept <==> MakesWay(c, key, config, now)) && (key in kept ==> kept[key] == c.entries[key])
  {
    if |Live(c, now)| >= config.max && Live(c, now) != {} {
      var first :| IsFirstLive(c, first, now) && kept == c.entries - Stale(c, now) - {first};
      if IsFirstLive(c, key, now) {
        FirstLiveIsUnique(c, first, key, now);
      }
    } else {
      assert IsLive(c, key, now) ==> key in Live(c, now);
    }
  }

  /** Eviction loses exactly what is to make way. */
  lemma EvictLosesExactly(c: Cache, config: Config, now: int, key: Key)
    requires Listed(c.order, c.entries) && key in c.entries
    ensures var kept := Evict(c, config, now).entries;
            (key !in kept <==> MakesWay(c, key, config, now)) && (key in kept ==> kept[key] == c.entries[key])
  {
    EvictKeeps(c, config, now);
    if |c.entries| >= config.max {
      LosesExactly(c, Evict(c, config, now).entries, config, now, key);
    }
  }

  /** A new answer is there to be served, and of the other entries it costs exactly those that make way: no
      live one while fewer are live than the cache may hold, and otherwise only the first in order. */
  lemma RememberLosesExactly(c: Cache, key: Key, entry: Entry, config: Config, now: int, other: Key)
    requires Listed(c.order, c.entries) && config.ttl > 0 && other in c.entries && other != key
    ensures var after := Remember(c, key, entry, config, now);
            && key in after.entries && after.entries[key] == entry
            && (other !in after.entries <==> MakesWay(c, other, config, now))
            && (other in after.entries ==> after.entries[other] == c.entries[other])
            && (other !in after.entries && IsLive(c, other, now) ==>
                  |Live(c, now)| >= config.max && IsFirstLive(c, other, now))
  {
    EvictLosesExactly(c, config, now, other);
  }

  /** So it costs at most one live entry. */
  lemma RememberLosesOne(c: Cache, key: Key, entry: Entry, config: Config, now: int, a: Key, b: Key)
    requires Listed(c.order, c.entries) && config.ttl > 0 && a != key && b != key
    requires IsLive(c, a, now) && IsLive(c, b, now)
    requires a !in Remember(c, key, entry, config, now).entries && b !in Remember(c, key, entry, config, now).entries
    ensures a == b
  {
    RememberLosesExactly(c, key, entry, config, now, a);
    RememberLosesExactly(c, key, entry, config, now, b);
    FirstLiveIsUnique(c, a, b, now);
  }

  // ----- iteration order

  /** The iteration order goes from the entries that expire first to those that expire last. */
  predicate Aged(order: seq<Key>, entries: Entries) {
    forall i, j | 0 <= i < j < |order| && order[i] in entries && order[j] in entries ::
      entries[order[i]].expiresAt <= entries[order[j]].expiresAt
  }

  /** Every entry that comes after this key expires as late as the new one. */
  predicate LastTo(order: seq<Key>, entries: Entries, key: Key, expiresAt: int) {
    forall i, j | 0 <= i < j < |order| && order[i] == key && order[j] in entries :: entries[order[j]].expiresAt >= expiresAt
  }

  lemma AppendedAges(order: seq<Key>, entries: Entries, key: Key, entry: Entry)
    requires Listed(order, entries) && Aged(order, entries) && key !in entries
    requires forall k <- entries :: entries[k].expiresAt <= entry.expiresAt
    ensures Aged(order + [key], entries[key := entry])
  {
    var after := order + [key];
    forall i | 0 <= i < |order| ensures after[i] in entries && after[i] != key {
      assert order[i] in order;
    }
  }

  lemma RefreshedStaysAged(order: seq<Key>, entries: Entries, key: Key, entry: Entry)
    requires NoRepeats(order) && Aged(order, entries) && key in entries && LastTo(order, entries, key, entry.expiresAt)
    requires forall k <- entries :: entries[k].expiresAt <= entry.expiresAt
    ensures Aged(order, entries[key := entry])
  {
    forall i, j | 0 <= i < j < |order| && order[i] in entries && order[j] in entries
      ensures entries[key := entry][order[i]].expiresAt <= entries[key := entry][order[j]].expiresAt
    {
      assert order[i] != order[j];
    }
  }

  lemma RefreshedAges(order: seq<Key>, entries: Entries, key: Key, entry: Entry)
    requires NoRepeats(order) && Aged(order, entries) && key in entries
    requires forall k <- entries :: entries[k].expiresAt <= entry.expiresAt
    ensures Aged(order, entries[key := entry]) <==> LastTo(order, entries, key, entry.expiresAt)
  {
    if LastTo(order, entries, key, entry.expiresAt) {
      RefreshedStaysAged(order, entries, key, entry);
    } else {
      var i, j :| 0 <= i < j < |order| && order[i] == key && order[j] in entries && entries[order[j]].expiresAt < entry.expiresAt;
      assert order[j] != key && entries[key := entry][order[j]] == entries[order[j]];
    }
  }

  /** A key already there keeps its place, so the order stays one of age exactly when a new answer's key was not
      there, or nothing after it expires sooner. */
  lemma PutAgesExactly(c: Cache, key: Key, entry: Entry)
    requires Listed(c.order, c.entries) && Aged(c.order, c.entries)
    requires forall k <- c.entries :: c.entries[k].expiresAt <= entry.expiresAt
    ensures var after := Put(c, key, entry);
            Aged(after.order, after.entries) <==> key !in c.entries || LastTo(c.order, c.entries, key, entry.expiresAt)
  {
    if key in c.entries {
      RefreshedAges(c.order, c.entries, key, entry);
    } else {
      AppendedAges(c.order, c.entries, key, entry);
    }
  }

  function Answer(expiresAt: int): Entry { Entry(Inactive, expiresAt, UserId(""), 0) }

  const THREE := Config(10, 3)

  /** Three may be held for ten. `a` is asked for at 0 and again at 12 once it has expired, keeping its place;
      `b` at 5 and `c` at 13. */
  function RefreshedFirst(a: Key, b: Key, c: Key): Cache {
    var first := Put(Put(EMPTY, a, Answer(10)), b, Answer(15));
    Put(Put(first, a, Answer(22)), c, Answer(23))
  }

  lemma RefreshedIsRemembered(a: Key, b: Key, c: Key)
    requires a != b && b != c && a != c
    ensures var first := Remember(Remember(EMPTY, a, Answer(10), THREE, 0), b, Answer(15), THREE, 5);
            Remember(Remember(first, a, Answer(22), THREE, 12), c, Answer(23), THREE, 13) == RefreshedFirst(a, b, c)
  {
    var one := Put(EMPTY, a, Answer(10));
    var two := Put(one, b, Answer(15));
    var again := Put(two, a, Answer(22));
    assert |EMPTY.entries| == 0;
    assert one.entries.Keys == {a} && |one.entries| == |one.entries.Keys|;
    assert two.entries.Keys == {a, b} && |two.entries| == |two.entries.Keys|;
    assert again.entries.Keys == {a, b} && |again.entries| == |again.entries.Keys|;
  }

  lemma ThreeKeys(a: Key, b: Key, c: Key)
    requires a != b && b != c && a != c
    ensures |{a, b, c}| == 3
  {
    assert {a, b, c} == {a, b} + {c};
  }

  lemma RefreshedFacts(a: Key, b: Key, c: Key)
    requires a != b && b != c && a != c
    ensures var full := RefreshedFirst(a, b, c);
            full.order == [a, b, c] && full.entries == map[a := Answer(22), b := Answer(15), c := Answer(23)]
  {
    var one := Put(EMPTY, a, Answer(10));
    var two := Put(one, b, Answer(15));
    assert one.order == [a] && one.entries == map[a := Answer(10)];
    assert two.order == [a, b] && two.entries == map[a := Answer(10), b := Answer(15)];
  }

  lemma RefreshedIsFull(full: Cache, a: Key, b: Key, c: Key)
    requires a != b && b != c && a != c && full.order == [a, b, c]
    requires full.entries == map[a := Answer(22), b := Answer(15), c := Answer(23)]
    ensures Listed(full.order, full.entries) && |full.entries| == 3 && |Live(full, 14)| == 3
    ensures IsFirstLive(full, a, 14) && !IsFirstLive(full, b, 14)
  {
    ThreeKeys(a, b, c);
    assert full.entries.Keys == {a, b, c} && |full.entries| == |full.entries.Keys|;
    assert Live(full, 14) == {a, b, c};
    assert full.order[0] == a && IsLive(full, a, 14);
    if IsFirstLive(full, b, 14) {
      FirstLiveIsUnique(full, a, b, 14);
    }
  }

  /** The first in iteration order is not always the oldest: here an answer for a fourth key at 14 costs `a`,
      which would be served until 22, and spares `b`, which expires at 15. */
  lemma YoungerGoesFirst(a: Key, b: Key, c: Key, d: Key)
    requires a != b && b != c && a != c && d !in {a, b, c}
    ensures var full := RefreshedFirst(a, b, c);
            var after := Remember(full, d, Answer(24), THREE, 14).entries;
            a in full.entries && b in full.entries
            && a !in after && b in after && full.entries[a].expiresAt > full.entries[b].expiresAt
  {
    var full := RefreshedFirst(a, b, c);
    RefreshedFacts(a, b, c);
    RefreshedIsFull(full, a, b, c);
    RememberLosesExactly(full, d, Answer(24), THREE, 14, a);
    RememberLosesExactly(full, d, Answer(24), THREE, 14, b);
  }

  // ----- over runs

  /** A key whose current lookup is still running has no live entry. */
  predicate NotYet(w: World) {
    forall key <- w.cache.inflight |
      w.cache.inflight[key] < |w.lookups| && w.lookups[w.cache.inflight[key]].progress.Running? :: !IsLive(w.cache, key, w.clock)
  }

  lemma StepNotYet(w: World, step: Step, config: Config)
    requires Inv(w, config) && NotYet(w) && Enabled(w, step)
    ensures NotYet(Next(w, step, config))
  {
    if step.Succeed? {
      SucceedTakes(w, step.lookup, step.value, config);
    } else if step.Forget? {
      InvalidateTrims(w.cache, IdOf(step.user));
    }
  }

  lemma {:induction false} RunNotYet(w: World, steps: seq<Step>, config: Config)
    requires Inv(w, config) && NotYet(w) && Runs(w, steps, config)
    ensures Inv(End(w, steps, config), config) && NotYet(End(w, steps, config))
    decreases |steps|
  {
    if steps != [] {
      StepKeeps(w, steps[0], config);
      StepNotYet(w, steps[0], config);
      RunNotYet(Next(w, steps[0], config), steps[1..], config);
    }
  }

  /** The keys ever asked for. */
  function Asked(lookups: seq<Lookup>): set<Key> { set l <- lookups :: l.Key() }

  lemma AskedGrows(w: World, step: Step, config: Config)
    requires Enabled(w, step)
    ensures Asked(w.lookups) <= Asked(Next(w, step, config).lookups)
  {
    LookupsGrow(w, step, config);
    var after := Next(w, step, config).lookups;
    forall key | key in Asked(w.lookups) ensures key in Asked(after) {
      var i :| 0 <= i < |w.lookups| && w.lookups[i].Key() == key;
      assert after[i] in after && after[i].Key() == key;
    }
  }

  lemma {:induction false} AskedGrowsThrough(w: World, steps: seq<Step>, config: Config)
    requires Runs(w, steps, config)
    ensures Asked(w.lookups) <= Asked(End(w, steps, config).lookups)
    decreases |steps|
  {
    if steps != [] {
      AskedGrows(w, steps[0], config);
      AskedGrowsThrough(Next(w, steps[0], config), steps[1..], config);
    }
  }

  /** While no more keys were ever asked for than the cache may hold, fewer are live when an answer comes. */
  lemma FewAreLive(w: World, id: LookupId, config: Config)
    requires Inv(w, config) && NotYet(w) && Enabled(w, Succeed(id, Inactive)) && IsCurrent(w.cache, w.lookups[id].Key(), id)
    requires |Asked(w.lookups)| <= config.max
    ensures |Live(w.cache, w.clock)| < config.max
  {
    var key := w.lookups[id].Key();
    assert w.lookups[id] in w.lookups;
    forall k | k in Live(w.cache, w.clock) ensures k in Asked(w.lookups) - {key} {
      assert Genuine(k, w.cache.entries[k], w.lookups, w.clock, config);
      assert w.lookups[w.cache.entries[k].lookup] in w.lookups;
    }
    SubsetIsNoLarger(Live(w.cache, w.clock), Asked(w.lookups) - {key});
    assert key in Asked(w.lookups) && |Asked(w.lookups) - {key}| == |Asked(w.lookups)| - 1;
  }

  /** A live entry stays as it is. */
  lemma EntryStays(w: World, step: Step, key: Key, names: iset<string>, config: Config)
    requires NamedInv(w, names, config) && NotYet(w) && Enabled(w, step) && config.ttl > 0
    requires IsLive(w.cache, key, w.clock) && |Asked(w.lookups)| <= config.max
    requires !(step.Forget? && IdOf(step.user) == w.cache.entries[key].user)
    ensures var after := Next(w, step, config);
            key in after.cache.entries && after.cache.entries[key] == w.cache.entries[key]
  {
    if step.Succeed? {
      var l := w.lookups[step.lookup];
      if IsCurrent(w.cache, l.Key(), step.lookup) {
        FewAreLive(w, step.lookup, config);
        var entry := EntryOf(l.user, step.value, step.lookup, config, w.clock);
        RememberLosesExactly(w.cache, l.Key(), entry, config, w.clock, key);
      }
    } else if step.Forget? {
      assert key !in KeysOf(w.cache.keysByUser, IdOf(step.user));
    }
  }

  predicate Spared(steps: seq<Step>, user: UserId) { forall s <- steps :: !(s.Forget? && IdOf(s.user) == user) }

  lemma {:induction false} EntryStaysThrough(w: World, steps: seq<Step>, key: Key, names: iset<string>, config: Config)
    requires NamedInv(w, names, config) && NeverMeet(names, config) && NotYet(w) && config.ttl > 0
    requires Runs(w, steps, config) && AllNamedBy(steps, names) && key in w.cache.entries
    requires Spared(steps, w.cache.entries[key].user)
    requires |Asked(End(w, steps, config).lookups)| <= config.max && End(w, steps, config).clock < w.cache.entries[key].expiresAt
    ensures var end := End(w, steps, config).cache;
            w.clock <= End(w, steps, config).clock && key in end.entries && end.entries[key] == w.cache.entries[key]
    decreases |steps|
  {
    if steps != [] {
      var next := Next(w, steps[0], config);
      ClockRuns(w, steps, config);
      AskedGrowsThrough(w, steps, config);
      SubsetIsNoLarger(Asked(w.lookups), Asked(End(w, steps, config).lookups));
      EntryStays(w, steps[0], key, names, config);
      StepKeepsNamed(w, steps[0], names, config);
      StepNotYet(w, steps[0], config);
      EntryStaysThrough(next, steps[1..], key, names, config);
    }
  }

  lemma {:induction false} ClockRuns(w: World, steps: seq<Step>, config: Config)
    requires Runs(w, steps, config)
    ensures w.clock <= End(w, steps, config).clock
    decreases |steps|
  {
    if steps != [] {
      LookupsGrow(w, steps[0], config);
      ClockRuns(Next(w, steps[0], config), steps[1..], config);
    }
  }

  /** An answer a current lookup gave less than `ttl` ago, for a user not invalidated since, is what a question
      about that user is answered with from the cache, as long as no more keys were ever asked for than it
      may hold; over all runs, for users none of whose names ends in a colon and another's. */
  lemma ServedFromCache(clock: int, before: seq<Step>, id: LookupId, value: Introspection, since: seq<Step>,
                        names: iset<string>, config: Config)
    requires Runs(Start(clock), before, config) && AllNamedBy(before, names) && Apart(names) && config.ttl > 0
    requires Enabled(End(Start(clock), before, config), Succeed(id, value))
    requires var w := End(Start(clock), before, config);
             IsCurrent(w.cache, w.lookups[id].Key(), id) && Runs(Next(w, Succeed(id, value), config), since, config)
    requires AllNamedBy(since, names) && Spared(since, IdOf(End(Start(clock), before, config).lookups[id].user))
    requires var w := End(Start(clock), before, config); var end := End(Next(w, Succeed(id, value), config), since, config);
             |Asked(end.lookups)| <= config.max && end.clock < w.clock + config.ttl
    ensures var w := End(Start(clock), before, config); var l := w.lookups[id];
            var end := End(Next(w, Succeed(id, value), config), since, config);
            AnswerTo(end, l.session, l.user) == Cached(EntryOf(l.user, value, id, config, w.clock))
  {
    StartNamed(clock, names, config);
    RunKeepsNamed(Start(clock), before, names, config);
    RunNotYet(Start(clock), before, config);
    var w := End(Start(clock), before, config);
    var next := Next(w, Succeed(id, value), config);
    StepKeepsNamed(w, Succeed(id, value), names, config);
    StepNotYet(w, Succeed(id, value), config);
    EntryStaysThrough(next, since, w.lookups[id].Key(), names, config);
  }

  // ----- one lookup at a time

  /** How many lookups of a key have begun. */
  function Begun(lookups: seq<Lookup>, key: Key): nat {
    if lookups == [] then 0
    else Begun(lookups[..|lookups| - 1], key) + if lookups[|lookups| - 1].Key() == key then 1 else 0
  }

  lemma {:induction false} BegunByKeys(a: seq<Lookup>, b: seq<Lookup>, key: Key)
    requires |a| == |b| && forall i | 0 <= i < |a| :: a[i].Key() == b[i].Key()
    ensures Begun(a, key) == Begun(b, key)
  {
    if a != [] { BegunByKeys(a[..|a| - 1], b[..|b| - 1], key); }
  }

  /** Neither over, nor detached by an invalidation of a user the key ends with. */
  predicate LeavesInFlight(step: Step, key: Key, id: LookupId) {
    !(step.Finish? && step.lookup == id) && !(step.Forget? && Detaches(key, IdOf(step.user)))
  }

  lemma AskShares(w: World, session: string, user: string, key: Key, config: Config)
    requires key in w.cache.inflight
    ensures var after := Next(w, Ask(session, user), config);
            key in after.cache.inflight && after.cache.inflight[key] == w.cache.inflight[key]
            && Begun(after.lookups, key) == Begun(w.lookups, key)
  {
    if AnswerTo(w, session, user).Asks? {
      assert Next(w, Ask(session, user), config).lookups[..|w.lookups|] == w.lookups;
    }
  }

  lemma StepShares(w: World, step: Step, key: Key, config: Config)
    requires Inv(w, config) && Enabled(w, step) && key in w.cache.inflight && LeavesInFlight(step, key, w.cache.inflight[key])
    ensures var after := Next(w, step, config);
            key in after.cache.inflight && after.cache.inflight[key] == w.cache.inflight[key]
            && Begun(after.lookups, key) == Begun(w.lookups, key)
  {
    match step {
      case Ask(session, user) => AskShares(w, session, user, key, config);
      case Succeed(id, value) =>
        SucceedTakes(w, id, value, config);
        BegunByKeys(w.lookups, Next(w, step, config).lookups, key);
      case Fail(id) => BegunByKeys(w.lookups, Next(w, step, config).lookups, key);
      case Finish(_) =>
      case Forget(_) =>
      case Tick(_) =>
    }
  }

  /** While a lookup is in flight, until it is over or a user its key ends with is invalidated, everyone who
      asks under its key shares it: no other lookup of that key begins. */
  lemma {:induction false} LookupIsShared(w: World, steps: seq<Step>, key: Key, config: Config)
    requires Inv(w, config) && Runs(w, steps, config) && key in w.cache.inflight
    requires forall s <- steps :: LeavesInFlight(s, key, w.cache.inflight[key])
    ensures var end := End(w, steps, config);
            key in end.cache.inflight && end.cache.inflight[key] == w.cache.inflight[key]
            && Begun(end.lookups, key) == Begun(w.lookups, key)
    decreases |steps|
  {
    if steps != [] {
      StepShares(w, steps[0], key, config);
      StepKeeps(w, steps[0], config);
      LookupIsShared(Next(w, steps[0], config), steps[1..], key, config);
    }
  }

  /** No key's current lookup is this one. */
  predicate Over(c: Cache, id: LookupId) { forall key <- c.inflight :: c.inflight[key] != id }

  lemma StepLeavesOver(w: World, step: Step, id: LookupId, config: Config)
    requires Inv(w, config) && Enabled(w, step) && Over(w.cache, id) && id < |w.lookups|
    ensures Over(Next(w, step, config).cache, id) && id < |Next(w, step, config).lookups|
  {
    if step.Succeed? { SucceedTakes(w, step.lookup, step.value, config); }
  }

  /** Once a lookup is over nobody joins it any more, and what it might still answer is not cached. */
  lemma {:induction false} OverForGood(w: World, steps: seq<Step>, id: LookupId, config: Config)
    requires Inv(w, config) && Runs(w, steps, config) && Over(w.cache, id) && id < |w.lookups|
    ensures Over(End(w, steps, config).cache, id)
    decreases |steps|
  {
    if steps != [] {
      StepLeavesOver(w, steps[0], id, config);
      StepKeeps(w, steps[0], config);
      OverForGood(Next(w, steps[0], config), steps[1..], id, config);
    }
  }

  lemma FinishIsOver(w: World, id: LookupId, config: Config)
    requires Inv(w, config) && Enabled(w, Finish(id))
    ensures Over(Next(w, Finish(id), config).cache, id)
  {}

  lemma FinishedIsNotJoined(w: World, id: LookupId, more: seq<Step>, session: string, user: string, config: Config)
    requires Inv(w, config) && Enabled(w, Finish(id)) && Runs(Next(w, Finish(id), config), more, config)
    ensures AnswerTo(End(Next(w, Finish(id), config), more, config), session, user) != Joins(id)
  {
    StepKeeps(w, Finish(id), config);
    FinishIsOver(w, id, config);
    OverForGood(Next(w, Finish(id), config), more, id, config);
  }
}
