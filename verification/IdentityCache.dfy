/** The identity cache's data: a bounded map in insertion order, an index of its keys by user, and the
    lookups in flight. Functions give what each operation leaves; `IdentityClient` runs them in place. */
module IdentityCache {
  import opened Sets

  datatype Role = STUDENT | ADMIN

  datatype Introspection = Inactive | Active(userId: string, status: string, roles: seq<Role>, displayName: string)

  /** `session:user`, the text under which an answer is kept. */
  datatype Key = Key(text: string)

  /** A user identifier in lower case, as the index keeps it. */
  datatype UserId = UserId(text: string)

  type LookupId = nat

  function LowerChar(c: char): char { if 'A' <= c <= 'Z' then c - 'A' + 'a' else c }

  /** Case folding of the letters identifiers use. */
  function Lower(s: string): string { seq(|s|, i requires 0 <= i < |s| => LowerChar(s[i])) }

  function KeyOf(session: string, user: string): Key { Key(session + ":" + user) }

  function IdOf(user: string): UserId { UserId(Lower(user)) }

  predicate EndsWith(s: string, suffix: string) { |suffix| <= |s| && s[|s| - |suffix|..] == suffix }

  /** `lookup` names the call whose answer this is. */
  datatype Entry = Entry(value: Introspection, expiresAt: int, user: UserId, lookup: LookupId)

  type Entries = map<Key, Entry>

  type Index = map<UserId, set<Key>>

  /** `order` is the iteration order of the cache's keys. */
  datatype Cache = Cache(order: seq<Key>, entries: Entries, keysByUser: Index, inflight: map<Key, LookupId>)

  datatype Config = Config(ttl: int, max: int)

  function Without(s: seq<Key>, gone: set<Key>): (r: seq<Key>)
    ensures forall x :: x in r <==> x in s && x !in gone
    ensures |r| <= |s|
  {
    if s == [] then []
    else if s[0] in gone then Without(s[1..], gone)
    else [s[0]] + Without(s[1..], gone)
  }

  lemma {:induction false} WithoutTwice(s: seq<Key>, a: set<Key>, b: set<Key>)
    ensures Without(Without(s, a), b) == Without(s, a + b)
  {
    if s != [] {
      WithoutTwice(s[1..], a, b);
      if s[0] !in a {
        assert ([s[0]] + Without(s[1..], a))[1..] == Without(s[1..], a);
      }
    }
  }

  lemma {:induction false} WithoutNone(s: seq<Key>)
    ensures Without(s, {}) == s
  {
    if s != [] {
      WithoutNone(s[1..]);
    }
  }

  // ----- operations

  function KeysOf(index: Index, user: UserId): set<Key> { if user in index then index[user] else {} }

  function Unindexed(index: Index, user: UserId, key: Key): Index {
    if user !in index then index
    else if index[user] - {key} == {} then index - {user}
    else index[user := index[user] - {key}]
  }

  function Forget(c: Cache, key: Key): Cache {
    if key !in c.entries then c
    else c.(order := Without(c.order, {key}), entries := c.entries - {key},
            keysByUser := Unindexed(c.keysByUser, c.entries[key].user, key))
  }

  predicate Expired(entries: Entries, key: Key, now: int) { key in entries && entries[key].expiresAt <= now }

  /** Forgets, in turn, each key whose entry has expired. */
  function DropExpired(c: Cache, keys: seq<Key>, now: int): Cache
    decreases |keys|
  {
    if keys == [] then c
    else DropExpired(if Expired(c.entries, keys[0], now) then Forget(c, keys[0]) else c, keys[1..], now)
  }

  /** Makes room: expired entries first, and the first key in iteration order if that was not enough. */
  function Evict(c: Cache, config: Config, now: int): Cache {
    if |c.entries| < config.max then c
    else
      var dropped := DropExpired(c, c.order, now);
      if |dropped.entries| >= config.max && dropped.order != [] then Forget(dropped, dropped.order[0]) else dropped
  }

  /** A key already present keeps its place in the iteration order. */
  function Put(c: Cache, key: Key, entry: Entry): Cache {
    c.(order := if key in c.entries then c.order else c.order + [key],
       entries := c.entries[key := entry],
       keysByUser := c.keysByUser[entry.user := KeysOf(c.keysByUser, entry.user) + {key}])
  }

  function Remember(c: Cache, key: Key, entry: Entry, config: Config, now: int): Cache {
    if config.ttl <= 0 then c else Put(Evict(c, config, now), key, entry)
  }

  datatype Answer = Cached(entry: Entry) | Joins(lookup: LookupId) | Asks

  function Introspect(c: Cache, key: Key, now: int): Answer {
    if key in c.entries && c.entries[key].expiresAt > now then Cached(c.entries[key])
    else if key in c.inflight then Joins(c.inflight[key])
    else Asks
  }

  predicate IsCurrent(c: Cache, key: Key, lookup: LookupId) { key in c.inflight && c.inflight[key] == lookup }

  function EntryOf(user: string, value: Introspection, lookup: LookupId, config: Config, now: int): Entry {
    Entry(value, now + config.ttl, IdOf(user), lookup)
  }

  /** A lookup answered: cached only if it is still the current one for its key. */
  function Succeeded(c: Cache, key: Key, user: string, value: Introspection, lookup: LookupId,
                     config: Config, now: int): Cache {
    if !IsCurrent(c, key, lookup) then c
    else Remember(c, key, EntryOf(user, value, lookup, config, now), config, now)
  }

  /** A lookup ended either way. */
  function Ended(c: Cache, key: Key, lookup: LookupId): Cache {
    if IsCurrent(c, key, lookup) then c.(inflight := c.inflight - {key}) else c
  }

  predicate Detaches(key: Key, id: UserId) { EndsWith(Lower(key.text), ":" + id.text) }

  function Detached(inflight: map<Key, LookupId>, id: UserId): set<Key> {
    set key <- inflight | Detaches(key, id)
  }

  function Invalidate(c: Cache, id: UserId): Cache {
    var gone := KeysOf(c.keysByUser, id);
    Cache(Without(c.order, gone), c.entries - gone, c.keysByUser - {id}, c.inflight - Detached(c.inflight, id))
  }

  // ----- the index agrees with the cache

  /** The index is the grouping of the cache's keys by user, with no empty group. */
  predicate Grouped(entries: Entries, index: Index) {
    && (forall id <- index :: index[id] != {})
    && (forall id <- index, key <- index[id] :: key in entries && entries[key].user == id)
    && (forall key <- entries :: entries[key].user in index && key in index[entries[key].user])
  }

  predicate NoRepeats(s: seq<Key>) { forall i, j | 0 <= i < j < |s| :: s[i] != s[j] }

  /** The iteration order lists each key of the cache once. */
  ghost predicate Listed(order: seq<Key>, entries: Entries) {
    NoRepeats(order) && (forall key :: key in order <==> key in entries)
  }

  ghost predicate Indexed(c: Cache) { Grouped(c.entries, c.keysByUser) && Listed(c.order, c.entries) }

  function UserKeys(entries: Entries, id: UserId): set<Key> { set key <- entries | entries[key].user == id }

  /** What a grouping is: the keys under a user are those a scan of the whole cache finds, and the users
      with a group are those the cache has an entry for. */
  lemma GroupsAreScans(entries: Entries, index: Index)
    ensures Grouped(entries, index) <==>
            && (forall id :: KeysOf(index, id) == UserKeys(entries, id))
            && (forall id :: id in index <==> exists key <- entries :: entries[key].user == id)
  {
    if Grouped(entries, index) {
      forall id ensures KeysOf(index, id) == UserKeys(entries, id) {}
      forall id | id in index ensures exists key <- entries :: entries[key].user == id {
        var key :| key in index[id];
        assert key in entries;
      }
    } else if forall id :: KeysOf(index, id) == UserKeys(entries, id) {
      assert forall id <- index :: index[id] == KeysOf(index, id);
      if id :| id in index && index[id] == {} {
        assert UserKeys(entries, id) == {};
        assert forall key <- entries :: key in UserKeys(entries, id) || entries[key].user != id;
      } else if id, key :| id in index && key in index[id] && !(key in entries && entries[key].user == id) {
        assert key in UserKeys(entries, id);
      } else {
        var key :| key in entries && !(entries[key].user in index && key in index[entries[key].user]);
        assert key in UserKeys(entries, entries[key].user);
      }
    }
  }

  lemma {:induction false} WithoutKeepsNoRepeats(s: seq<Key>, gone: set<Key>)
    requires NoRepeats(s)
    ensures NoRepeats(Without(s, gone))
  {
    if s != [] {
      WithoutKeepsNoRepeats(s[1..], gone);
      var rest := Without(s[1..], gone);
      if s[0] !in gone {
        forall i, j | 0 <= i < j < |rest| + 1 ensures ([s[0]] + rest)[i] != ([s[0]] + rest)[j] {
          assert i == 0 ==> rest[j - 1] in s[1..];
        }
      }
    }
  }

  lemma UnindexedGroups(entries: Entries, index: Index, key: Key)
    requires Grouped(entries, index) && key in entries
    ensures Grouped(entries - {key}, Unindexed(index, entries[key].user, key))
  {
    var user := entries[key].user;
    var after := Unindexed(index, user, key);
    forall id | id in after ensures after[id] != {} {}
    forall id, k | id in after && k in after[id] ensures k in entries - {key} && (entries - {key})[k].user == id {
      assert k in index[id];
    }
    forall k | k in entries - {key} ensures entries[k].user in after && k in after[entries[k].user] {
      assert k in index[entries[k].user] - {key};
    }
  }

  /** Forgetting a key keeps the order, and the index if it was one. */
  lemma ForgetKeeps(c: Cache, key: Key)
    requires Listed(c.order, c.entries)
    ensures var after := Forget(c, key);
            && Listed(after.order, after.entries) && after.entries == c.entries - {key}
            && (Grouped(c.entries, c.keysByUser) ==> Grouped(after.entries, after.keysByUser))
  {
    if key in c.entries {
      WithoutKeepsNoRepeats(c.order, {key});
      if Grouped(c.entries, c.keysByUser) {
        UnindexedGroups(c.entries, c.keysByUser, key);
      }
    }
  }

  /** `after` is `before` less some whole entries, each of which may go. */
  predicate Pruned(before: Entries, after: Entries) {
    forall k <- after :: k in before && after[k] == before[k]
  }

  /** What every way of removing entries keeps. */
  ghost predicate Trims(c: Cache, after: Cache) {
    && Listed(after.order, after.entries) && after.inflight == c.inflight && Pruned(c.entries, after.entries)
    && (Grouped(c.entries, c.keysByUser) ==> Grouped(after.entries, after.keysByUser))
  }

  lemma {:induction false} DropExpiredKeeps(c: Cache, keys: seq<Key>, now: int)
    requires Listed(c.order, c.entries)
    ensures var after := DropExpired(c, keys, now);
            && Trims(c, after)
            && (forall k <- c.entries :: k in after.entries <==> !(k in keys && Expired(c.entries, k, now)))
    decreases |keys|
  {
    if keys != [] {
      ForgetKeeps(c, keys[0]);
      DropExpiredKeeps(if Expired(c.entries, keys[0], now) then Forget(c, keys[0]) else c, keys[1..], now);
    }
  }

  /** The most entries the cache ever holds: one even when it is told to hold none. */
  function MaxSize(config: Config): nat { if config.max < 1 then 1 else config.max }

  lemma ForgetFirstMakesRoom(c: Cache)
    requires Listed(c.order, c.entries) && c.order != []
    ensures Trims(c, Forget(c, c.order[0]))
    ensures |Forget(c, c.order[0]).entries| == |c.entries| - 1
  {
    ForgetKeeps(c, c.order[0]);
    assert c.order[0] in c.entries;
    var rest := c.entries - {c.order[0]};
    assert rest.Keys == c.entries.Keys - {c.order[0]};
    assert |rest| == |rest.Keys|;
  }

  lemma UnlistedIsEmpty(c: Cache)
    requires Listed(c.order, c.entries) && c.order == []
    ensures |c.entries| == 0
  {
    assert forall k :: k !in c.entries;
    assert c.entries.Keys == {};
  }

  /** Eviction keeps the index if there was one, removes whole entries only, and makes room. */
  lemma EvictMakesRoom(c: Cache, config: Config, now: int)
    requires Listed(c.order, c.entries) && |c.entries| <= MaxSize(config)
    ensures Trims(c, Evict(c, config, now)) && |Evict(c, config, now).entries| < MaxSize(config)
  {
    if |c.entries| >= config.max {
      var dropped := DropExpired(c, c.order, now);
      DropExpiredKeeps(c, c.order, now);
      assert dropped.entries.Keys <= c.entries.Keys;
      SubsetIsNoLarger(dropped.entries.Keys, c.entries.Keys);
      if dropped.order == [] {
        UnlistedIsEmpty(dropped);
      } else {
        ForgetFirstMakesRoom(dropped);
      }
    }
  }

  lemma PutGroups(entries: Entries, index: Index, key: Key, entry: Entry)
    requires Grouped(entries, index)
    ensures Grouped(entries[key := entry], index[entry.user := KeysOf(index, entry.user) + {key}])
       <==> (key in entries ==> entries[key].user == entry.user)
  {
    var after := index[entry.user := KeysOf(index, entry.user) + {key}];
    if key in entries && entries[key].user != entry.user {
      var was := entries[key].user;
      assert was in after && key in after[was] && entries[key := entry][key].user != was;
    } else {
      var now := entries[key := entry];
      forall id | id in after ensures after[id] != {} {
        assert id == entry.user ==> key in after[id];
      }
      forall id, k | id in after && k in after[id] ensures k in now && now[k].user == id {
        assert (k == key && id == entry.user) || k in index[id];
      }
      forall k | k in now ensures now[k].user in after && k in after[now[k].user] {
        if k == key {
          assert key in after[entry.user];
        } else {
          assert now[k] == entries[k] && k in index[entries[k].user];
        }
      }
    }
  }

  lemma PutLists(order: seq<Key>, entries: Entries, key: Key, entry: Entry)
    requires Listed(order, entries)
    ensures Listed(if key in entries then order else order + [key], entries[key := entry])
    ensures |entries[key := entry]| <= |entries| + 1
  {
    assert entries[key := entry].Keys == entries.Keys + {key};
    assert |entries[key := entry]| == |entries[key := entry].Keys|;
  }

  /** `after` holds what `c` held, less some whole entries, and perhaps `entry` under `key`. */
  predicate Took(c: Cache, after: Cache, key: Key, entry: Entry) {
    && after.inflight == c.inflight
    && (forall k <- after.entries ::
          (k == key && after.entries[k] == entry) || (k in c.entries && after.entries[k] == c.entries[k]))
  }

  lemma RememberTakes(c: Cache, key: Key, entry: Entry, config: Config, now: int)
    requires Listed(c.order, c.entries) && |c.entries| <= MaxSize(config)
    ensures var after := Remember(c, key, entry, config, now);
            Listed(after.order, after.entries) && |after.entries| <= MaxSize(config) && Took(c, after, key, entry)
  {
    if config.ttl > 0 {
      var room := Evict(c, config, now);
      EvictMakesRoom(c, config, now);
      PutLists(room.order, room.entries, key, entry);
    }
  }

  /** When a remembered answer keeps the index: exactly when no other user's entry survives under its key. */
  lemma RememberIndexes(c: Cache, key: Key, entry: Entry, config: Config, now: int)
    requires Listed(c.order, c.entries) && |c.entries| <= MaxSize(config)
    ensures var after := Remember(c, key, entry, config, now);
            var kept := Evict(c, config, now).entries;
            && Listed(after.order, after.entries) && |after.entries| <= MaxSize(config) && Took(c, after, key, entry)
            && (Grouped(c.entries, c.keysByUser) ==>
                  (Grouped(after.entries, after.keysByUser)
                   <==> (config.ttl > 0 && key in kept ==> kept[key].user == entry.user)))
  {
    RememberTakes(c, key, entry, config, now);
    if config.ttl > 0 && Grouped(c.entries, c.keysByUser) {
      var room := Evict(c, config, now);
      EvictMakesRoom(c, config, now);
      PutGroups(room.entries, room.keysByUser, key, entry);
    }
  }

  /** A cache of one entry at most always keeps its index: eviction empties it first. */
  lemma RememberKeeps(c: Cache, key: Key, entry: Entry, config: Config, now: int)
    requires Listed(c.order, c.entries) && |c.entries| <= MaxSize(config) && Grouped(c.entries, c.keysByUser)
    requires config.ttl <= 0 || config.max <= 1 || (key in c.entries ==> c.entries[key].user == entry.user)
    ensures var after := Remember(c, key, entry, config, now); Grouped(after.entries, after.keysByUser)
  {
    RememberIndexes(c, key, entry, config, now);
    var kept := Evict(c, config, now).entries;
    EvictMakesRoom(c, config, now);
    if config.max <= 1 {
      assert |kept.Keys| == |kept| == 0;
    }
  }

  lemma SucceededKeeps(c: Cache, key: Key, user: string, value: Introspection, lookup: LookupId, config: Config, now: int)
    requires Listed(c.order, c.entries) && |c.entries| <= MaxSize(config)
    ensures var after := Succeeded(c, key, user, value, lookup, config, now);
            && Listed(after.order, after.entries) && |after.entries| <= MaxSize(config)
            && Took(c, after, key, EntryOf(user, value, lookup, config, now))
            && (!IsCurrent(c, key, lookup) || config.ttl <= 0 ==> after == c)
  {
    if IsCurrent(c, key, lookup) {
      RememberIndexes(c, key, EntryOf(user, value, lookup, config, now), config, now);
    }
  }

  lemma SucceededGroups(c: Cache, key: Key, user: string, value: Introspection, lookup: LookupId, config: Config, now: int)
    requires Listed(c.order, c.entries) && |c.entries| <= MaxSize(config) && Grouped(c.entries, c.keysByUser)
    requires config.ttl <= 0 || config.max <= 1 || (key in c.entries ==> c.entries[key].user == IdOf(user))
    ensures var after := Succeeded(c, key, user, value, lookup, config, now); Grouped(after.entries, after.keysByUser)
  {
    if IsCurrent(c, key, lookup) {
      RememberKeeps(c, key, EntryOf(user, value, lookup, config, now), config, now);
    }
  }

  lemma InvalidateTrims(c: Cache, id: UserId)
    requires Listed(c.order, c.entries)
    ensures var after := Invalidate(c, id);
            && Listed(after.order, after.entries) && Pruned(c.entries, after.entries) && |after.entries| <= |c.entries|
            && (forall key <- after.inflight :: key in c.inflight && after.inflight[key] == c.inflight[key])
  {
    WithoutKeepsNoRepeats(c.order, KeysOf(c.keysByUser, id));
    SubsetIsNoLarger(Invalidate(c, id).entries.Keys, c.entries.Keys);
  }

  lemma InvalidateGroups(entries: Entries, index: Index, id: UserId)
    requires Grouped(entries, index)
    ensures Grouped(entries - KeysOf(index, id), index - {id})
  {
    var after := entries - KeysOf(index, id);
    forall k | k in after ensures after[k].user in index - {id} && k in (index - {id})[after[k].user] {
      assert k in index[entries[k].user];
    }
  }

  /** Dropping a user through the index equals scanning the whole cache for them. */
  lemma InvalidateScans(c: Cache, id: UserId)
    requires Indexed(c)
    ensures var after := Invalidate(c, id);
            && Indexed(after)
            && after.entries == map k <- c.entries | c.entries[k].user != id :: c.entries[k]
  {
    InvalidateGroups(c.entries, c.keysByUser, id);
    WithoutKeepsNoRepeats(c.order, KeysOf(c.keysByUser, id));
    assert forall k <- c.entries :: k in KeysOf(c.keysByUser, id) <==> c.entries[k].user == id;
  }
}
