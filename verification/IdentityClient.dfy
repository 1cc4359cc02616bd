/** The identity client itself: a class whose methods update its maps in place, proved to leave exactly
    what the functions of `IdentityCache` say. The clock is read once per call; the answer of the User
    Service arrives as an argument of `Then`. */
module IdentityClient {
  import opened IdentityCache

  class Client {
    const config: Config
    var order: seq<Key>
    var cache: Entries
    var keysByUser: Index
    var inflight: map<Key, LookupId>

    function State(): Cache
      reads this
    {
      Cache(order, cache, keysByUser, inflight)
    }

    constructor (config: Config)
      ensures this.config == config && State() == Cache([], map[], map[], map[])
    {
      this.config := config;
      order, cache, keysByUser, inflight := [], map[], map[], map[];
    }

    /** `started` names the lookup that begins if one does. */
    method Introspect(session: string, user: string, started: LookupId, now: int) returns (answer: Answer)
      modifies this`inflight
      ensures answer == IdentityCache.Introspect(old(State()), KeyOf(session, user), now)
      ensures inflight == if answer.Asks? then old(inflight)[KeyOf(session, user) := started] else old(inflight)
    {
      var key := KeyOf(session, user);
      if key in cache && cache[key].expiresAt > now {
        return Cached(cache[key]);
      }
      if key in inflight {
        return Joins(inflight[key]);
      }
      inflight := inflight[key := started];
      return Asks;
    }

    /** The lookup answered. */
    method Then(session: string, user: string, value: Introspection, lookup: LookupId, now: int)
      modifies this
      ensures State() == Succeeded(old(State()), KeyOf(session, user), user, value, lookup, config, now)
    {
      var key := KeyOf(session, user);
      if key in inflight && inflight[key] == lookup {
        Remember(key, user, value, lookup, now);
      }
    }

    /** The lookup is over, answered or failed. */
    method Finally(session: string, user: string, lookup: LookupId)
      modifies this`inflight
      ensures State() == Ended(old(State()), KeyOf(session, user), lookup)
    {
      var key := KeyOf(session, user);
      if key in inflight && inflight[key] == lookup {
        inflight := inflight - {key};
      }
    }

    method InvalidateUser(user: string)
      modifies this
      ensures State() == Invalidate(old(State()), IdOf(user))
    {
      var id := IdOf(user);
      ghost var start := State();
      if id in keysByUser {
        DropKeys(keysByUser[id]);
      }
      WithoutNone(start.order);
      keysByUser := keysByUser - {id};
      DetachLookups(id);
    }

    method DropKeys(keys: set<Key>)
      modifies this`order, this`cache
      ensures order == Without(old(order), keys) && cache == old(cache) - keys
    {
      var todo := keys;
      ghost var done: set<Key> := {};
      WithoutNone(order);
      while todo != {}
        invariant done + todo == keys && done * todo == {}
        invariant order == Without(old(order), done) && cache == old(cache) - done
        decreases |todo|
      {
        var key :| key in todo;
        WithoutTwice(old(order), done, {key});
        order, cache := Without(order, {key}), cache - {key};
        done, todo := done + {key}, todo - {key};
      }
      assert done == keys;
    }

    method DetachLookups(id: UserId)
      modifies this`inflight
      ensures inflight == old(inflight) - Detached(old(inflight), id)
    {
      var todo := inflight.Keys;
      while todo != {}
        invariant todo <= old(inflight).Keys
        invariant forall key :: key in inflight <==>
                                key in old(inflight) && (key in todo || !Detaches(key, id))
        invariant forall key <- inflight :: inflight[key] == old(inflight)[key]
        decreases |todo|
      {
        var key :| key in todo;
        if EndsWith(Lower(key.text), ":" + id.text) {
          inflight := inflight - {key};
        }
        todo := todo - {key};
      }
      assert inflight.Keys == old(inflight).Keys - Detached(old(inflight), id);
    }

    method Remember(key: Key, user: string, value: Introspection, lookup: LookupId, now: int)
      modifies this
      ensures State() == IdentityCache.Remember(old(State()), key, EntryOf(user, value, lookup, config, now), config, now)
      ensures inflight == old(inflight)
    {
      if config.ttl <= 0 {
        return;
      }
      if |cache| >= config.max {
        MakeRoom(now);
      }
      var id := IdOf(user);
      if key !in cache {
        order := order + [key];
      }
      cache := cache[key := Entry(value, now + config.ttl, id, lookup)];
      if id in keysByUser {
        keysByUser := keysByUser[id := keysByUser[id] + {key}];
      } else {
        assert KeysOf(keysByUser, id) + {key} == {key};
        keysByUser := keysByUser[id := {key}];
      }
    }

    /** Expired entries go first; if the cache is still full, the first in iteration order goes too. */
    method MakeRoom(now: int)
      requires |cache| >= config.max
      modifies this`order, this`cache, this`keysByUser
      ensures State() == Evict(old(State()), config, now)
    {
      var keys := order;
      var i := 0;
      while i < |keys|
        invariant 0 <= i <= |keys|
        invariant DropExpired(State(), keys[i..], now) == DropExpired(old(State()), keys, now)
        invariant inflight == old(inflight)
      {
        assert keys[i..][0] == keys[i] && keys[i..][1..] == keys[i + 1..];
        if keys[i] in cache && cache[keys[i]].expiresAt <= now {
          Forget(keys[i]);
        }
        i := i + 1;
      }
      if |cache| >= config.max && order != [] {
        Forget(order[0]);
      }
    }

    method Forget(key: Key)
      modifies this`order, this`cache, this`keysByUser
      ensures State() == IdentityCache.Forget(old(State()), key)
    {
      if key !in cache {
        return;
      }
      var user := cache[key].user;
      order, cache := Without(order, {key}), cache - {key};
      if user in keysByUser {
        keysByUser := keysByUser[user := keysByUser[user] - {key}];
        if keysByUser[user] == {} {
          keysByUser := keysByUser - {user};
        }
      }
    }
  }
}
