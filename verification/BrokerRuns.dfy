/** The in-memory broker over all runs: no copy is lost or doubled, tags are unique, and order holds. */
module BrokerRuns {
  import opened Wrappers
  import opened BrokerQueues
  import opened TopicMatching

  // ----- what every run keeps

  type Queues = map<Name, Queue>

  ghost predicate Accounts(queues: Queues) { forall name <- queues :: Conserved(queues[name]) }

  /** Tags rise in the order of delivery, and none is above the last handed out. */
  predicate Rising(unacked: seq<Delivery>, tag: nat) {
    && (forall i, j | 0 <= i < j < |unacked| :: unacked[i].tag < unacked[j].tag)
    && (forall d <- unacked :: d.tag <= tag)
  }

  predicate AllRising(queues: Queues, tag: nat) { forall name <- queues :: Rising(queues[name].unacked, tag) }

  /** A tag names one delivery of one queue. */
  predicate TagsApart(queues: Queues) {
    forall m <- queues, n <- queues | m != n :: Apart(queues[m].unacked, queues[n].unacked)
  }

  predicate Apart(us: seq<Delivery>, them: seq<Delivery>) { forall d <- us, e <- them :: d.tag != e.tag }

  /** A queue with a consumer keeps nothing waiting. */
  predicate Idle(q: Queue) { q.consumer.Some? ==> q.ready == [] }

  predicate AllIdle(queues: Queues) { forall name <- queues :: Idle(queues[name]) }

  ghost predicate BrokerInv(b: Broker) {
    BindingsHold(b) && Accounts(b.queues) && AllRising(b.queues, b.tag) && TagsApart(b.queues) && AllIdle(b.queues)
  }

  /** Copies are delivered, and wait, in the order they arrived. */
  predicate Fifo(b: Broker) { AllAscending(b.queues) }

  predicate AllAscending(queues: Queues) { forall name <- queues :: Ascending(Held(queues[name])) }

  // ----- one queue

  lemma {:induction false} DrainedHands(q: Queue, tag: nat)
    requires q.consumer.Some?
    ensures var after := Drained(q, tag);
            && after == q.(ready := [], unacked := after.unacked)
            && |after.unacked| == |q.unacked| + |q.ready|
            && (forall i | 0 <= i < |q.unacked| :: after.unacked[i] == q.unacked[i])
            && (forall i | 0 <= i < |q.ready| ::
                  after.unacked[|q.unacked| + i] == Delivery(tag + 1 + i, q.ready[i]))
    decreases |q.ready|
  {
    if q.ready != [] {
      var next := q.(ready := q.ready[1..], unacked := q.unacked + [Delivery(tag + 1, q.ready[0])]);
      DrainedHands(next, tag + 1);
      var after := Drained(q, tag);
      forall i | 0 <= i < |q.ready|
        ensures after.unacked[|q.unacked| + i] == Delivery(tag + 1 + i, q.ready[i])
      {
        assert i > 0 ==> after.unacked[|next.unacked| + (i - 1)] == Delivery(tag + 1 + 1 + (i - 1), next.ready[i - 1]);
        assert i == 0 ==> after.unacked[|q.unacked|] == next.unacked[|q.unacked|];
      }
    }
  }

  function TagAfter(q: Queue, tag: nat): nat { tag + if q.consumer.Some? then |q.ready| else 0 }

  /** Delivering moves no copy out of its place. */
  lemma DrainedHolds(q: Queue, tag: nat)
    ensures var after := Drained(q, tag);
            && Held(after) == Held(q) && Idle(after)
            && after == q.(ready := after.ready, unacked := after.unacked)
  {
    if q.consumer.Some? {
      DrainedHands(q, tag);
    }
  }

  predicate TagsFrom(unacked: seq<Delivery>, before: seq<Delivery>, tag: nat) {
    forall d <- unacked :: d.tag > tag || exists e <- before :: e.tag == d.tag
  }

  lemma DrainedTags(q: Queue, tag: nat)
    requires Rising(q.unacked, tag)
    ensures Rising(Drained(q, tag).unacked, TagAfter(q, tag))
    ensures TagsFrom(Drained(q, tag).unacked, q.unacked, tag)
  {
    if q.consumer.Some? {
      DrainedHands(q, tag);
      var after := Drained(q, tag).unacked;
      forall i | 0 <= i < |after|
        ensures if i < |q.unacked| then after[i] in q.unacked else after[i].tag == tag + 1 + i - |q.unacked|
      {
        assert i >= |q.unacked| ==>
                 after[|q.unacked| + (i - |q.unacked|)] == Delivery(tag + 1 + (i - |q.unacked|), q.ready[i - |q.unacked|]);
      }
    }
  }

  lemma TagsFromJoin(after: seq<Delivery>, middle: seq<Delivery>, before: seq<Delivery>, tag: nat)
    requires TagsFrom(after, middle, tag) && TagsFrom(middle, before, tag)
    ensures TagsFrom(after, before, tag)
  {}

  // ----- one queue of many

  lemma SetTagsApart(queues: Queues, name: Name, q: Queue, tag: nat)
    requires TagsApart(queues) && AllRising(queues, tag) && name in queues
    requires TagsFrom(q.unacked, queues[name].unacked, tag)
    ensures TagsApart(queues[name := q])
  {
    forall n | n in queues && n != name ensures Apart(q.unacked, queues[n].unacked) && Apart(queues[n].unacked, q.unacked) {
      assert Apart(queues[name].unacked, queues[n].unacked);
      assert Rising(queues[n].unacked, tag);
    }
  }

  lemma SetRising(queues: Queues, name: Name, q: Queue, tag: nat, later: nat)
    requires AllRising(queues, tag) && tag <= later && Rising(q.unacked, later)
    ensures AllRising(queues[name := q], later)
  {
    forall n | n in queues && n != name ensures Rising(queues[n].unacked, later) {
      assert Rising(queues[n].unacked, tag);
    }
  }

  lemma SetAccount(queues: Queues, name: Name, q: Queue)
    requires Accounts(queues) && Conserved(q)
    ensures Accounts(queues[name := q])
  {
    var after := queues[name := q];
    forall n | n in after ensures Conserved(after[n]) {}
  }

  lemma SetQueueKeeps(b: Broker, name: Name, q: Queue, tag: nat)
    requires BrokerInv(b) && name in b.queues && b.tag <= tag && Conserved(q) && Rising(q.unacked, tag) && Idle(q)
    requires TagsFrom(q.unacked, b.queues[name].unacked, b.tag)
    ensures BrokerInv(b.(queues := b.queues[name := q], tag := tag))
    ensures Fifo(b) && Ascending(Held(q)) ==> Fifo(b.(queues := b.queues[name := q], tag := tag))
  {
    SetAccount(b.queues, name, q);
    SetTagsApart(b.queues, name, q, b.tag);
    SetRising(b.queues, name, q, b.tag, tag);
  }

  /** The broker with `q` dispatched in `name`'s place. */
  function Placed(b: Broker, name: Name, q: Queue): Broker {
    b.(queues := b.queues[name := Drained(q, b.tag)], tag := TagAfter(q, b.tag))
  }

  lemma DispatchPlaces(b: Broker, name: Name, q: Queue)
    ensures Dispatch(b.(queues := b.queues[name := q]), name) == Placed(b, name, q)
  {
    assert b.queues[name := q][name := Drained(q, b.tag)] == b.queues[name := Drained(q, b.tag)];
  }

  lemma DrainedFits(q: Queue, before: seq<Delivery>, tag: nat)
    requires Conserved(q) && Rising(q.unacked, tag) && TagsFrom(q.unacked, before, tag)
    ensures var after := Drained(q, tag);
            && Conserved(after) && Held(after) == Held(q) && Idle(after)
            && Rising(after.unacked, TagAfter(q, tag)) && TagsFrom(after.unacked, before, tag)
  {
    DrainedHolds(q, tag);
    DrainedTags(q, tag);
    TagsFromJoin(Drained(q, tag).unacked, q.unacked, before, tag);
  }

  /** `q`'s tags are among those there. */
  lemma PlacedKeeps(b: Broker, name: Name, q: Queue)
    requires BrokerInv(b) && name in b.queues && Conserved(q) && Rising(q.unacked, b.tag)
    requires TagsFrom(q.unacked, b.queues[name].unacked, b.tag)
    ensures BrokerInv(Placed(b, name, q))
    ensures Fifo(b) && Ascending(Held(q)) ==> Fifo(Placed(b, name, q))
  {
    DrainedFits(q, b.queues[name].unacked, b.tag);
    SetQueueKeeps(b, name, Drained(q, b.tag), TagAfter(q, b.tag));
  }

  lemma ArrivedBalances(q: Queue, m: Message)
    requires Conserved(q)
    ensures Conserved(Arrived(q, m)) && (Ascending(Held(q)) ==> Ascending(Held(Arrived(q, m))))
  {
    assert Held(Arrived(q, m)) == Held(q) + [q.arrivals];
    ArrivalBalances(Held(q), q.arrivals, q.acked, q.gone);
  }

  lemma EnqueueKeeps(b: Broker, name: Name, m: Message)
    requires BrokerInv(b) && name in b.queues
    ensures var after := Enqueue(b, name, m);
            && BrokerInv(after) && after.queues.Keys == b.queues.Keys && after.exchanges == b.exchanges
            && (Fifo(b) ==> Fifo(after))
  {
    var q := b.queues[name];
    ArrivedBalances(q, m);
    assert Rising(q.unacked, b.tag);
    PlacedKeeps(b, name, Arrived(q, m));
    DispatchPlaces(b, name, Arrived(q, m));
  }

  lemma {:induction false} EnqueueAllKeeps(b: Broker, names: seq<Name>, m: Message)
    requires BrokerInv(b) && forall name <- names :: name in b.queues
    ensures var after := EnqueueAll(b, names, m);
            && BrokerInv(after) && after.queues.Keys == b.queues.Keys && after.exchanges == b.exchanges
            && (Fifo(b) ==> Fifo(after))
    decreases |names|
  {
    if names != [] {
      EnqueueKeeps(b, names[0], m);
      EnqueueAllKeeps(Enqueue(b, names[0], m), names[1..], m);
    }
  }

  lemma SendKeeps(b: Broker, exchange: Name, key: string, body: string, deaths: seq<Death>)
    requires BrokerInv(b) && Send(b, exchange, key, body, deaths).Some?
    ensures var after := Send(b, exchange, key, body, deaths).value;
            BrokerInv(after) && (Fifo(b) ==> Fifo(after))
  {
    RouteHolds(b, exchange, key);
    EnqueueAllKeeps(b, Distinct(Route(b, exchange, key).value), Message(0, body, exchange, key, false, deaths));
  }

  lemma DeadLetterKeeps(b: Broker, name: Name, m: Message, reason: Reason)
    requires BrokerInv(b) && name in b.queues
    ensures var after := DeadLetterOrLose(b, name, m, reason);
            BrokerInv(after) && (Fifo(b) ==> Fifo(after))
  {
    var options := b.queues[name].options;
    if options.deadLetterExchange.Some? {
      var key := if options.deadLetterKey.Some? then options.deadLetterKey.value else m.key;
      if Send(b, options.deadLetterExchange.value, key, m.body, DeathsOf(name, m, reason)).Some? {
        SendKeeps(b, options.deadLetterExchange.value, key, m.body, DeathsOf(name, m, reason));
      }
    }
  }

  // ----- who gets a copy

  /** A queue's account after a copy arrived, or did not. */
  predicate Gained(before: Queue, after: Queue, copies: nat) {
    after.arrivals == before.arrivals + copies && after.acked == before.acked && after.gone == before.gone
  }

  lemma EnqueueGains(b: Broker, name: Name, m: Message)
    requires name in b.queues
    ensures var after := Enqueue(b, name, m);
            && after.queues.Keys == b.queues.Keys
            && forall n <- b.queues :: Gained(b.queues[n], after.queues[n], if n == name then 1 else 0)
  {
    DrainedHolds(Arrived(b.queues[name], m), b.tag);
  }

  lemma {:induction false} EnqueueAllGains(b: Broker, names: seq<Name>, m: Message)
    requires forall name <- names :: name in b.queues
    requires forall i, j | 0 <= i < j < |names| :: names[i] != names[j]
    ensures var after := EnqueueAll(b, names, m);
            && after.queues.Keys == b.queues.Keys
            && forall n <- b.queues :: Gained(b.queues[n], after.queues[n], if n in names then 1 else 0)
    decreases |names|
  {
    if names != [] {
      EnqueueGains(b, names[0], m);
      EnqueueAllGains(Enqueue(b, names[0], m), names[1..], m);
      assert names == [names[0]] + names[1..] && names[0] !in names[1..];
    }
  }

  /** A message published to a topic exchange reaches exactly the queues with a binding whose pattern's words
      the key's words divide into, one copy each, however many such bindings a queue has. */
  lemma TopicReaches(b: Broker, exchange: Name, key: string, body: string, deaths: seq<Death>)
    requires BindingsHold(b) && exchange != "" && exchange in b.exchanges && b.exchanges[exchange].kind.Topic?
    ensures Send(b, exchange, key, body, deaths).Some?
    ensures var after := Send(b, exchange, key, body, deaths).value;
            forall n <- b.queues ::
              n in after.queues && Gained(b.queues[n], after.queues[n], if Reached(b.exchanges[exchange], n, key) then 1 else 0)
  {
    RouteHolds(b, exchange, key);
    var e := b.exchanges[exchange];
    var names := Bound(Topic, e.bindings, key);
    EnqueueAllGains(b, Distinct(names), Message(0, body, exchange, key, false, deaths));
    forall n ensures n in names <==> Reached(e, n, key) {
      forall binding <- e.bindings
        ensures Binds(Topic, binding.pattern, key) <==> Divisible(Split(binding.pattern), Split(key))
      {
        MatchIsDivision(binding.pattern, key);
      }
    }
  }

  /** Some binding of the queue's has a pattern the key's words divide into. */
  ghost predicate Reached(e: Exchange, name: Name, key: string) {
    exists binding <- e.bindings :: binding.queue == name && Divisible(Split(binding.pattern), Split(key))
  }

  // ----- settling

  lemma WithoutFacts(q: Queue, i: nat, tag: nat)
    requires Rising(q.unacked, tag) && i < |q.unacked|
    ensures Held(Without(q, i)) == Remove(Held(q), i) && Held(q)[i] == q.unacked[i].message.copy
    ensures Rising(Without(q, i).unacked, tag) && forall d <- Without(q, i).unacked :: d in q.unacked
  {}

  lemma LeavesKeeps(b: Broker, name: Name, i: nat, acked: bool)
    requires BrokerInv(b) && name in b.queues && i < |b.queues[name].unacked|
    ensures var q := b.queues[name];
            var copy := q.unacked[i].message.copy;
            var after := if acked then Without(q, i).(acked := q.acked + {copy}) else Without(q, i).(gone := q.gone + {copy});
            BrokerInv(b.(queues := b.queues[name := after])) && (Fifo(b) ==> Fifo(b.(queues := b.queues[name := after])))
  {
    var q := b.queues[name];
    assert Conserved(q) && Rising(q.unacked, b.tag);
    var copy := q.unacked[i].message.copy;
    var after := if acked then Without(q, i).(acked := q.acked + {copy}) else Without(q, i).(gone := q.gone + {copy});
    WithoutFacts(q, i, b.tag);
    LeavingBalances(Held(q), q.arrivals, q.acked, q.gone, i);
    assert Held(after) == Held(Without(q, i));
    SetQueueKeeps(b, name, after, b.tag);
    assert b.(queues := b.queues[name := after], tag := b.tag) == b.(queues := b.queues[name := after]);
  }

  function PutBack(q: Queue, i: nat): Queue
    requires i < |q.unacked|
  {
    Without(q, i).(ready := [q.unacked[i].message.(redelivered := true)] + q.ready)
  }

  lemma PutBackBalances(q: Queue, i: nat, tag: nat)
    requires Conserved(q) && Rising(q.unacked, tag) && Idle(q) && q.consumer.Some? && i < |q.unacked|
    ensures Conserved(PutBack(q, i)) && Rising(PutBack(q, i).unacked, tag) && TagsFrom(PutBack(q, i).unacked, q.unacked, tag)
    ensures Ascending(Held(q)) ==> (Ascending(Held(PutBack(q, i))) <==> i == |q.unacked| - 1)
  {
    WithoutFacts(q, i, tag);
    ReturningBalances(Held(q), q.arrivals, q.acked, q.gone, i);
    assert Held(PutBack(q, i)) == Remove(Held(q), i) + [Held(q)[i]];
  }

  /** A requeue keeps the account; the copy goes behind the others its consumer holds, so a queue keeps its
      order of arrival exactly when the copy was the last delivered. */
  lemma RequeueKeeps(b: Broker, name: Name, i: nat)
    requires BrokerInv(b) && name in b.queues && i < |b.queues[name].unacked| && b.queues[name].consumer.Some?
    ensures BrokerInv(SettleAt(b, name, i, Requeue))
    ensures Ascending(Held(b.queues[name])) ==>
              (Ascending(Held(SettleAt(b, name, i, Requeue).queues[name])) <==> i == |b.queues[name].unacked| - 1)
  {
    var q := b.queues[name];
    assert Conserved(q) && Rising(q.unacked, b.tag) && Idle(q);
    PutBackBalances(q, i, b.tag);
    PlacedKeeps(b, name, PutBack(q, i));
    DispatchPlaces(b, name, PutBack(q, i));
    DrainedHolds(PutBack(q, i), b.tag);
  }

  lemma SettleKeeps(b: Broker, name: Name, i: nat, how: Settlement)
    requires BrokerInv(b) && name in b.queues && i < |b.queues[name].unacked| && b.queues[name].consumer.Some?
    ensures BrokerInv(SettleAt(b, name, i, how))
    ensures how != Requeue && Fifo(b) ==> Fifo(SettleAt(b, name, i, how))
  {
    match how
    case Ack => LeavesKeeps(b, name, i, true);
    case Requeue => RequeueKeeps(b, name, i);
    case Reject =>
      LeavesKeeps(b, name, i, false);
      var q := b.queues[name];
      var after := b.(queues := b.queues[name := Without(q, i).(gone := q.gone + {q.unacked[i].message.copy})]);
      DeadLetterKeeps(after, name, q.unacked[i].message, Rejected);
  }

  /** At most one delivery answers to a tag. */
  lemma TagIsUnique(b: Broker, m: Name, i: int, n: Name, j: int, channel: ChannelId, other: ChannelId, tag: nat)
    requires BrokerInv(b) && Settles(b, m, i, channel, tag) && Settles(b, n, j, other, tag)
    ensures m == n && i == j
  {
    assert Rising(b.queues[m].unacked, b.tag) && (m != n ==> Apart(b.queues[m].unacked, b.queues[n].unacked));
    assert b.queues[m].unacked[i] in b.queues[m].unacked && b.queues[n].unacked[j] in b.queues[n].unacked;
  }

  // ----- expiry and closing

  function Forgotten(q: Queue, i: nat): Queue
    requires i < |q.ready|
  {
    q.(ready := Remove(q.ready, i), gone := q.gone + {q.ready[i].copy})
  }

  lemma ForgottenBalances(q: Queue, i: nat)
    requires Conserved(q) && i < |q.ready|
    ensures Conserved(Forgotten(q, i)) && (Ascending(Held(q)) ==> Ascending(Held(Forgotten(q, i))))
  {
    var at := |q.unacked| + i;
    assert Held(Forgotten(q, i)) == Remove(Held(q), at) && Held(q)[at] == q.ready[i].copy;
    LeavingBalances(Held(q), q.arrivals, q.acked, q.gone, at);
  }

  lemma ForgottenKeeps(b: Broker, name: Name, i: nat)
    requires BrokerInv(b) && name in b.queues && i < |b.queues[name].ready|
    ensures var after := b.(queues := b.queues[name := Forgotten(b.queues[name], i)]);
            BrokerInv(after) && (Fifo(b) ==> Fifo(after))
  {
    var q := b.queues[name];
    assert Conserved(q) && Rising(q.unacked, b.tag) && Idle(q);
    ForgottenBalances(q, i);
    SetQueueKeeps(b, name, Forgotten(q, i), b.tag);
    assert b.(queues := b.queues[name := Forgotten(q, i)], tag := b.tag) == b.(queues := b.queues[name := Forgotten(q, i)]);
  }

  lemma ExpireAtKeeps(b: Broker, name: Name, i: nat)
    requires BrokerInv(b) && name in b.queues && i < |b.queues[name].ready|
    ensures BrokerInv(ExpireAt(b, name, i)) && (Fifo(b) ==> Fifo(ExpireAt(b, name, i)))
  {
    var q := b.queues[name];
    ForgottenKeeps(b, name, i);
    DeadLetterKeeps(b.(queues := b.queues[name := Forgotten(q, i)]), name, q.ready[i], Expired);
  }

  lemma ExpireKeeps(b: Broker, name: Name, copy: nat)
    requires BrokerInv(b)
    ensures BrokerInv(Expire(b, name, copy)) && (Fifo(b) ==> Fifo(Expire(b, name, copy)))
  {
    if Expire(b, name, copy) != b {
      var i :| IsWaiting(b.queues[name], i, copy) && Expire(b, name, copy) == ExpireAt(b, name, i);
      ExpireAtKeeps(b, name, i);
    }
  }

  /** Closing puts every copy back in its place. */
  lemma ReleasedFacts(q: Queue)
    ensures Held(Released(q)) == Held(q)
  {}

  function Closed(q: Queue, channel: ChannelId): Queue {
    if q.consumer == Some(channel) then Released(q) else q
  }

  lemma ClosedQueues(queues: Queues, after: Queues, channel: ChannelId)
    requires after == map name <- queues :: Closed(queues[name], channel)
    requires Accounts(queues)
    ensures Accounts(after) && (AllAscending(queues) ==> AllAscending(after))
  {
    forall name | name in queues ensures Conserved(after[name]) && Held(after[name]) == Held(queues[name]) {
      ReleasedFacts(queues[name]);
    }
  }

  lemma ClosedRising(queues: Queues, after: Queues, channel: ChannelId, tag: nat)
    requires after == map name <- queues :: Closed(queues[name], channel)
    requires AllRising(queues, tag) && AllIdle(queues)
    ensures AllRising(after, tag) && AllIdle(after)
  {
    forall name | name in after ensures Rising(after[name].unacked, tag) && Idle(after[name]) {
      assert Rising(queues[name].unacked, tag) && Idle(queues[name]);
    }
  }

  lemma ClosedApart(queues: Queues, after: Queues, channel: ChannelId)
    requires after == map name <- queues :: Closed(queues[name], channel)
    requires TagsApart(queues)
    ensures TagsApart(after)
  {
    forall m, n | m in after && n in after && m != n ensures Apart(after[m].unacked, after[n].unacked) {
      assert Apart(queues[m].unacked, queues[n].unacked);
      assert forall name <- after :: after[name].unacked == queues[name].unacked || after[name].unacked == [];
    }
  }

  lemma CloseKeeps(b: Broker, channel: ChannelId)
    requires BrokerInv(b)
    ensures BrokerInv(Close(b, channel)) && (Fifo(b) ==> Fifo(Close(b, channel)))
  {
    var after := Close(b, channel).queues;
    assert after == map name <- b.queues :: Closed(b.queues[name], channel);
    ClosedQueues(b.queues, after, channel);
    ClosedRising(b.queues, after, channel, b.tag);
    ClosedApart(b.queues, after, channel);
  }

  lemma ConsumeKeeps(b: Broker, channel: ChannelId, name: Name)
    requires BrokerInv(b)
    ensures BrokerInv(Consume(b, channel, name)) && (Fifo(b) ==> Fifo(Consume(b, channel, name)))
  {
    if name in b.queues {
      var q := b.queues[name].(consumer := Some(channel));
      assert Conserved(b.queues[name]) && Held(q) == Held(b.queues[name]);
      assert Rising(q.unacked, b.tag);
      PlacedKeeps(b, name, q);
      DispatchPlaces(b, name, q);
    }
  }

  lemma AssertQueueKeeps(b: Broker, name: Name, options: Options)
    requires BrokerInv(b)
    ensures BrokerInv(AssertQueue(b, name, options)) && (Fifo(b) ==> Fifo(AssertQueue(b, name, options)))
  {
    if name !in b.queues {
      var q := Queue(options, [], [], None, 0, {}, {});
      assert Held(q) == [];
      SetAccount(b.queues, name, q);
      SetRising(b.queues, name, q, b.tag, b.tag);
    }
  }

  lemma ExchangeKeeps(b: Broker, name: Name, kind: Kind, queue: Name, pattern: string)
    requires BrokerInv(b)
    ensures BrokerInv(AssertExchange(b, name, kind)) && (Fifo(b) ==> Fifo(AssertExchange(b, name, kind)))
    ensures BrokerInv(Bind(b, queue, name, pattern)) && (Fifo(b) ==> Fifo(Bind(b, queue, name, pattern)))
  {
    assert BindingsHold(AssertExchange(b, name, kind));
    assert BindingsHold(Bind(b, queue, name, pattern));
  }

  // ----- runs

  datatype Step =
    | AssertsQueue(name: Name, options: Options)
    | AssertsExchange(name: Name, kind: Kind)
    | AssertsBinding(queue: Name, exchange: Name, pattern: string)
    | Consumes(channel: ChannelId, queue: Name)
    | Publishes(exchange: Name, key: string, body: string)
    | Settling(channel: ChannelId, tag: nat, how: Settlement)
    | Expires(queue: Name, copy: nat)
    | Closes(channel: ChannelId)

  /** A step that throws changes nothing. */
  ghost function Next(b: Broker, step: Step): Broker
    requires BindingsHold(b)
  {
    match step
    case AssertsQueue(name, options) => AssertQueue(b, name, options)
    case AssertsExchange(name, kind) => AssertExchange(b, name, kind)
    case AssertsBinding(queue, exchange, pattern) => Bind(b, queue, exchange, pattern)
    case Consumes(channel, queue) => Consume(b, channel, queue)
    case Publishes(exchange, key, body) =>
      var sent := Send(b, exchange, key, body, []);
      if sent.Some? then sent.value else b
    case Settling(channel, tag, how) => Settle(b, channel, tag, how)
    case Expires(queue, copy) => Expire(b, queue, copy)
    case Closes(channel) => Close(b, channel)
  }

  ghost function Settle(b: Broker, channel: ChannelId, tag: nat, how: Settlement): Broker
    requires BindingsHold(b)
  {
    if exists name, i :: Settles(b, name, i, channel, tag) then
      var name, i :| Settles(b, name, i, channel, tag);
      SettleAt(b, name, i, how)
    else b
  }

  /** The delivery settled is the one the tag names. */
  lemma SettleIs(b: Broker, name: Name, i: int, channel: ChannelId, tag: nat, how: Settlement)
    requires BrokerInv(b) && Settles(b, name, i, channel, tag)
    ensures Settle(b, channel, tag, how) == SettleAt(b, name, i, how)
  {
    var n, j :| Settles(b, n, j, channel, tag) && Settle(b, channel, tag, how) == SettleAt(b, n, j, how);
    TagIsUnique(b, name, i, n, j, channel, channel, tag);
  }

  lemma WaitingIsUnique(q: Queue, i: int, j: int, copy: nat)
    requires NoRepeats(Held(q)) && IsWaiting(q, i, copy) && IsWaiting(q, j, copy)
    ensures i == j
  {
    assert Held(q)[|q.unacked| + i] == copy == Held(q)[|q.unacked| + j];
  }

  /** The message that expires is the one its copy number names. */
  lemma ExpireIs(b: Broker, name: Name, i: int, copy: nat)
    requires BindingsHold(b) && name in b.queues && NoRepeats(Held(b.queues[name]))
    requires b.queues[name].options.ttl.Some? && IsWaiting(b.queues[name], i, copy)
    ensures Expire(b, name, copy) == ExpireAt(b, name, i)
  {
    forall j | IsWaiting(b.queues[name], j, copy) ensures j == i {
      WaitingIsUnique(b.queues[name], i, j, copy);
    }
  }

  lemma StepKeeps(b: Broker, step: Step)
    requires BrokerInv(b)
    ensures BrokerInv(Next(b, step))
    ensures Fifo(b) && !(step.Settling? && step.how == Requeue) ==> Fifo(Next(b, step))
  {
    match step
    case AssertsQueue(name, options) => AssertQueueKeeps(b, name, options);
    case AssertsExchange(name, kind) => ExchangeKeeps(b, name, kind, "", "");
    case AssertsBinding(queue, exchange, pattern) => ExchangeKeeps(b, exchange, Direct, queue, pattern);
    case Consumes(channel, queue) => ConsumeKeeps(b, channel, queue);
    case Publishes(exchange, key, body) =>
      if Send(b, exchange, key, body, []).Some? { SendKeeps(b, exchange, key, body, []); }
    case Settling(channel, tag, how) =>
      if exists name, i :: Settles(b, name, i, channel, tag) {
        var name, i :| Settles(b, name, i, channel, tag) && Settle(b, channel, tag, how) == SettleAt(b, name, i, how);
        SettleKeeps(b, name, i, how);
      }
    case Expires(queue, copy) => ExpireKeeps(b, queue, copy);
    case Closes(channel) => CloseKeeps(b, channel);
  }

  ghost predicate Reaches(b: Broker, steps: seq<Step>, end: Broker)
    requires BindingsHold(b)
    decreases |steps|
  {
    if steps == [] then end == b
    else BindingsHold(Next(b, steps[0])) && Reaches(Next(b, steps[0]), steps[1..], end)
  }

  lemma {:induction false} RunKeeps(b: Broker, steps: seq<Step>, end: Broker)
    requires BrokerInv(b) && Reaches(b, steps, end)
    ensures BrokerInv(end)
    ensures Fifo(b) && (forall s <- steps :: !(s.Settling? && s.how == Requeue)) ==> Fifo(end)
    decreases |steps|
  {
    if steps != [] {
      StepKeeps(b, steps[0]);
      RunKeeps(Next(b, steps[0]), steps[1..], end);
    }
  }

  /** What a queue holds is what arrived less what was acknowledged and what left by rejection or expiry. */
  ghost predicate Accounted(q: Queue) { Conserved(q) && Depth(q) == q.arrivals - |q.acked| - |q.gone| }

  /** Any run: in every queue each copy that arrived is held once, or acknowledged, or gone, and in one of
      these only; tags are unique; and without a requeue the copies unsettled and then those waiting are in
      the order they arrived. */
  lemma EveryRunConserves(steps: seq<Step>, end: Broker)
    requires Reaches(EMPTY, steps, end)
    ensures forall name <- end.queues :: Accounted(end.queues[name])
    ensures (forall s <- steps :: !(s.Settling? && s.how == Requeue)) ==> Fifo(end)
    ensures TagsApart(end.queues) && AllRising(end.queues, end.tag)
  {
    RunKeeps(EMPTY, steps, end);
    forall name | name in end.queues ensures Accounted(end.queues[name]) {
      DepthIsBalance(end.queues[name]);
    }
  }
}
