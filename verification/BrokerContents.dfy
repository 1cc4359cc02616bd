/** Which messages the queues hold after each operation of the broker, told message by message: who gets a
    copy and what it says, where a rejected or expired message goes, and what comes back. */
module BrokerContents {
  import opened Wrappers
  import opened BrokerQueues
  import opened BrokerRuns
  import opened TopicMatching

  /** The messages a queue holds: those delivered and unsettled, then those waiting. */
  function Messages(q: Queue): seq<Message> {
    seq(|q.unacked|, i requires 0 <= i < |q.unacked| => q.unacked[i].message) + q.ready
  }

  /** Everything about a queue but what it holds and its account. */
  predicate SameQueue(before: Queue, after: Queue) { after.options == before.options && after.consumer == before.consumer }

  lemma DrainedMessages(q: Queue, tag: nat)
    ensures Messages(Drained(q, tag)) == Messages(q) && SameQueue(q, Drained(q, tag))
  {
    if q.consumer.Some? {
      DrainedHands(q, tag);
      var after := Drained(q, tag);
      assert Messages(after) == Messages(q);
    }
  }

  // ----- who gets a copy

  /** Whether an exchange's kind lets a binding take a key: any key, the same key, or one whose words the
      pattern's divide. */
  ghost predicate TakesKey(kind: Kind, pattern: string, key: string) {
    match kind
    case Fanout => true
    case Direct => pattern == key
    case Topic => Divisible(Split(pattern), Split(key))
  }

  /** Without an exchange a message goes to the queue its key names. */
  ghost predicate Receives(b: Broker, exchange: Name, key: string, name: Name) {
    if exchange == "" then name == key
    else exchange in b.exchanges
         && exists binding <- b.exchanges[exchange].bindings ::
              binding.queue == name && TakesKey(b.exchanges[exchange].kind, binding.pattern, key)
  }

  /** A queue after one more message came last, or as it was. */
  predicate OneMore(before: Queue, after: Queue, m: Message) {
    && SameQueue(before, after) && Messages(after) == Messages(before) + [m.(copy := before.arrivals)]
    && Gained(before, after, 1)
  }

  lemma EnqueueOneMore(b: Broker, name: Name, m: Message)
    requires name in b.queues
    ensures var after := Enqueue(b, name, m);
            && after.queues.Keys == b.queues.Keys && after.exchanges == b.exchanges
            && OneMore(b.queues[name], after.queues[name], m)
            && forall n <- b.queues | n != name :: after.queues[n] == b.queues[n]
  {
    var q := Arrived(b.queues[name], m);
    DrainedMessages(q, b.tag);
    DrainedHolds(q, b.tag);
    assert Messages(q) == Messages(b.queues[name]) + [m.(copy := b.queues[name].arrivals)];
  }

  lemma {:induction false} EnqueueAllOneMore(b: Broker, names: seq<Name>, m: Message)
    requires forall name <- names :: name in b.queues
    requires forall i, j | 0 <= i < j < |names| :: names[i] != names[j]
    ensures var after := EnqueueAll(b, names, m);
            && after.queues.Keys == b.queues.Keys && after.exchanges == b.exchanges
            && forall n <- b.queues ::
                 if n in names then OneMore(b.queues[n], after.queues[n], m) else after.queues[n] == b.queues[n]
    decreases |names|
  {
    if names != [] {
      EnqueueOneMore(b, names[0], m);
      EnqueueAllOneMore(Enqueue(b, names[0], m), names[1..], m);
      assert names == [names[0]] + names[1..] && names[0] !in names[1..];
    }
  }

  lemma RouteReceives(b: Broker, exchange: Name, key: string)
    requires BindingsHold(b)
    ensures Route(b, exchange, key).None? <==> exchange != "" && exchange !in b.exchanges
    ensures Route(b, exchange, key).Some? ==>
              forall name <- b.queues :: name in Route(b, exchange, key).value <==> Receives(b, exchange, key, name)
  {
    if exchange != "" && exchange in b.exchanges {
      var e := b.exchanges[exchange];
      forall binding <- e.bindings
        ensures Binds(e.kind, binding.pattern, key) <==> TakesKey(e.kind, binding.pattern, key)
      {
        if e.kind.Topic? { MatchIsDivision(binding.pattern, key); }
      }
    }
  }

  /** What is sent, reaches: every queue that receives it holds one message more, the last, with this body, key
      and deaths; every other queue is as it was; and to a missing exchange nothing is sent. */
  lemma SentReaches(b: Broker, exchange: Name, key: string, body: string, deaths: seq<Death>)
    requires BindingsHold(b)
    ensures var sent := Send(b, exchange, key, body, deaths);
            && (sent.None? <==> exchange != "" && exchange !in b.exchanges)
            && (sent.Some? ==>
                  && sent.value.queues.Keys == b.queues.Keys && sent.value.exchanges == b.exchanges
                  && forall n <- b.queues ::
                       if Receives(b, exchange, key, n)
                       then OneMore(b.queues[n], sent.value.queues[n], Message(0, body, exchange, key, false, deaths))
                       else sent.value.queues[n] == b.queues[n])
  {
    RouteReceives(b, exchange, key);
    if Route(b, exchange, key).Some? {
      RouteHolds(b, exchange, key);
      EnqueueAllOneMore(b, Distinct(Route(b, exchange, key).value), Message(0, body, exchange, key, false, deaths));
    }
  }

  /** Binding a queue lets it receive, besides what it did, what the exchange's kind lets the pattern take. */
  lemma BoundReceives(b: Broker, queue: Name, exchange: Name, pattern: string, key: string, name: Name)
    requires exchange != "" && exchange in b.exchanges && queue in b.queues
    ensures var after := Bind(b, queue, exchange, pattern);
            && after.queues == b.queues
            && (Receives(after, exchange, key, name) <==>
                  Receives(b, exchange, key, name) || (name == queue && TakesKey(b.exchanges[exchange].kind, pattern, key)))
            && forall other | other != exchange :: Receives(after, other, key, name) <==> Receives(b, other, key, name)
  {
    var after := Bind(b, queue, exchange, pattern);
    assert Binding(queue, pattern) in after.exchanges[exchange].bindings;
    forall binding | binding in after.exchanges[exchange].bindings
      ensures binding in b.exchanges[exchange].bindings || binding == Binding(queue, pattern)
    {}
    assert forall binding <- b.exchanges[exchange].bindings :: binding in after.exchanges[exchange].bindings;
  }

  /** An exchange just declared gives nothing to anyone; and declaring what there is changes nothing. */
  lemma DeclaredReceives(b: Broker, exchange: Name, kind: Kind, queue: Name, options: Options, key: string, name: Name)
    ensures var declared, made := AssertExchange(b, exchange, kind), AssertQueue(b, queue, options);
            && (exchange in b.exchanges ==> declared == b)
            && (exchange !in b.exchanges && exchange != "" ==>
                  !Receives(declared, exchange, key, name) && declared.exchanges[exchange].kind == kind)
            && (queue in b.queues ==> made == b)
            && (queue !in b.queues ==> Messages(made.queues[queue]) == [] && made.queues[queue].options == options
                                       && made.queues[queue].consumer.None?)
  {}

  // ----- where a dead message goes

  /** The key a queue's dead messages travel under. */
  function DeadKey(q: Queue, m: Message): string {
    if q.options.deadLetterKey.Some? then q.options.deadLetterKey.value else m.key
  }

  /** The message as it goes on: the same body, and one death more, the latest first. */
  function DeadOne(name: Name, q: Queue, m: Message, reason: Reason): Message
    requires q.options.deadLetterExchange.Some?
  {
    Message(0, m.body, q.options.deadLetterExchange.value, DeadKey(q, m), false,
            [Death(reason, name, m.exchange, m.key)] + m.deaths)
  }

  /** A rejected or expired message of a queue with a dead-letter exchange goes to every queue that receives it
      from there, with its body, one death more and the queue's key or its own; without such an exchange, or
      when it is missing, the message goes nowhere. */
  lemma DeadReaches(b: Broker, name: Name, m: Message, reason: Reason)
    requires name in b.queues && BindingsHold(b)
    ensures var after := DeadLetterOrLose(b, name, m, reason); var options := b.queues[name].options;
            && after.queues.Keys == b.queues.Keys && after.exchanges == b.exchanges
            && forall n <- b.queues ::
                 if options.deadLetterExchange.Some?
                    && (options.deadLetterExchange.value == "" || options.deadLetterExchange.value in b.exchanges)
                    && Receives(b, options.deadLetterExchange.value, DeadKey(b.queues[name], m), n)
                 then OneMore(b.queues[n], after.queues[n], DeadOne(name, b.queues[name], m, reason))
                 else after.queues[n] == b.queues[n]
  {
    var options := b.queues[name].options;
    if options.deadLetterExchange.Some? {
      SentReaches(b, options.deadLetterExchange.value, DeadKey(b.queues[name], m), m.body, DeathsOf(name, m, reason));
    }
  }

  // ----- what a settlement leaves

  /** The broker with one queue's messages changed, before anything is sent on. */
  predicate OnlyQueue(b: Broker, after: Broker, name: Name) {
    && name in b.queues && after.queues.Keys == b.queues.Keys && after.exchanges == b.exchanges
    && SameQueue(b.queues[name], after.queues[name])
    && forall n <- b.queues | n != name :: after.queues[n] == b.queues[n]
  }

  lemma WithoutMessages(q: Queue, i: nat)
    requires i < |q.unacked|
    ensures Messages(q)[i] == q.unacked[i].message && Messages(Without(q, i)) == Messages(q)[..i] + Messages(q)[i + 1..]
  {
    var rest := Messages(Without(q, i));
    assert |rest| == |Messages(q)| - 1;
    forall k | 0 <= k < |rest| ensures rest[k] == (Messages(q)[..i] + Messages(q)[i + 1..])[k] {}
  }

  /** Acknowledged, a message is gone from its queue, and nothing else changes. */
  lemma AcknowledgedLeaves(b: Broker, name: Name, i: nat)
    requires BindingsHold(b) && name in b.queues && i < |b.queues[name].unacked|
    ensures var q := b.queues[name]; var after := SettleAt(b, name, i, Ack);
            && OnlyQueue(b, after, name) && Messages(after.queues[name]) == Messages(q)[..i] + Messages(q)[i + 1..]
            && after.queues[name].acked == q.acked + {q.unacked[i].message.copy} && after.queues[name].gone == q.gone
  {
    WithoutMessages(b.queues[name], i);
  }

  lemma PutBackMessages(q: Queue, i: nat)
    requires Idle(q) && q.consumer.Some? && i < |q.unacked|
    ensures Messages(PutBack(q, i)) == Messages(q)[..i] + Messages(q)[i + 1..] + [q.unacked[i].message.(redelivered := true)]
  {
    WithoutMessages(q, i);
    assert Messages(PutBack(q, i)) == Messages(Without(q, i)) + [q.unacked[i].message.(redelivered := true)];
  }

  /** Requeued, it comes last of what its consumer holds, marked as delivered before, and nothing else changes. */
  lemma RequeuedLeaves(b: Broker, name: Name, i: nat)
    requires BrokerInv(b) && name in b.queues && i < |b.queues[name].unacked| && b.queues[name].consumer.Some?
    ensures var q := b.queues[name]; var after := SettleAt(b, name, i, Requeue);
            && OnlyQueue(b, after, name) && Gained(q, after.queues[name], 0)
            && Messages(after.queues[name])
               == Messages(q)[..i] + Messages(q)[i + 1..] + [q.unacked[i].message.(redelivered := true)]
  {
    var q := b.queues[name];
    assert Idle(q);
    PutBackMessages(q, i);
    DispatchPlaces(b, name, PutBack(q, i));
    DrainedMessages(PutBack(q, i), b.tag);
    DrainedHolds(PutBack(q, i), b.tag);
  }

  /** The queues once a message has left one of them for good, before it is sent on. */
  function LeftBy(b: Broker, name: Name, q: Queue): Broker { b.(queues := b.queues[name := q]) }

  /** Rejected, a message is gone from its queue and then goes where its queue's dead messages go; nowhere else
      does anything change. */
  lemma RejectedGoes(b: Broker, name: Name, i: nat)
    requires BindingsHold(b) && name in b.queues && i < |b.queues[name].unacked|
    ensures var q := b.queues[name]; var m := q.unacked[i].message;
            var left := LeftBy(b, name, Without(q, i).(gone := q.gone + {m.copy}));
            && SettleAt(b, name, i, Reject) == DeadLetterOrLose(left, name, m, Rejected)
            && OnlyQueue(b, left, name)
            && Messages(left.queues[name]) == Messages(q)[..i] + Messages(q)[i + 1..]
  {
    WithoutMessages(b.queues[name], i);
  }

  lemma ForgottenMessages(q: Queue, i: nat)
    requires i < |q.ready|
    ensures var at := |q.unacked| + i; Messages(Forgotten(q, i)) == Messages(q)[..at] + Messages(q)[at + 1..]
  {}

  /** So does an expired one. */
  lemma ExpiredGoes(b: Broker, name: Name, i: nat)
    requires BindingsHold(b) && name in b.queues && Conserved(b.queues[name])
    requires b.queues[name].options.ttl.Some? && i < |b.queues[name].ready|
    requires !b.queues[name].ready[i].redelivered
    ensures var q := b.queues[name]; var m := q.ready[i]; var at := |q.unacked| + i;
            var left := LeftBy(b, name, Forgotten(q, i));
            && Expire(b, name, m.copy) == DeadLetterOrLose(left, name, m, Expired)
            && OnlyQueue(b, left, name)
            && Messages(left.queues[name]) == Messages(q)[..at] + Messages(q)[at + 1..]
  {
    var q := b.queues[name];
    ExpireIs(b, name, i, q.ready[i].copy);
    ForgottenMessages(q, i);
  }

  /** A timer does nothing to a message that was delivered, though it waits again, or that has left its queue. */
  lemma ExpiresNothingElse(b: Broker, name: Name, copy: nat)
    requires BrokerInv(b)
    requires name !in b.queues || b.queues[name].options.ttl.None?
             || forall m <- b.queues[name].ready :: m.copy != copy || m.redelivered
    ensures Expire(b, name, copy) == b
  {
    if name in b.queues && b.queues[name].options.ttl.Some? {
      forall i | 0 <= i < |b.queues[name].ready| ensures !IsWaiting(b.queues[name], i, copy) {
        assert b.queues[name].ready[i] in b.queues[name].ready;
      }
    }
  }

  // ----- consumers

  /** What a closing channel's queues held unsettled waits again, first and in the order it was delivered, marked
      as delivered before; other channels' queues are as they were. */
  lemma ClosedLeaves(b: Broker, channel: ChannelId, name: Name)
    requires name in b.queues
    ensures name in Close(b, channel).queues && Close(b, channel).exchanges == b.exchanges && Close(b, channel).tag == b.tag
    ensures var q, after := b.queues[name], Close(b, channel).queues[name];
            if q.consumer != Some(channel) then after == q
            else
              && after.consumer.None? && after.unacked == [] && after.options == q.options && Gained(q, after, 0)
              && |after.ready| == |q.unacked| + |q.ready|
              && (forall i | 0 <= i < |q.unacked| :: after.ready[i] == q.unacked[i].message.(redelivered := true))
              && forall i | 0 <= i < |q.ready| :: after.ready[|q.unacked| + i] == q.ready[i]
  {}

  /** A consumer is handed everything that waited, and of the rest nothing changes. */
  lemma ConsumedLeaves(b: Broker, channel: ChannelId, name: Name)
    requires name in b.queues
    ensures var q, after := b.queues[name], Consume(b, channel, name);
            && after.queues.Keys == b.queues.Keys && after.exchanges == b.exchanges
            && (forall n <- b.queues | n != name :: after.queues[n] == b.queues[n])
            && after.queues[name].consumer == Some(channel) && after.queues[name].ready == []
            && Messages(after.queues[name]) == Messages(q) && Gained(q, after.queues[name], 0)
            && after.queues[name].options == q.options
  {
    var q := b.queues[name].(consumer := Some(channel));
    DispatchPlaces(b, name, q);
    DrainedMessages(q, b.tag);
    DrainedHolds(q, b.tag);
    DrainedHands(q, b.tag);
    assert Messages(q) == Messages(b.queues[name]);
  }
}
