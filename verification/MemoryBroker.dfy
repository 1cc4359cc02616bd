/** The in-memory broker itself: a class whose methods move messages between its queues in place, proved
    to leave what the functions of `BrokerQueues` say. */
module MemoryBroker {
  import opened Wrappers
  import opened BrokerQueues
  import opened BrokerRuns

  class Memory {
    var queues: map<Name, Queue>
    var exchanges: map<Name, Exchange>
    var deliveryTag: nat

    function State(): Broker
      reads this
    {
      Broker(queues, exchanges, deliveryTag)
    }

    ghost predicate Valid()
      reads this
    {
      BrokerInv(State())
    }

    constructor ()
      ensures Valid() && State() == EMPTY
    {
      queues, exchanges, deliveryTag := map[], map[], 0;
    }

    method AssertQueue(name: Name, options: Options)
      requires Valid()
      modifies this`queues
      ensures Valid() && State() == BrokerQueues.AssertQueue(old(State()), name, options)
    {
      AssertQueueKeeps(State(), name, options);
      if name !in queues {
        queues := queues[name := Queue(options, [], [], None, 0, {}, {})];
      }
    }

    method AssertExchange(name: Name, kind: Kind)
      requires Valid()
      modifies this`exchanges
      ensures Valid() && State() == BrokerQueues.AssertExchange(old(State()), name, kind)
    {
      ExchangeKeeps(State(), name, kind, "", "");
      if name !in exchanges {
        exchanges := exchanges[name := Exchange(kind, [])];
      }
    }

    method BindQueue(queue: Name, exchange: Name, pattern: string) returns (found: bool)
      requires Valid()
      modifies this`exchanges
      ensures Valid() && State() == Bind(old(State()), queue, exchange, pattern)
      ensures found <==> exchange in old(exchanges) && queue in queues
    {
      ExchangeKeeps(State(), exchange, Direct, queue, pattern);
      if exchange !in exchanges || queue !in queues {
        return false;
      }
      var target := exchanges[exchange];
      if Binding(queue, pattern) !in target.bindings {
        exchanges := exchanges[exchange := target.(bindings := target.bindings + [Binding(queue, pattern)])];
      }
      return true;
    }

    method Consume(channel: ChannelId, name: Name) returns (found: bool)
      requires Valid()
      modifies this`queues, this`deliveryTag
      ensures Valid() && State() == BrokerQueues.Consume(old(State()), channel, name)
      ensures found <==> name in old(queues)
    {
      ConsumeKeeps(State(), channel, name);
      if name !in queues {
        return false;
      }
      queues := queues[name := queues[name].(consumer := Some(channel))];
      Dispatch(name);
      return true;
    }

    /** False: no such exchange. */
    method Publish(exchange: Name, key: string, body: string) returns (sent: bool)
      requires Valid()
      modifies this`queues, this`deliveryTag
      ensures Valid() && State() == Next(old(State()), Publishes(exchange, key, body))
      ensures sent <==> Route(old(State()), exchange, key).Some?
    {
      StepKeeps(State(), Publishes(exchange, key, body));
      sent := Send(exchange, key, body, []);
    }

    method Send(exchange: Name, key: string, body: string, deaths: seq<Death>) returns (sent: bool)
      requires BindingsHold(State())
      modifies this`queues, this`deliveryTag
      ensures sent <==> BrokerQueues.Send(old(State()), exchange, key, body, deaths).Some?
      ensures State() == if sent then BrokerQueues.Send(old(State()), exchange, key, body, deaths).value else old(State())
    {
      var routed := Route(State(), exchange, key);
      if routed.None? {
        return false;
      }
      RouteHolds(State(), exchange, key);
      var targets := Distinct(routed.value);
      var m := Message(0, body, exchange, key, false, deaths);
      var i := 0;
      while i < |targets|
        invariant 0 <= i <= |targets|
        invariant forall name <- targets :: name in queues
        invariant EnqueueAll(State(), targets[i..], m) == EnqueueAll(old(State()), targets, m)
      {
        assert targets[i] in targets && targets[i..][0] == targets[i] && targets[i..][1..] == targets[i + 1..];
        Enqueue(targets[i], m);
        i := i + 1;
      }
      return true;
    }

    method Enqueue(name: Name, m: Message)
      requires name in queues
      modifies this`queues, this`deliveryTag
      ensures State() == BrokerQueues.Enqueue(old(State()), name, m)
      ensures queues.Keys == old(queues).Keys
    {
      var q := queues[name];
      queues := queues[name := q.(ready := q.ready + [m.(copy := q.arrivals)], arrivals := q.arrivals + 1)];
      Dispatch(name);
    }

    method Dispatch(name: Name)
      requires name in queues
      modifies this`queues, this`deliveryTag
      ensures State() == BrokerQueues.Dispatch(old(State()), name)
      ensures queues.Keys == old(queues).Keys
    {
      while queues[name].consumer.Some? && queues[name].ready != []
        invariant name in queues && queues.Keys == old(queues).Keys
        invariant Drained(queues[name], deliveryTag) == Drained(old(queues)[name], old(deliveryTag))
        invariant TagAfter(queues[name], deliveryTag) == TagAfter(old(queues)[name], old(deliveryTag))
        invariant forall other <- queues | other != name :: queues[other] == old(queues)[other]
        decreases |queues[name].ready|
      {
        var q := queues[name];
        deliveryTag := deliveryTag + 1;
        queues := queues[name := q.(ready := q.ready[1..], unacked := q.unacked + [Delivery(deliveryTag, q.ready[0])])];
      }
      assert queues == old(queues)[name := queues[name]];
    }

    /** False: the exchange named is missing, which the caller throws. */
    method DeadLetter(name: Name, m: Message, reason: Reason) returns (sent: bool)
      requires name in queues && BindingsHold(State())
      modifies this`queues, this`deliveryTag
      ensures State() == DeadLetterOrLose(old(State()), name, m, reason)
      ensures sent <==> BrokerQueues.DeadLetter(old(State()), name, m, reason).Some?
    {
      var options := queues[name].options;
      if options.deadLetterExchange.None? {
        return true;
      }
      var key := if options.deadLetterKey.Some? then options.deadLetterKey.value else m.key;
      sent := Send(options.deadLetterExchange.value, key, m.body, [Death(reason, name, m.exchange, m.key)] + m.deaths);
    }

    /** The place of a tag among the deliveries unsettled. */
    method FindTag(unacked: seq<Delivery>, tag: nat) returns (at: Option<nat>)
      ensures at.Some? ==> at.value < |unacked| && unacked[at.value].tag == tag
      ensures at.None? ==> forall i | 0 <= i < |unacked| :: unacked[i].tag != tag
    {
      var i := 0;
      while i < |unacked|
        invariant 0 <= i <= |unacked|
        invariant forall j | 0 <= j < i :: unacked[j].tag != tag
      {
        if unacked[i].tag == tag {
          return Some(i);
        }
        i := i + 1;
      }
      return None;
    }

    /** Looks through the queues for a delivery of this channel's under the tag. */
    method Locate(channel: ChannelId, tag: nat) returns (name: Name, at: Option<nat>)
      ensures at.Some? ==> Settles(State(), name, at.value, channel, tag)
      ensures at.None? ==> forall n, i :: !Settles(State(), n, i, channel, tag)
    {
      name, at := "", None;
      var todo := queues.Keys;
      while todo != {}
        invariant todo <= queues.Keys
        invariant forall n, i :: Settles(State(), n, i, channel, tag) ==> n in todo
        decreases |todo|
      {
        name :| name in todo;
        if queues[name].consumer == Some(channel) {
          at := FindTag(queues[name].unacked, tag);
          if at.Some? {
            return;
          }
        }
        todo := todo - {name};
      }
      at := None;
    }

    /** False: no such delivery of this channel, which the caller throws. */
    method Settle(channel: ChannelId, tag: nat, how: Settlement) returns (known: bool)
      requires Valid()
      modifies this`queues, this`deliveryTag
      ensures Valid() && State() == BrokerRuns.Settle(old(State()), channel, tag, how)
      ensures known <==> exists name, i :: Settles(old(State()), name, i, channel, tag)
    {
      var name, at := Locate(channel, tag);
      if at.None? {
        return false;
      }
      SettleIs(State(), name, at.value, channel, tag, how);
      SettleKeeps(State(), name, at.value, how);
      SettleIn(name, at.value, how);
      return true;
    }

    method SettleIn(name: Name, i: nat, how: Settlement)
      requires BindingsHold(State()) && name in queues && i < |queues[name].unacked|
      modifies this`queues, this`deliveryTag
      ensures State() == SettleAt(old(State()), name, i, how)
    {
      var q := queues[name];
      var m := q.unacked[i].message;
      var rest := q.unacked[..i] + q.unacked[i + 1..];
      match how
      case Ack =>
        queues := queues[name := q.(unacked := rest, acked := q.acked + {m.copy})];
      case Requeue =>
        queues := queues[name := q.(unacked := rest, ready := [m.(redelivered := true)] + q.ready)];
        Dispatch(name);
      case Reject =>
        queues := queues[name := q.(unacked := rest, gone := q.gone + {m.copy})];
        var sent := DeadLetter(name, m, Rejected);
    }

    /** Where the message still waits as it first came. */
    method FindWaiting(q: Queue, copy: nat) returns (at: Option<nat>)
      ensures at.Some? ==> IsWaiting(q, at.value, copy)
      ensures at.None? ==> forall i :: !IsWaiting(q, i, copy)
    {
      var i := 0;
      while i < |q.ready|
        invariant 0 <= i <= |q.ready|
        invariant forall j | 0 <= j < i :: !IsWaiting(q, j, copy)
      {
        if q.ready[i].copy == copy && !q.ready[i].redelivered {
          return Some(i);
        }
        i := i + 1;
      }
      return None;
    }

    method ForgetAt(name: Name, i: nat)
      requires BindingsHold(State()) && name in queues && i < |queues[name].ready|
      modifies this`queues, this`deliveryTag
      ensures State() == ExpireAt(old(State()), name, i)
    {
      var q := queues[name];
      var m := q.ready[i];
      queues := queues[name := q.(ready := q.ready[..i] + q.ready[i + 1..], gone := q.gone + {m.copy})];
      var sent := DeadLetter(name, m, Expired);
    }

    /** A message's timer runs out. */
    method OnTimer(name: Name, copy: nat)
      requires Valid()
      modifies this`queues, this`deliveryTag
      ensures Valid() && State() == Expire(old(State()), name, copy)
    {
      if name !in queues || queues[name].options.ttl.None? {
        return;
      }
      var at := FindWaiting(queues[name], copy);
      if at.None? {
        return;
      }
      assert Conserved(queues[name]);
      ExpireIs(State(), name, at.value, copy);
      ExpireAtKeeps(State(), name, at.value);
      ForgetAt(name, at.value);
    }

    method ReleaseAll(channel: ChannelId)
      modifies this`queues
      ensures queues == map name <- old(queues) :: Closed(old(queues)[name], channel)
    {
      var todo := queues.Keys;
      while todo != {}
        invariant todo <= queues.Keys == old(queues).Keys
        invariant forall name <- queues ::
          queues[name] == if name in todo then old(queues)[name] else Closed(old(queues)[name], channel)
        decreases |todo|
      {
        var name :| name in todo;
        var q := queues[name];
        if q.consumer == Some(channel) {
          queues := queues[name := q.(consumer := None, ready := Returned(q.unacked) + q.ready, unacked := [])];
        }
        todo := todo - {name};
      }
    }

    method CloseChannel(channel: ChannelId)
      requires Valid()
      modifies this`queues
      ensures Valid() && State() == Close(old(State()), channel)
    {
      CloseKeeps(State(), channel);
      ReleaseAll(channel);
      assert queues == Close(old(State()), channel).queues;
    }
  }
}
