/** The in-memory broker's queues and exchanges, and what each operation leaves. A queue also keeps the
    account of its copies: how many ever arrived, and which were acknowledged or left another way. */
module BrokerQueues {
  import opened Wrappers
  import opened TopicMatching

  type Name = string
  type ChannelId = nat

  datatype Reason = Rejected | Expired

  /** One entry of a message's `x-death` header. */
  datatype Death = Death(reason: Reason, queue: Name, exchange: Name, key: string)

  /** `copy` is the message's place in the order of arrival at its queue. */
  datatype Message = Message(copy: nat, body: string, exchange: Name, key: string, redelivered: bool, deaths: seq<Death>)

  datatype Delivery = Delivery(tag: nat, message: Message)

  datatype Options = Options(ttl: Option<nat>, deadLetterExchange: Option<Name>, deadLetterKey: Option<string>)

  datatype Queue = Queue(options: Options, ready: seq<Message>, unacked: seq<Delivery>, consumer: Option<ChannelId>,
                         arrivals: nat, acked: set<nat>, gone: set<nat>)

  datatype Kind = Fanout | Topic | Direct

  datatype Binding = Binding(queue: Name, pattern: string)

  datatype Exchange = Exchange(kind: Kind, bindings: seq<Binding>)

  datatype Broker = Broker(queues: map<Name, Queue>, exchanges: map<Name, Exchange>, tag: nat)

  const EMPTY := Broker(map[], map[], 0)

  function Remove<T>(s: seq<T>, i: nat): seq<T>
    requires i < |s|
  {
    s[..i] + s[i + 1..]
  }

  // ----- routing

  predicate Binds(kind: Kind, pattern: string, key: string) {
    match kind
    case Fanout => true
    case Topic => TopicMatches(pattern, key)
    case Direct => pattern == key
  }

  function Bound(kind: Kind, bindings: seq<Binding>, key: string): (names: seq<Name>)
    ensures forall name :: name in names <==>
                           exists b <- bindings :: b.queue == name && Binds(kind, b.pattern, key)
  {
    if bindings == [] then []
    else
      var rest := Bound(kind, bindings[1..], key);
      if Binds(kind, bindings[0].pattern, key) then [bindings[0].queue] + rest else rest
  }

  /** First occurrences, in order. */
  function Distinct(names: seq<Name>): (r: seq<Name>)
    ensures forall name :: name in r <==> name in names
    ensures forall i, j | 0 <= i < j < |r| :: r[i] != r[j]
  {
    if names == [] then []
    else
      var last := names[|names| - 1];
      var rest := Distinct(names[..|names| - 1]);
      assert names == names[..|names| - 1] + [last];
      if last in rest then rest else rest + [last]
  }

  /** None: there is no such exchange. */
  function Route(b: Broker, exchange: Name, key: string): Option<seq<Name>> {
    if exchange == "" then Some(if key in b.queues then [key] else [])
    else if exchange !in b.exchanges then None
    else Some(Bound(b.exchanges[exchange].kind, b.exchanges[exchange].bindings, key))
  }

  // ----- operations

  /** Hands everything waiting to the consumer, oldest first, under the tags after `tag`. */
  function Drained(q: Queue, tag: nat): Queue
    decreases |q.ready|
  {
    if q.consumer.None? || q.ready == [] then q
    else Drained(q.(ready := q.ready[1..], unacked := q.unacked + [Delivery(tag + 1, q.ready[0])]), tag + 1)
  }

  function Dispatch(b: Broker, name: Name): Broker
    requires name in b.queues
  {
    var q := b.queues[name];
    b.(queues := b.queues[name := Drained(q, b.tag)], tag := b.tag + if q.consumer.Some? then |q.ready| else 0)
  }

  function Arrived(q: Queue, m: Message): Queue {
    q.(ready := q.ready + [m.(copy := q.arrivals)], arrivals := q.arrivals + 1)
  }

  function Enqueue(b: Broker, name: Name, m: Message): Broker
    requires name in b.queues
  {
    Dispatch(b.(queues := b.queues[name := Arrived(b.queues[name], m)]), name)
  }

  function EnqueueAll(b: Broker, names: seq<Name>, m: Message): Broker
    requires forall name <- names :: name in b.queues
    decreases |names|
  {
    if names == [] then b else EnqueueAll(Enqueue(b, names[0], m), names[1..], m)
  }

  /** Every binding is of a queue there is. */
  predicate BindingsHold(b: Broker) {
    forall e <- b.exchanges, binding <- b.exchanges[e].bindings :: binding.queue in b.queues
  }

  lemma RouteHolds(b: Broker, exchange: Name, key: string)
    requires BindingsHold(b) && Route(b, exchange, key).Some?
    ensures forall name <- Route(b, exchange, key).value :: name in b.queues
  {}

  /** None: there is no such exchange, and nothing happens. */
  function Send(b: Broker, exchange: Name, key: string, body: string, deaths: seq<Death>): Option<Broker>
    requires BindingsHold(b)
  {
    if Route(b, exchange, key).None? then None
    else
      RouteHolds(b, exchange, key);
      Some(EnqueueAll(b, Distinct(Route(b, exchange, key).value), Message(0, body, exchange, key, false, deaths)))
  }

  function DeathsOf(name: Name, m: Message, reason: Reason): seq<Death> {
    [Death(reason, name, m.exchange, m.key)] + m.deaths
  }

  /** Dropped without a dead-letter exchange; None when the exchange named is missing. */
  function DeadLetter(b: Broker, name: Name, m: Message, reason: Reason): Option<Broker>
    requires name in b.queues && BindingsHold(b)
  {
    var options := b.queues[name].options;
    if options.deadLetterExchange.None? then Some(b)
    else
      var key := if options.deadLetterKey.Some? then options.deadLetterKey.value else m.key;
      Send(b, options.deadLetterExchange.value, key, m.body, DeathsOf(name, m, reason))
  }

  /** What follows when the exchange is missing: the message has left its queue all the same. */
  function DeadLetterOrLose(b: Broker, name: Name, m: Message, reason: Reason): Broker
    requires name in b.queues && BindingsHold(b)
  {
    var sent := DeadLetter(b, name, m, reason);
    if sent.Some? then sent.value else b
  }

  datatype Settlement = Ack | Requeue | Reject

  /** The unsettled delivery a channel may settle under a tag. */
  predicate Settles(b: Broker, name: Name, i: int, channel: ChannelId, tag: nat) {
    && name in b.queues && b.queues[name].consumer == Some(channel)
    && 0 <= i < |b.queues[name].unacked| && b.queues[name].unacked[i].tag == tag
  }

  function Without(q: Queue, i: nat): Queue
    requires i < |q.unacked|
  {
    q.(unacked := Remove(q.unacked, i))
  }

  function SettleAt(b: Broker, name: Name, i: nat, how: Settlement): Broker
    requires name in b.queues && i < |b.queues[name].unacked| && BindingsHold(b)
  {
    var q := b.queues[name];
    var m := q.unacked[i].message;
    var rest := Without(q, i);
    match how
    case Ack => b.(queues := b.queues[name := rest.(acked := q.acked + {m.copy})])
    case Requeue => Dispatch(b.(queues := b.queues[name := rest.(ready := [m.(redelivered := true)] + q.ready)]), name)
    case Reject => DeadLetterOrLose(b.(queues := b.queues[name := rest.(gone := q.gone + {m.copy})]), name, m, Rejected)
  }

  predicate IsWaiting(q: Queue, i: int, copy: nat) {
    0 <= i < |q.ready| && q.ready[i].copy == copy && !q.ready[i].redelivered
  }

  function ExpireAt(b: Broker, name: Name, i: nat): Broker
    requires name in b.queues && i < |b.queues[name].ready| && BindingsHold(b)
  {
    var q := b.queues[name];
    var m := q.ready[i];
    DeadLetterOrLose(b.(queues := b.queues[name := q.(ready := Remove(q.ready, i), gone := q.gone + {m.copy})]),
                     name, m, Expired)
  }

  /** A timer finds its message only while it waits and was never delivered. */
  ghost function Expire(b: Broker, name: Name, copy: nat): Broker
    requires BindingsHold(b)
  {
    if name in b.queues && b.queues[name].options.ttl.Some? && exists i :: IsWaiting(b.queues[name], i, copy) then
      var i :| IsWaiting(b.queues[name], i, copy);
      ExpireAt(b, name, i)
    else b
  }

  function Returned(unacked: seq<Delivery>): seq<Message> {
    seq(|unacked|, i requires 0 <= i < |unacked| => unacked[i].message.(redelivered := true))
  }

  /** What a closing channel held unsettled goes back, in the order it was delivered. */
  function Released(q: Queue): Queue {
    q.(consumer := None, ready := Returned(q.unacked) + q.ready, unacked := [])
  }

  function Close(b: Broker, channel: ChannelId): Broker {
    b.(queues := map name <- b.queues ::
                   if b.queues[name].consumer == Some(channel) then Released(b.queues[name]) else b.queues[name])
  }

  function Consume(b: Broker, channel: ChannelId, name: Name): Broker {
    if name !in b.queues then b
    else Dispatch(b.(queues := b.queues[name := b.queues[name].(consumer := Some(channel))]), name)
  }

  function AssertQueue(b: Broker, name: Name, options: Options): Broker {
    if name in b.queues then b else b.(queues := b.queues[name := Queue(options, [], [], None, 0, {}, {})])
  }

  function AssertExchange(b: Broker, name: Name, kind: Kind): Broker {
    if name in b.exchanges then b else b.(exchanges := b.exchanges[name := Exchange(kind, [])])
  }

  function Bind(b: Broker, queue: Name, exchange: Name, pattern: string): Broker {
    if exchange !in b.exchanges || queue !in b.queues then b
    else
      var e := b.exchanges[exchange];
      if Binding(queue, pattern) in e.bindings then b
      else b.(exchanges := b.exchanges[exchange := e.(bindings := e.bindings + [Binding(queue, pattern)])])
  }

  function Depth(q: Queue): nat { |q.ready| + |q.unacked| }

  // ----- the account of copies

  /** The copies a queue holds: those delivered and unsettled, then those waiting. */
  function Held(q: Queue): seq<nat> {
    seq(|q.unacked|, i requires 0 <= i < |q.unacked| => q.unacked[i].message.copy)
    + seq(|q.ready|, i requires 0 <= i < |q.ready| => q.ready[i].copy)
  }

  predicate NoRepeats(s: seq<nat>) { forall i, j | 0 <= i < j < |s| :: s[i] != s[j] }

  predicate Ascending(s: seq<nat>) { forall i, j | 0 <= i < j < |s| :: s[i] < s[j] }

  /** Every copy that arrived is held once, or acknowledged, or gone, and in one of these only. */
  ghost predicate Balanced(held: seq<nat>, arrivals: nat, acked: set<nat>, gone: set<nat>) {
    && NoRepeats(held) && acked !! gone
    && (forall n <- held :: n !in acked && n !in gone)
    && (forall n: nat :: n < arrivals <==> n in held || n in acked || n in gone)
  }

  ghost predicate Conserved(q: Queue) { Balanced(Held(q), q.arrivals, q.acked, q.gone) }

  lemma ArrivalBalances(held: seq<nat>, arrivals: nat, acked: set<nat>, gone: set<nat>)
    requires Balanced(held, arrivals, acked, gone)
    ensures Balanced(held + [arrivals], arrivals + 1, acked, gone)
    ensures Ascending(held) ==> Ascending(held + [arrivals])
  {
    forall n: nat ensures n < arrivals + 1 <==> n in held + [arrivals] || n in acked || n in gone {}
    assert forall i | 0 <= i < |held| :: held[i] in held;
  }

  lemma RemoveFacts(s: seq<nat>, i: nat)
    requires NoRepeats(s) && i < |s|
    ensures NoRepeats(Remove(s, i)) && (forall n :: n in Remove(s, i) <==> n in s && n != s[i])
    ensures Ascending(s) ==> Ascending(Remove(s, i))
  {
    forall n | n in s && n != s[i] ensures n in Remove(s, i) {
      var j :| 0 <= j < |s| && s[j] == n;
      assert j < i ==> Remove(s, i)[j] == n;
      assert j > i ==> Remove(s, i)[j - 1] == n;
    }
  }

  lemma LeavingBalances(held: seq<nat>, arrivals: nat, acked: set<nat>, gone: set<nat>, i: nat)
    requires Balanced(held, arrivals, acked, gone) && i < |held|
    ensures Balanced(Remove(held, i), arrivals, acked + {held[i]}, gone)
    ensures Balanced(Remove(held, i), arrivals, acked, gone + {held[i]})
    ensures Ascending(held) ==> Ascending(Remove(held, i))
  {
    RemoveFacts(held, i);
    assert held[i] in held;
  }

  /** A copy put back at the end keeps the account; and the order of arrival just when it was the last. */
  lemma ReturningBalances(held: seq<nat>, arrivals: nat, acked: set<nat>, gone: set<nat>, i: nat)
    requires Balanced(held, arrivals, acked, gone) && i < |held|
    ensures Balanced(Remove(held, i) + [held[i]], arrivals, acked, gone)
    ensures Ascending(held) ==> (Ascending(Remove(held, i) + [held[i]]) <==> i == |held| - 1)
  {
    RemoveFacts(held, i);
    var after := Remove(held, i) + [held[i]];
    forall n ensures n in after <==> n in held {
      assert held[i] in held && after[|after| - 1] == held[i];
    }
    if i == |held| - 1 {
      assert after == held;
    } else {
      assert after[|after| - 2] == held[|held| - 1] && after[|after| - 1] == held[i];
    }
  }

  function Numbers(n: nat): (r: set<nat>)
    ensures |r| == n && forall k: nat :: k in r <==> k < n
  {
    if n == 0 then {} else Numbers(n - 1) + {n - 1}
  }

  lemma {:induction false} Counted(s: seq<nat>, t: set<nat>)
    requires NoRepeats(s) && forall n :: n in s <==> n in t
    ensures |s| == |t|
  {
    if s == [] {
      assert t == {};
    } else {
      var last := s[|s| - 1];
      assert s == s[..|s| - 1] + [last];
      Counted(s[..|s| - 1], t - {last});
    }
  }

  /** What a queue holds is what arrived less what was acknowledged and what left another way. */
  lemma DepthIsBalance(q: Queue)
    requires Conserved(q)
    ensures Depth(q) == q.arrivals - |q.acked| - |q.gone|
  {
    var held := set n | n in Held(q);
    Counted(Held(q), held);
    assert Numbers(q.arrivals) == held + q.acked + q.gone;
  }
}
