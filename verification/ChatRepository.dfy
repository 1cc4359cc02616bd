/** The chat repository itself: a class over the stored tables, each method one transaction, proved to
    leave what the functions of `ChatStorage` say. The database clock arrives as arguments. */
module ChatRepository {
  import opened Wrappers
  import opened ChatStorage

  class Repository {
    var channels: map<OrderId, Channel>
    var messages: map<MessageId, Message>
    var positions: map<Reader, nat>

    function State(): Chat
      reads this
    {
      Chat(channels, messages, positions)
    }

    ghost predicate Valid()
      reads this
    {
      Inv(State())
    }

    constructor ()
      ensures Valid() && State() == EMPTY
    {
      channels, messages, positions := map[], map[], map[];
    }

    method LatestSeq(order: OrderId) returns (latest: Option<nat>)
      ensures latest.Some? <==> order in channels
      ensures latest.Some? ==> latest.value == channels[order].latestSeq
    {
      return if order in channels then Some(channels[order].latestSeq) else None;
    }

    method Open(order: OrderId, now: int) returns (latest: nat)
      requires Valid()
      modifies this`channels
      ensures Valid() && State() == ChatStorage.Open(old(State()), order, now)
      ensures order in channels && latest == channels[order].latestSeq
    {
      ApplyKeeps(State(), Opens(order, now));
      if order !in channels {
        channels := channels[order := Channel(0, now)];
      }
      latest := channels[order].latestSeq;
    }

    /** The one message a sender stored under a client identifier. */
    method FindSent(r: Request) returns (id: Option<MessageId>)
      requires Valid()
      ensures id.None? <==> Matches(messages, r) == {}
      ensures id.Some? ==> Matches(messages, r) == {id.value}
    {
      var found := Matches(messages, r);
      if found == {} {
        return None;
      }
      var one :| one in found;
      return Some(one);
    }

    /** None while the sender is under the limit. */
    method RetryAfter(sender: UserId, now: int) returns (wait: Option<int>)
      ensures wait.None? <==> UnderLimit(messages, sender, now)
      ensures wait.Some? ==>
                Recent(messages, sender, now) != {} && wait.value == ChatStorage.RetryAfter(messages, sender, now)
    {
      var recent := Recent(messages, sender, now);
      if |recent| < SEND_LIMIT {
        return None;
      }
      var oldest := OldestOf(recent);
      var seconds := CeilSeconds(oldest + WINDOW - now);
      return Some(if seconds < 1 then 1 else seconds);
    }

    method OldestOf(ids: set<MessageId>) returns (at: int)
      requires ids != {} && ids <= messages.Keys
      ensures at == Oldest(ids, messages)
    {
      var first :| first in ids;
      at := messages[first].sentAt;
      ghost var seen := first;
      var todo := ids - {first};
      while todo != {}
        invariant todo <= ids
        invariant seen in ids && messages[seen].sentAt == at
        invariant forall id <- ids - todo :: at <= messages[id].sentAt
        decreases |todo|
      {
        var id :| id in todo;
        if messages[id].sentAt < at {
          at, seen := messages[id].sentAt, id;
        }
        todo := todo - {id};
      }
      var least := Oldest(ids, messages);
      assert exists id <- ids :: messages[id].sentAt == least;
    }

    method Send(r: Request, counted: int, stamped: int) returns (answer: SendAttempt)
      requires Valid() && counted <= stamped
      modifies this`channels, this`messages
      ensures Valid() && (answer, State()) == ChatStorage.Send(old(State()), r, counted, stamped)
    {
      ApplyKeeps(State(), Sends(r, counted, stamped));
      if r.order !in channels {
        return Closed;
      }
      var stored := FindSent(r);
      if stored.Some? {
        return Sent(stored.value, messages[stored.value], false);
      }
      var wait := RetryAfter(r.sender, counted);
      if wait.Some? {
        return Limited(wait.value);
      }
      var channel := channels[r.order];
      if channel.latestSeq == MAX_SEQ {
        return Failed;
      }
      var id := MessageId(r.order, channel.latestSeq + 1);
      var message := Message(r.client, r.sender, r.body, stamped);
      messages := messages[id := message];
      channels := channels[r.order := channel.(latestSeq := id.number)];
      return Sent(id, message, true);
    }

    method MarkRead(reader: Reader, number: nat) returns (position: Option<nat>)
      requires Valid()
      modifies this`positions
      ensures Valid() && (position, State()) == ChatStorage.MarkRead(old(State()), reader, number)
      ensures position.Some? ==> position.value >= number && position.value >= old(LastRead(State(), reader))
    {
      ApplyKeeps(State(), Marks(reader, number));
      if reader.order !in channels {
        return None;
      }
      var last := if reader in positions then positions[reader] else 0;
      var moved := if last > number then last else number;
      positions := positions[reader := moved];
      return Some(moved);
    }

    method DeleteChannel(order: OrderId)
      requires Valid()
      modifies this
      ensures Valid() && State() == Delete(old(State()), order)
    {
      ApplyKeeps(State(), Deletes(order));
      channels := channels - {order};
      messages := map id <- messages | id.order != order :: messages[id];
      positions := map reader <- positions | reader.order != order :: positions[reader];
    }
  }
}
