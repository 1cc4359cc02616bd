/** Chat storage: channels, numbered messages and read positions, and what each operation leaves. */
module ChatStorage {
  import opened Sets
  import opened Wrappers

  type OrderId = nat
  type UserId = nat
  type ClientId = nat

  /** Moments and spans are in microseconds, the precision of a stored timestamp. */
  const SECOND := 1_000_000

  const WINDOW := 60 * SECOND
  const SEND_LIMIT := 20
  const MAX_SEQ := 2_147_483_647

  datatype Channel = Channel(latestSeq: nat, createdAt: int)

  /** The primary key of a message. */
  datatype MessageId = MessageId(order: OrderId, number: nat)

  datatype Message = Message(client: ClientId, sender: UserId, body: string, sentAt: int)

  datatype Reader = Reader(order: OrderId, user: UserId)

  datatype Chat = Chat(channels: map<OrderId, Channel>, messages: map<MessageId, Message>, positions: map<Reader, nat>)

  const EMPTY := Chat(map[], map[], map[])

  datatype Request = Request(order: OrderId, sender: UserId, client: ClientId, body: string)

  datatype SendAttempt =
    | Sent(id: MessageId, message: Message, created: bool)
    | Limited(retryAfter: int)
    | Closed
    | Failed

  // ----- what a sender has sent

  /** The sender's messages, on any channel, stamped after `since`. */
  function SentAfter(messages: map<MessageId, Message>, sender: UserId, since: int): set<MessageId> {
    set id <- messages | messages[id].sender == sender && messages[id].sentAt > since
  }

  /** The sender's messages in the window that ends at `at`: open at its start, closed at its end. */
  function SentIn(messages: map<MessageId, Message>, sender: UserId, at: int): set<MessageId> {
    set id <- messages | messages[id].sender == sender && at - WINDOW < messages[id].sentAt <= at
  }

  function Recent(messages: map<MessageId, Message>, sender: UserId, now: int): set<MessageId> {
    SentAfter(messages, sender, now - WINDOW)
  }

  predicate UnderLimit(messages: map<MessageId, Message>, sender: UserId, now: int) {
    |Recent(messages, sender, now)| < SEND_LIMIT
  }

  ghost function Oldest(ids: set<MessageId>, messages: map<MessageId, Message>): (at: int)
    requires ids != {} && ids <= messages.Keys
    ensures exists id <- ids :: messages[id].sentAt == at
    ensures forall id <- ids :: at <= messages[id].sentAt
    decreases |ids|
  {
    var id :| id in ids;
    var rest := ids - {id};
    if rest == {} then
      assert ids == {id};
      messages[id].sentAt
    else
      assert ids == rest + {id};
      var least := Oldest(rest, messages);
      if messages[id].sentAt < least then messages[id].sentAt else least
  }

  function CeilSeconds(span: int): int { -(-span / SECOND) }

  /** Whole seconds until the oldest recent message leaves the window, at least one. */
  ghost function RetryAfter(messages: map<MessageId, Message>, sender: UserId, now: int): int
    requires Recent(messages, sender, now) != {}
  {
    var wait := CeilSeconds(Oldest(Recent(messages, sender, now), messages) + WINDOW - now);
    if wait < 1 then 1 else wait
  }

  // ----- operations

  predicate IsSent(m: Message, id: MessageId, r: Request) {
    id.order == r.order && m.sender == r.sender && m.client == r.client
  }

  function Matches(messages: map<MessageId, Message>, r: Request): set<MessageId> {
    set id <- messages | IsSent(messages[id], id, r)
  }

  function Open(c: Chat, order: OrderId, now: int): Chat {
    if order in c.channels then c else c.(channels := c.channels[order := Channel(0, now)])
  }

  /** A new message as the channel's next number, stamped when written. */
  function Store(c: Chat, r: Request, stamped: int): Chat
    requires r.order in c.channels
  {
    var channel := c.channels[r.order];
    var id := MessageId(r.order, channel.latestSeq + 1);
    c.(channels := c.channels[r.order := channel.(latestSeq := channel.latestSeq + 1)],
       messages := c.messages[id := Message(r.client, r.sender, r.body, stamped)])
  }

  /** A send that counts the sender's messages at `counted` and stamps a new one at `stamped`. A number
      past the column's range fails, storing nothing. */
  ghost function Send(c: Chat, r: Request, counted: int, stamped: int): (SendAttempt, Chat) {
    if r.order !in c.channels then (Closed, c)
    else if Matches(c.messages, r) != {} then
      var id :| id in Matches(c.messages, r);
      (Sent(id, c.messages[id], false), c)
    else if !UnderLimit(c.messages, r.sender, counted) then
      (Limited(RetryAfter(c.messages, r.sender, counted)), c)
    else if c.channels[r.order].latestSeq == MAX_SEQ then (Failed, c)
    else
      var id := MessageId(r.order, c.channels[r.order].latestSeq + 1);
      (Sent(id, Message(r.client, r.sender, r.body, stamped), true), Store(c, r, stamped))
  }

  function LastRead(c: Chat, reader: Reader): nat { if reader in c.positions then c.positions[reader] else 0 }

  /** Only forward; refused by the foreign key when the channel is gone. */
  function MarkRead(c: Chat, reader: Reader, number: nat): (Option<nat>, Chat) {
    if reader.order !in c.channels then (None, c)
    else
      var position := if LastRead(c, reader) > number then LastRead(c, reader) else number;
      (Some(position), c.(positions := c.positions[reader := position]))
  }

  /** The channel goes with its messages and read positions. */
  function Delete(c: Chat, order: OrderId): Chat {
    Chat(c.channels - {order},
         map id <- c.messages | id.order != order :: c.messages[id],
         map reader <- c.positions | reader.order != order :: c.positions[reader])
  }

  // ----- runs

  datatype Command =
    | Opens(order: OrderId, now: int)
    | Sends(request: Request, counted: int, stamped: int)
    | Marks(reader: Reader, number: nat)
    | Deletes(order: OrderId)

  ghost function Apply(c: Chat, command: Command): Chat {
    match command
    case Opens(order, now) => Open(c, order, now)
    case Sends(request, counted, stamped) => Send(c, request, counted, stamped).1
    case Marks(reader, number) => MarkRead(c, reader, number).1
    case Deletes(order) => Delete(c, order)
  }

  /** The clock does not run backwards between counting and writing. */
  predicate Timely(command: Command) { command.Sends? ==> command.counted <= command.stamped }

  ghost function Run(c: Chat, commands: seq<Command>): Chat
    decreases |commands|
  {
    if commands == [] then c else Run(Apply(c, commands[0]), commands[1..])
  }

  // ----- what every run keeps

  /** Every channel's messages are numbered exactly 1 to its `latestSeq`. */
  ghost predicate Numbered(c: Chat) {
    && (forall o, k: nat :: MessageId(o, k) in c.messages <==> o in c.channels && 1 <= k <= c.channels[o].latestSeq)
    && (forall o <- c.channels :: c.channels[o].latestSeq <= MAX_SEQ)
  }

  /** A sender's client identifier names at most one message of a channel. */
  ghost predicate SentOnce(messages: map<MessageId, Message>) {
    forall i <- messages, j <- messages ::
      i.order == j.order && messages[i].sender == messages[j].sender && messages[i].client == messages[j].client ==> i == j
  }

  /** No window of a minute, ending at any moment, holds more of a sender's messages than the limit. */
  ghost predicate WithinRate(messages: map<MessageId, Message>) {
    forall sender, at :: |SentIn(messages, sender, at)| <= SEND_LIMIT
  }

  ghost predicate Inv(c: Chat) {
    Numbered(c) && SentOnce(c.messages) && WithinRate(c.messages)
    && (forall reader <- c.positions :: reader.order in c.channels)
  }

  /** Fewer messages never break the rate. */
  lemma FewerWithinRate(before: map<MessageId, Message>, after: map<MessageId, Message>)
    requires WithinRate(before)
    requires forall id <- after :: id in before && before[id] == after[id]
    ensures WithinRate(after)
  {
    forall sender, at ensures |SentIn(after, sender, at)| <= SEND_LIMIT {
      SubsetIsNoLarger(SentIn(after, sender, at), SentIn(before, sender, at));
    }
  }

  /** One more message, written no earlier than the count that admitted it, keeps the rate. */
  lemma AdmittedKeepsRate(messages: map<MessageId, Message>, id: MessageId, m: Message, counted: int)
    requires WithinRate(messages) && UnderLimit(messages, m.sender, counted) && counted <= m.sentAt
    requires id !in messages
    ensures WithinRate(messages[id := m])
  {
    var after := messages[id := m];
    forall sender, at ensures |SentIn(after, sender, at)| <= SEND_LIMIT {
      if id in SentIn(after, sender, at) {
        var recent := Recent(messages, sender, counted);
        SubsetIsNoLarger(SentIn(after, sender, at), recent + {id});
      } else {
        assert SentIn(after, sender, at) == SentIn(messages, sender, at);
      }
    }
  }

  lemma StoreKeepsNumbers(c: Chat, r: Request, stamped: int)
    requires Numbered(c) && r.order in c.channels && c.channels[r.order].latestSeq < MAX_SEQ
    ensures Numbered(Store(c, r, stamped))
  {}

  lemma StoreKeeps(c: Chat, r: Request, counted: int, stamped: int)
    requires Inv(c) && r.order in c.channels && c.channels[r.order].latestSeq < MAX_SEQ
    requires Matches(c.messages, r) == {} && UnderLimit(c.messages, r.sender, counted) && counted <= stamped
    ensures Inv(Store(c, r, stamped))
  {
    StoreKeepsNumbers(c, r, stamped);
    var id := MessageId(r.order, c.channels[r.order].latestSeq + 1);
    AdmittedKeepsRate(c.messages, id, Message(r.client, r.sender, r.body, stamped), counted);
    var after := Store(c, r, stamped).messages;
    forall i <- c.messages ensures !IsSent(c.messages[i], i, r) {
      assert i !in Matches(c.messages, r);
    }
    assert SentOnce(after);
  }

  lemma ApplyKeeps(c: Chat, command: Command)
    requires Inv(c) && Timely(command)
    ensures Inv(Apply(c, command))
  {
    match command
    case Sends(r, counted, stamped) =>
      if Send(c, r, counted, stamped).1 != c {
        StoreKeeps(c, r, counted, stamped);
      }
    case Deletes(order) =>
      FewerWithinRate(c.messages, Delete(c, order).messages);
    case _ =>
  }

  /** Any commands, in any order and for any channels: messages are numbered 1 to `latestSeq`, each is
      stored once per client identifier, and no minute holds more than twenty of one sender's. */
  lemma {:induction false} RunKeeps(c: Chat, commands: seq<Command>)
    requires Inv(c) && forall command <- commands :: Timely(command)
    ensures Inv(Run(c, commands))
    decreases |commands|
  {
    if commands != [] {
      ApplyKeeps(c, commands[0]);
      RunKeeps(Apply(c, commands[0]), commands[1..]);
    }
  }

  // ----- a send repeated

  lemma MessageStays(c: Chat, command: Command, id: MessageId)
    requires Inv(c) && Timely(command) && id in c.messages && command != Deletes(id.order)
    ensures var after := Apply(c, command);
            && id in after.messages && after.messages[id] == c.messages[id] && id.order in after.channels
  {
    assert id == MessageId(id.order, id.number);
  }

  lemma {:induction false} MessageStaysThrough(c: Chat, commands: seq<Command>, id: MessageId)
    requires Inv(c) && (forall command <- commands :: Timely(command)) && id in c.messages
    requires Deletes(id.order) !in commands
    ensures var after := Run(c, commands);
            && id in after.messages && after.messages[id] == c.messages[id] && id.order in after.channels
    decreases |commands|
  {
    assert id == MessageId(id.order, id.number);
    if commands != [] {
      ApplyKeeps(c, commands[0]);
      MessageStays(c, commands[0], id);
      MessageStaysThrough(Apply(c, commands[0]), commands[1..], id);
    }
  }

  /** A send repeated, at any later time and whatever ran in between, even over the limit, answers the
      message first stored and stores nothing, until the channel is deleted. */
  lemma ResendAnswersTheStored(c: Chat, r: Request, counted: int, stamped: int, between: seq<Command>, again: Request,
                               recounted: int, restamped: int)
    requires Inv(c) && counted <= stamped && Send(c, r, counted, stamped).0.Sent?
    requires (forall command <- between :: Timely(command)) && Deletes(r.order) !in between
    requires again.order == r.order && again.sender == r.sender && again.client == r.client
    ensures var first := Send(c, r, counted, stamped);
            var later := Run(first.1, between);
            Send(later, again, recounted, restamped) == (first.0.(created := false), later)
  {
    var (answer, after) := Send(c, r, counted, stamped);
    ApplyKeeps(c, Sends(r, counted, stamped));
    if !answer.created { assert answer.id in Matches(c.messages, r); }
    assert answer.id in after.messages && after.messages[answer.id] == answer.message;
    var later := Run(after, between);
    RunKeeps(after, between);
    MessageStaysThrough(after, between, answer.id);
    assert answer.id in Matches(later.messages, again);
    forall id <- Matches(later.messages, again) ensures id == answer.id {}
  }

  // ----- the wait a refused sender is told

  lemma CeilIsLeast(span: int, k: int)
    ensures k >= CeilSeconds(span) <==> k * SECOND >= span
  {}

  /** Later, the recent messages are those of the old ones that have not yet left. */
  lemma RecentShrinks(messages: map<MessageId, Message>, sender: UserId, now: int, later: int)
    requires now <= later
    requires forall id <- messages :: messages[id].sentAt <= now
    requires WithinRate(messages) && !UnderLimit(messages, sender, now)
    ensures Recent(messages, sender, now) != {}
    ensures UnderLimit(messages, sender, later) <==>
            later >= Oldest(Recent(messages, sender, now), messages) + WINDOW
  {
    var recent := Recent(messages, sender, now);
    assert recent == SentIn(messages, sender, now);
    var oldest := Oldest(recent, messages);
    if later >= oldest + WINDOW {
      var first :| first in recent && messages[first].sentAt == oldest;
      SubsetIsNoLarger(Recent(messages, sender, later), recent - {first});
    } else {
      SubsetIsNoLarger(recent, Recent(messages, sender, later));
    }
  }

  /** The seconds a refused sender is told to wait are the least whole number, at least one, after which a
      send is admitted if the sender stores nothing meanwhile; and they are at most a minute. */
  lemma RetryAfterIsLeast(c: Chat, sender: UserId, now: int, k: int)
    requires Inv(c) && (forall id <- c.messages :: c.messages[id].sentAt <= now)
    requires !UnderLimit(c.messages, sender, now) && k >= 1
    ensures Recent(c.messages, sender, now) != {}
    ensures UnderLimit(c.messages, sender, now + k * SECOND) <==> k >= RetryAfter(c.messages, sender, now)
    ensures 1 <= RetryAfter(c.messages, sender, now) <= 60
  {
    RecentShrinks(c.messages, sender, now, now + k * SECOND);
    var oldest := Oldest(Recent(c.messages, sender, now), c.messages);
    CeilIsLeast(oldest + WINDOW - now, k);
    CeilIsLeast(oldest + WINDOW - now, 60);
  }
}
