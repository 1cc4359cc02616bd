/** Chat over whole histories: what a stored message says when its send is repeated, when a channel was opened,
    and how far its readers have read. */
module ChatHistory {
  import opened Wrappers
  import opened ChatStorage
  import opened ChatService
  import opened ChatAccess

  // ----- channels

  lemma StepOpened(c: Chat, command: Command, order: OrderId)
    ensures order in Apply(c, command).channels ==>
              var at := Apply(c, command).channels[order].createdAt;
              if order in c.channels then command != Deletes(order) && at == c.channels[order].createdAt
              else command == Opens(order, at)
  {}

  /** A channel's time of opening is that of the command that opened it, and stays so until it is deleted. */
  lemma {:induction false} OpenedWhenItSays(c: Chat, commands: seq<Command>, order: OrderId)
    requires order in Run(c, commands).channels
    ensures var at := Run(c, commands).channels[order].createdAt;
            || (order in c.channels && Deletes(order) !in commands && at == c.channels[order].createdAt)
            || Opens(order, at) in commands
    decreases |commands|
  {
    if commands != [] {
      StepOpened(c, commands[0], order);
      OpenedWhenItSays(Apply(c, commands[0]), commands[1..], order);
      assert commands == [commands[0]] + commands[1..];
    }
  }

  // ----- read positions

  /** The furthest of a reader's marks. */
  function Furthest(commands: seq<Command>, reader: Reader, start: nat): nat
    decreases |commands|
  {
    if commands == [] then start
    else
      var first := commands[0];
      Furthest(commands[1..], reader,
               if first.Marks? && first.reader == reader && first.number > start then first.number else start)
  }

  lemma StepMarks(c: Chat, command: Command, reader: Reader)
    requires reader.order in c.channels && command != Deletes(reader.order)
    ensures reader.order in Apply(c, command).channels
    ensures LastRead(Apply(c, command), reader)
         == if command.Marks? && command.reader == reader && command.number > LastRead(c, reader) then command.number
            else LastRead(c, reader)
  {}

  /** While a channel stands, each reader's position is the furthest they have marked, whatever others do. */
  lemma {:induction false} PositionIsFurthest(c: Chat, commands: seq<Command>, reader: Reader)
    requires reader.order in c.channels && Deletes(reader.order) !in commands
    ensures reader.order in Run(c, commands).channels
    ensures LastRead(Run(c, commands), reader) == Furthest(commands, reader, LastRead(c, reader))
    decreases |commands|
  {
    if commands != [] {
      assert commands == [commands[0]] + commands[1..];
      StepMarks(c, commands[0], reader);
      PositionIsFurthest(Apply(c, commands[0]), commands[1..], reader);
    }
  }

  /** A channel deleted leaves no message and no position behind. */
  lemma DeletedLeavesNothing(c: Chat, order: OrderId)
    ensures var after := Run(c, [Deletes(order)]);
            && order !in after.channels
            && (forall id <- after.messages :: id.order != order) && (forall reader <- after.positions :: reader.order != order)
  {
    assert Run(c, [Deletes(order)]) == Run(Apply(c, Deletes(order)), [Deletes(order)][1..]);
    assert Run(Apply(c, Deletes(order)), []) == Delete(c, order);
  }

  // ----- a send and its repeat

  /** The send that stored a message stored what it was asked to, as the next number of its channel. */
  lemma StoredAsAsked(c: Chat, r: ChatStorage.Request, errand: Option<Errand>, caller: Caller, days: int, at: Moment,
                      others: Others)
    requires Inv(c) && TimelyOthers(others) && at.counted <= at.stamped && caller.user == r.sender
    requires SendAmong(c, r, errand, caller, days, at, others).0.Success?
    requires var answer := SendAmong(c, r, errand, caller, days, at, others).0.value; answer.Sent? && answer.created
    ensures var found := FoundBySend(c, r.order, errand, caller, days, at, others);
            var after := SendAmong(c, r, errand, caller, days, at, others).1;
            var answer := SendAmong(c, r, errand, caller, days, at, others).0.value;
            && Inv(after) && r.order in found.channels
            && answer.id == MessageId(r.order, found.channels[r.order].latestSeq + 1) && answer.id !in found.messages
            && answer.message.body == r.body && answer.message.sender == r.sender && answer.message.client == r.client
            && answer.message.sentAt == at.stamped
            && after.messages == found.messages[answer.id := answer.message]
            && r.order in after.channels && after.channels[r.order].latestSeq == answer.id.number
  {
    StoredOnlyWhenAdmitted(c, r, errand, caller, days, at, others);
    FoundKeeps(c, r.order, errand, caller, days, at, others);
  }

  /** Sent once and sent again, at any later time and whatever else happened, short of the channel's deletion: the
      participant is told of the message first stored, word for word, if the text is the same, and is refused
      if it is not. */
  lemma SentThenRepeated(c: Chat, r: ChatStorage.Request, errand: Option<Errand>, caller: Caller, days: int, at: Moment,
                         others: Others, between: seq<Command>, text: string, e: Errand, later: Moment, rest: Others)
    requires Inv(c) && TimelyOthers(others) && at.counted <= at.stamped && caller.user == r.sender
    requires SendAmong(c, r, errand, caller, days, at, others).0.Success?
    requires var answer := SendAmong(c, r, errand, caller, days, at, others).0.value; answer.Sent? && answer.created
    requires AllTimely(between) && Deletes(r.order) !in between && TimelyOthers(rest) && Spares(rest, r.order)
    requires !IsPast(e, days, later.now) && (r.sender == e.requester || e.courier == Some(r.sender))
    ensures var first := SendAmong(c, r, errand, caller, days, at, others);
            var again := SendAmong(Run(first.1, between), r.(body := text), Some(e), caller, days, later, rest).0;
            && first.0.value.message.body == r.body
            && again == if text == r.body then Success(first.0.value.(created := false)) else Failure(KeyReused)
  {
    StoredAsAsked(c, r, errand, caller, days, at, others);
    var first := SendAmong(c, r, errand, caller, days, at, others);
    var id := first.0.value.id;
    RunKeeps(first.1, between);
    MessageStaysThrough(first.1, between, id);
    ResendAmongOthers(Run(first.1, between), r.(body := text), e, caller, days, later, id, rest);
  }

  // ----- when a send stores, and when a mark counts

  /** The errand's requester or courier, while it is not over for longer than conversations are kept. */
  predicate TakesPart(errand: Option<Errand>, user: UserId, days: int, now: int) {
    errand.Some? && !OverBefore(errand.value, days, now)
    && (user == errand.value.requester || errand.value.courier == Some(user))
  }

  predicate Ongoing(errand: Option<Errand>) { errand.Some? && errand.value.courier.Some? && errand.value.endedAt.None? }

  /** How many messages the sender stored in the minute before. */
  function InLastMinute(c: Chat, sender: UserId, now: int): nat {
    |set id <- c.messages | c.messages[id].sender == sender && c.messages[id].sentAt > now - 60_000_000|
  }

  predicate NeverSent(c: Chat, r: ChatStorage.Request) {
    forall id <- c.messages ::
      !(id.order == r.order && c.messages[id].sender == r.sender && c.messages[id].client == r.client)
  }

  /** A send by a participant of an ongoing errand stores a message exactly when it has not been sent before, its
      sender stored fewer than twenty in the last minute and the channel's numbers have not run out; over
      twenty it is told to wait, and nothing is stored in any other case. */
  lemma SendStoresExactly(c: Chat, r: ChatStorage.Request, errand: Option<Errand>, caller: Caller, days: int, at: Moment)
    requires Inv(c) && caller.user == r.sender
    ensures var (answer, after) := SendFor(c, r, errand, caller, days, at);
            var latest := if r.order in c.channels then c.channels[r.order].latestSeq else 0;
            var may := TakesPart(errand, r.sender, days, at.now) && Ongoing(errand) && NeverSent(c, r);
            && (answer.Success? && answer.value.Sent? && answer.value.created <==>
                  may && InLastMinute(c, r.sender, at.counted) < 20 && latest < 2_147_483_647)
            && (answer.Success? && answer.value.Limited? <==> may && InLastMinute(c, r.sender, at.counted) >= 20)
            && (after.messages != c.messages ==> answer.Success? && answer.value.Sent? && answer.value.created)
  {
    ParticipantsExactly(c, r.order, errand, caller, days, at);
    var (access, admitted) := AdmitParticipant(c, r.order, errand, caller, days, at);
    AdmittedKeeps(c, r.order, errand, caller, days, at);
    if access.Success? {
      GrantIs(c, r.order, errand, caller, days, at);
    }
    NeverSentIs(admitted, r);
    assert InLastMinute(c, r.sender, at.counted) == |Recent(admitted.messages, r.sender, at.counted)|;
  }

  lemma NeverSentIs(c: Chat, r: ChatStorage.Request)
    ensures NeverSent(c, r) <==> Matches(c.messages, r) == {}
  {
    if !NeverSent(c, r) {
      var id :| id in c.messages && id.order == r.order && c.messages[id].sender == r.sender && c.messages[id].client == r.client;
      assert id in Matches(c.messages, r);
    }
  }

  /** A position is marked exactly for a participant with a channel to read, up to its latest message. */
  lemma MarkCountsExactly(c: Chat, order: OrderId, errand: Option<Errand>, caller: Caller, number: nat, days: int, at: Moment)
    ensures var (position, after) := MarkFor(c, order, errand, caller, number, days, at);
            && (position.Success? <==>
                  && TakesPart(errand, caller.user, days, at.now)
                  && if order in c.channels then number <= c.channels[order].latestSeq else Ongoing(errand) && number == 0)
            && (position.Success? ==> LastRead(after, Reader(order, caller.user)) == position.value)
            && (position == Failure(Invalid) ==>
                  TakesPart(errand, caller.user, days, at.now)
                  && order in after.channels && number > after.channels[order].latestSeq)
  {
    ParticipantsExactly(c, order, errand, caller, days, at);
    if AdmitParticipant(c, order, errand, caller, days, at).0.Success? {
      GrantIs(c, order, errand, caller, days, at);
    }
  }
}
