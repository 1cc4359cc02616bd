/** Requests of the chat service whose statements others act between: the channel is read, opened, searched
    and written at four moments, and at each the tables are what others have made of them meanwhile. */
module ChatAccess {
  import opened Wrappers
  import opened ChatStorage
  import opened ChatService

  /** What others do after a request has read the channel, after it has inserted one, after it has been
      granted access, and after it has looked for the message. */
  datatype Others = Others(read: seq<Command>, inserted: seq<Command>, granted: seq<Command>, searched: seq<Command>)

  predicate AllTimely(commands: seq<Command>) { forall command <- commands :: Timely(command) }

  predicate TimelyOthers(others: Others) {
    AllTimely(others.read) && AllTimely(others.inserted) && AllTimely(others.granted) && AllTimely(others.searched)
  }

  /** Nobody deletes the channel meanwhile. */
  predicate Spares(others: Others, order: OrderId) {
    Deletes(order) !in others.read && Deletes(order) !in others.inserted
    && Deletes(order) !in others.granted && Deletes(order) !in others.searched
  }

  const NOBODY := Others([], [], [], [])

  /** Access decided from the channel as it was read; where that calls for one, it is inserted and read again. */
  ghost function AdmitAmong(c: Chat, order: OrderId, errand: Option<Errand>, caller: Caller, days: int, at: Moment,
                            others: Others): (Result<Grant, Refusal>, Chat)
  {
    var (access, after) := AdmitParticipant(c, order, errand, caller, days, at);
    var c1 := Run(c, others.read);
    if after == c || access.Failure? then (access, c1)
    else
      var c2 := Run(Open(c1, order, at.opening), others.inserted);
      (if order in c2.channels then Success(access.value.(latestSeq := c2.channels[order].latestSeq)) else Failure(NotFound), c2)
  }

  /** The tables a send finds when it writes. */
  ghost function FoundBySend(c: Chat, order: OrderId, errand: Option<Errand>, caller: Caller, days: int, at: Moment,
                             others: Others): Chat
  {
    Run(Run(AdmitAmong(c, order, errand, caller, days, at, others).1, others.granted), others.searched)
  }

  ghost function SendAmong(c: Chat, r: ChatStorage.Request, errand: Option<Errand>, caller: Caller, days: int,
                           at: Moment, others: Others): (Result<SendAttempt, Refusal>, Chat)
  {
    var (access, c2) := AdmitAmong(c, r.order, errand, caller, days, at, others);
    var c3 := Run(c2, others.granted);
    var c4 := Run(c3, others.searched);
    var stored := Matches(c3.messages, r);
    if access.Failure? then (Failure(access.error), c4)
    else if stored == {} && !access.value.open then (Failure(ChannelClosed), c4)
    else if stored != {} then
      var id :| id in stored; (Answered(Sent(id, c3.messages[id], false), r.body), c4)
    else
      var (answer, end) := Send(c4, r, at.counted, at.stamped);
      (Answered(answer, r.body), end)
  }

  /** When nobody acts in between it is the send that runs alone. */
  lemma AloneIsTheSame(c: Chat, r: ChatStorage.Request, errand: Option<Errand>, caller: Caller, days: int, at: Moment)
    requires Inv(c)
    ensures SendAmong(c, r, errand, caller, days, at, NOBODY) == SendFor(c, r, errand, caller, days, at)
  {
    var after := AdmitParticipant(c, r.order, errand, caller, days, at).1;
    if id :| id in Matches(after.messages, r) {
      assert MessageId(id.order, id.number) in c.messages;
    }
  }

  lemma AdmitAmongKeeps(c: Chat, order: OrderId, errand: Option<Errand>, caller: Caller, days: int, at: Moment, others: Others)
    requires Inv(c) && TimelyOthers(others)
    ensures var (access, after) := AdmitAmong(c, order, errand, caller, days, at, others);
            && Inv(after)
            && (access.Success? ==>
                  && errand.Some? && (access.value.open <==> IsOpen(errand.value))
                  && (caller.user == errand.value.requester || errand.value.courier == Some(caller.user)))
  {
    AdmittedKeeps(c, order, errand, caller, days, at);
    RunKeeps(c, others.read);
    var c1 := Run(c, others.read);
    ApplyKeeps(c1, Opens(order, at.opening));
    RunKeeps(Open(c1, order, at.opening), others.inserted);
  }

  lemma FoundKeeps(c: Chat, order: OrderId, errand: Option<Errand>, caller: Caller, days: int, at: Moment, others: Others)
    requires Inv(c) && TimelyOthers(others)
    ensures Inv(Run(AdmitAmong(c, order, errand, caller, days, at, others).1, others.granted))
    ensures Inv(FoundBySend(c, order, errand, caller, days, at, others))
  {
    var c2 := AdmitAmong(c, order, errand, caller, days, at, others).1;
    AdmitAmongKeeps(c, order, errand, caller, days, at, others);
    RunKeeps(c2, others.granted);
    RunKeeps(Run(c2, others.granted), others.searched);
  }

  /** Whatever others do in between, a send stores a message only for the requester or courier of the errand
      it asked about, open when asked, and only in tables that hold no message under its identifier and
      leave its sender under the limit; and what every run of the storage keeps is kept. */
  lemma StoredOnlyWhenAdmitted(c: Chat, r: ChatStorage.Request, errand: Option<Errand>, caller: Caller, days: int,
                               at: Moment, others: Others)
    requires Inv(c) && TimelyOthers(others) && at.counted <= at.stamped && caller.user == r.sender
    ensures var found := FoundBySend(c, r.order, errand, caller, days, at, others);
            var after := SendAmong(c, r, errand, caller, days, at, others).1;
            && Inv(after)
            && (after != found ==>
                  && errand.Some? && IsOpen(errand.value)
                  && (r.sender == errand.value.requester || errand.value.courier == Some(r.sender))
                  && UnderLimit(found.messages, r.sender, at.counted) && Matches(found.messages, r) == {}
                  && r.order in found.channels && after == Store(found, r, at.stamped))
  {
    AdmitAmongKeeps(c, r.order, errand, caller, days, at, others);
    FoundKeeps(c, r.order, errand, caller, days, at, others);
    SendStores(FoundBySend(c, r.order, errand, caller, days, at, others), r, at.counted, at.stamped);
  }

  /** A participant's repeated send answers the stored message and stores nothing, whatever others do in
      between, unless they delete the channel. */
  lemma ResendAmongOthers(c: Chat, r: ChatStorage.Request, e: Errand, caller: Caller, days: int, at: Moment,
                          id: MessageId, others: Others)
    requires Inv(c) && TimelyOthers(others) && Spares(others, r.order) && caller.user == r.sender
    requires id in c.messages && IsSent(c.messages[id], id, r)
    requires !IsPast(e, days, at.now) && (r.sender == e.requester || e.courier == Some(r.sender))
    ensures SendAmong(c, r, Some(e), caller, days, at, others)
         == (if c.messages[id].body == r.body then Success(Sent(id, c.messages[id], false)) else Failure(KeyReused),
             FoundBySend(c, r.order, Some(e), caller, days, at, others))
  {
    assert id == MessageId(id.order, id.number) && r.order in c.channels;
    var c2 := AdmitAmong(c, r.order, Some(e), caller, days, at, others).1;
    MessageStaysThrough(c, others.read, id);
    AdmitAmongKeeps(c, r.order, Some(e), caller, days, at, others);
    MessageStaysThrough(c2, others.granted, id);
    FoundKeeps(c, r.order, Some(e), caller, days, at, others);
    var c3 := Run(c2, others.granted);
    assert id in Matches(c3.messages, r);
    assert forall i <- Matches(c3.messages, r) :: i == id;
  }

  // ----- marking read

  ghost function MarkAmong(c: Chat, order: OrderId, errand: Option<Errand>, caller: Caller, number: nat, days: int,
                           at: Moment, others: Others): (Result<nat, Refusal>, Chat)
  {
    var (access, c2) := AdmitAmong(c, order, errand, caller, days, at, others);
    var c3 := Run(c2, others.granted);
    if access.Failure? then (Failure(access.error), c3)
    else if number > access.value.latestSeq then (Failure(Invalid), c3)
    else
      var (moved, after) := MarkRead(c3, Reader(order, caller.user), number);
      (if moved.Some? then Success(moved.value) else Failure(Unavailable), after)
  }

  /** When nobody acts in between it is the marking that runs alone. */
  lemma AloneMarksTheSame(c: Chat, order: OrderId, errand: Option<Errand>, caller: Caller, number: nat, days: int, at: Moment)
    ensures MarkAmong(c, order, errand, caller, number, days, at, NOBODY) == MarkFor(c, order, errand, caller, number, days, at)
  {}

  lemma LatestGrows(c: Chat, command: Command, order: OrderId)
    requires order in c.channels && command != Deletes(order)
    ensures var after := Apply(c, command);
            order in after.channels && c.channels[order].latestSeq <= after.channels[order].latestSeq
  {
  }

  lemma {:induction false} LatestGrowsThrough(c: Chat, commands: seq<Command>, order: OrderId)
    requires order in c.channels && Deletes(order) !in commands
    ensures var after := Run(c, commands);
            order in after.channels && c.channels[order].latestSeq <= after.channels[order].latestSeq
    decreases |commands|
  {
    if commands != [] {
      LatestGrows(c, commands[0], order);
      LatestGrowsThrough(Apply(c, commands[0]), commands[1..], order);
    }
  }

  /** Unless others delete the channel in between, a position marked is never past the latest message,
      never back from where it was when written, and the only thing changed. */
  lemma MarkedAmongOthers(c: Chat, order: OrderId, errand: Option<Errand>, caller: Caller, number: nat, days: int,
                          at: Moment, others: Others)
    requires Inv(c) && TimelyOthers(others) && Spares(others, order)
    ensures var reader := Reader(order, caller.user);
            var found := Run(AdmitAmong(c, order, errand, caller, days, at, others).1, others.granted);
            var (position, after) := MarkAmong(c, order, errand, caller, number, days, at, others);
            if position.Failure? then after == found && position.error != Unavailable
            else && after == found.(positions := found.positions[reader := position.value])
                 && order in found.channels && number <= found.channels[order].latestSeq
                 && position.value == (if LastRead(found, reader) > number then LastRead(found, reader) else number)
  {
    var (access, c2) := AdmitAmong(c, order, errand, caller, days, at, others);
    if access.Success? {
      if order in c.channels {
        LatestGrowsThrough(c, others.read, order);
      }
      LatestGrowsThrough(c2, others.granted, order);
    } else if order !in c.channels {
      LatestGrowsThrough(Open(Run(c, others.read), order, at.opening), others.inserted, order);
    }
  }

  /** The condition is needed: number 1 of a channel deleted and opened again in between is marked as read
      though no message has it. The service itself comes to this only with an answer about the errand that is
      a whole retention period old: it deletes only for errands that ended that long ago, and opens only for
      errands that have not ended. */
  lemma DeletedMeanwhile(c: Chat, order: OrderId, e: Errand, caller: Caller, days: int, at: Moment)
    requires Inv(c) && order in c.channels && c.channels[order].latestSeq >= 1
    requires !IsPast(e, days, at.now) && (caller.user == e.requester || e.courier == Some(caller.user))
    ensures var others := Others([Deletes(order), Opens(order, at.opening)], [], [], []);
            var (position, after) := MarkAmong(c, order, Some(e), caller, 1, days, at, others);
            && position.Success? && order in after.channels && after.channels[order].latestSeq < position.value
  {
    var c1 := Delete(c, order);
    assert Run(Open(c1, order, at.opening), []) == Open(c1, order, at.opening);
    assert Run(c1, [Opens(order, at.opening)]) == Open(c1, order, at.opening);
    var read := [Deletes(order), Opens(order, at.opening)];
    assert read[1..] == [Opens(order, at.opening)];
    assert Run(c, read) == Open(c1, order, at.opening);
  }
}
