/** Sends interleaved statement by statement: the sender's lock, the channel's row lock, the lookup, the
    count, the insert and the commit. Another channel operation, or the clock, may come in anywhere. */
module ChatConcurrency {
  import opened Sets
  import opened ChatStorage

  type SendId = nat

  datatype Stage =
    | Waiting
    | SenderLocked
    | ChannelLocked(latest: nat)
    | Unsent(latest: nat)
    | Counted(latest: nat, counted: int)
    | Inserted(latest: nat, counted: int, stamped: int)

  datatype Sending = Sending(request: Request, stage: Stage) {
    predicate HoldsSender() { !stage.Waiting? }

    predicate HoldsChannel() { !stage.Waiting? && !stage.SenderLocked? }
  }

  datatype World = World(chat: Chat, clock: int, sends: map<SendId, Sending>)

  datatype Step =
    | Begin(id: SendId, request: Request)
    | Advance(id: SendId)
    | GiveUp(id: SendId)
    | OpenChannel(order: OrderId)
    | Mark(reader: Reader, number: nat)
    | DeleteChannel(order: OrderId)
    | Tick(time: nat)

  predicate SenderFree(w: World, id: SendId, sender: UserId) {
    forall other <- w.sends | other != id && w.sends[other].HoldsSender() :: w.sends[other].request.sender != sender
  }

  predicate ChannelFree(w: World, id: SendId, order: OrderId) {
    forall other <- w.sends | other != id && w.sends[other].HoldsChannel() :: w.sends[other].request.order != order
  }

  predicate Unlocked(w: World, order: OrderId) {
    forall id <- w.sends | w.sends[id].HoldsChannel() :: w.sends[id].request.order != order
  }

  predicate Enabled(w: World, step: Step) {
    match step
    case Begin(id, _) => id !in w.sends
    case Advance(id) =>
      && id in w.sends
      && (w.sends[id].stage.Waiting? ==> SenderFree(w, id, w.sends[id].request.sender))
      && (w.sends[id].stage.SenderLocked? ==> ChannelFree(w, id, w.sends[id].request.order))
    case GiveUp(id) => id in w.sends
    case DeleteChannel(order) => Unlocked(w, order)
    case _ => true
  }

  /** What a send's next statement gives: the stage after it, or its answer. */
  datatype Outcome = Goes(stage: Stage) | Answers(answer: SendAttempt)

  ghost function Statement(w: World, s: Sending): Outcome {
    var r, messages := s.request, w.chat.messages;
    match s.stage
    case Waiting => Goes(SenderLocked)
    case SenderLocked =>
      if r.order in w.chat.channels then Goes(ChannelLocked(w.chat.channels[r.order].latestSeq)) else Answers(Closed)
    case ChannelLocked(latest) =>
      if Matches(messages, r) == {} then Goes(Unsent(latest))
      else var id :| id in Matches(messages, r); Answers(Sent(id, messages[id], false))
    case Unsent(latest) =>
      if UnderLimit(messages, r.sender, w.clock) then Goes(Counted(latest, w.clock))
      else Answers(Limited(RetryAfter(messages, r.sender, w.clock)))
    case Counted(latest, counted) =>
      if latest >= MAX_SEQ then Answers(Failed) else Goes(Inserted(latest, counted, w.clock))
    case Inserted(latest, _, stamped) =>
      Answers(Sent(MessageId(r.order, latest + 1), Message(r.client, r.sender, r.body, stamped), true))
  }

  /** A commit writes the row inserted and the number it was given. */
  function Commit(c: Chat, r: Request, latest: nat, stamped: int): Chat {
    if r.order !in c.channels then c
    else
      c.(channels := c.channels[r.order := c.channels[r.order].(latestSeq := latest + 1)],
         messages := c.messages[MessageId(r.order, latest + 1) := Message(r.client, r.sender, r.body, stamped)])
  }

  ghost function Next(w: World, step: Step): World
    requires Enabled(w, step)
  {
    match step
    case Begin(id, r) => w.(sends := w.sends[id := Sending(r, Waiting)])
    case Advance(id) =>
      var s := w.sends[id];
      match Statement(w, s) {
        case Goes(stage) => w.(sends := w.sends[id := s.(stage := stage)])
        case Answers(_) =>
          w.(chat := if s.stage.Inserted? then Commit(w.chat, s.request, s.stage.latest, s.stage.stamped) else w.chat,
             sends := w.sends - {id})
      }
    case GiveUp(id) => w.(sends := w.sends - {id})
    case OpenChannel(order) => w.(chat := Open(w.chat, order, w.clock))
    case Mark(reader, number) => w.(chat := MarkRead(w.chat, reader, number).1)
    case DeleteChannel(order) => w.(chat := Delete(w.chat, order))
    case Tick(time) => w.(clock := w.clock + time)
  }

  ghost predicate Runs(w: World, steps: seq<Step>)
    decreases |steps|
  {
    steps == [] || (Enabled(w, steps[0]) && Runs(Next(w, steps[0]), steps[1..]))
  }

  ghost function End(w: World, steps: seq<Step>): World
    requires Runs(w, steps)
    decreases |steps|
  {
    if steps == [] then w else End(Next(w, steps[0]), steps[1..])
  }

  function Start(clock: int): World { World(EMPTY, clock, map[]) }

  // ----- what every interleaving keeps

  /** What a send has read under its locks is still so. */
  ghost predicate StillTrue(c: Chat, clock: int, s: Sending) {
    var r := s.request;
    && (s.HoldsChannel() ==> r.order in c.channels && c.channels[r.order].latestSeq == s.stage.latest)
    && (s.stage.Unsent? || s.stage.Counted? || s.stage.Inserted? ==> Matches(c.messages, r) == {})
    && (s.stage.Counted? || s.stage.Inserted? ==>
          UnderLimit(c.messages, r.sender, s.stage.counted) && s.stage.counted <= clock)
    && (s.stage.Inserted? ==> s.stage.latest < MAX_SEQ && s.stage.counted <= s.stage.stamped <= clock)
  }

  predicate Exclusive(w: World) {
    forall i <- w.sends, j <- w.sends | i != j ::
      && (w.sends[i].HoldsSender() && w.sends[j].HoldsSender() ==> w.sends[i].request.sender != w.sends[j].request.sender)
      && (w.sends[i].HoldsChannel() && w.sends[j].HoldsChannel() ==> w.sends[i].request.order != w.sends[j].request.order)
  }

  /** Nothing stored is stamped later than now. */
  predicate Stamped(c: Chat, clock: int) { forall id <- c.messages :: c.messages[id].sentAt <= clock }

  ghost predicate WorldInv(w: World) {
    Inv(w.chat) && Stamped(w.chat, w.clock) && Exclusive(w) && forall id <- w.sends :: StillTrue(w.chat, w.clock, w.sends[id])
  }

  /** The command an interleaved step amounts to, if it changes what is stored or gives an answer. */
  ghost function Amounts(w: World, step: Step): seq<Command>
    requires Enabled(w, step)
  {
    match step
    case Advance(id) =>
      var s := w.sends[id];
      if Statement(w, s).Goes? then []
      else if s.stage.Counted? || s.stage.Inserted? then
        [Sends(s.request, s.stage.counted, if s.stage.Inserted? then s.stage.stamped else w.clock)]
      else [Sends(s.request, w.clock, w.clock)]
    case OpenChannel(order) => [Opens(order, w.clock)]
    case Mark(reader, number) => [Marks(reader, number)]
    case DeleteChannel(order) => [Deletes(order)]
    case _ => []
  }

  /** A send's last statement does and answers what the whole send would, run alone at that moment. */
  lemma LastStatementIsSerial(w: World, id: SendId)
    requires WorldInv(w) && Enabled(w, Advance(id)) && Statement(w, w.sends[id]).Answers?
    ensures var command := Amounts(w, Advance(id))[0];
            && Timely(command)
            && (Statement(w, w.sends[id]).answer, Next(w, Advance(id)).chat)
               == Send(w.chat, w.sends[id].request, command.counted, command.stamped)
  {
    assert StillTrue(w.chat, w.clock, w.sends[id]);
  }

  /** Every step of an interleaving leaves what is stored alone or does what one whole command does. */
  lemma StepIsSerial(w: World, step: Step)
    requires WorldInv(w) && Enabled(w, step)
    ensures forall command <- Amounts(w, step) :: Timely(command)
    ensures Next(w, step).chat == Run(w.chat, Amounts(w, step))
  {
    if step.Advance? && Statement(w, w.sends[step.id]).Answers? {
      LastStatementIsSerial(w, step.id);
    }
    var commands := Amounts(w, step);
    if commands != [] {
      assert commands[1..] == [];
    }
  }

  /** A commit by another sender, on another channel if this one holds its own, changes nothing this one read. */
  lemma CommitSpares(c: Chat, clock: int, done: Sending, s: Sending)
    requires Inv(c) && StillTrue(c, clock, s) && StillTrue(c, clock, done) && done.stage.Inserted?
    requires s.HoldsSender() ==> s.request.sender != done.request.sender
    requires s.HoldsChannel() ==> s.request.order != done.request.order
    ensures StillTrue(Commit(c, done.request, done.stage.latest, done.stage.stamped), clock, s)
  {
    var after := Commit(c, done.request, done.stage.latest, done.stage.stamped);
    if s.HoldsChannel() {
      assert Matches(after.messages, s.request) == Matches(c.messages, s.request);
      if s.stage.Counted? || s.stage.Inserted? {
        assert Recent(after.messages, s.request.sender, s.stage.counted) == Recent(c.messages, s.request.sender, s.stage.counted);
      }
    }
  }

  lemma DeleteSpares(c: Chat, clock: int, order: OrderId, s: Sending)
    requires StillTrue(c, clock, s) && (s.HoldsChannel() ==> s.request.order != order)
    ensures StillTrue(Delete(c, order), clock, s)
  {
    var after := Delete(c, order);
    if s.HoldsChannel() {
      assert Matches(after.messages, s.request) <= Matches(c.messages, s.request);
      if s.stage.Counted? || s.stage.Inserted? {
        SubsetIsNoLarger(Recent(after.messages, s.request.sender, s.stage.counted),
                         Recent(c.messages, s.request.sender, s.stage.counted));
      }
    }
  }

  lemma AdvanceKeepsOwn(w: World, id: SendId)
    requires WorldInv(w) && Enabled(w, Advance(id)) && Statement(w, w.sends[id]).Goes?
    ensures Exclusive(Next(w, Advance(id)))
    ensures StillTrue(w.chat, w.clock, Next(w, Advance(id)).sends[id])
  {
    assert StillTrue(w.chat, w.clock, w.sends[id]);
  }

  lemma StepKeepsReads(w: World, step: Step, other: SendId)
    requires WorldInv(w) && Enabled(w, step) && other in Next(w, step).sends
    ensures StillTrue(Next(w, step).chat, Next(w, step).clock, Next(w, step).sends[other])
  {
    if other in w.sends {
      assert StillTrue(w.chat, w.clock, w.sends[other]);
      if step.DeleteChannel? {
        DeleteSpares(w.chat, w.clock, step.order, w.sends[other]);
      } else if step.Advance? {
        if Statement(w, w.sends[step.id]).Goes? {
          AdvanceKeepsOwn(w, step.id);
        } else if w.sends[step.id].stage.Inserted? {
          CommitSpares(w.chat, w.clock, w.sends[step.id], w.sends[other]);
        }
      }
    }
  }

  lemma StepKeeps(w: World, step: Step)
    requires WorldInv(w) && Enabled(w, step)
    ensures WorldInv(Next(w, step))
  {
    StepIsSerial(w, step);
    RunKeeps(w.chat, Amounts(w, step));
    forall other | other in Next(w, step).sends
      ensures StillTrue(Next(w, step).chat, Next(w, step).clock, Next(w, step).sends[other])
    {
      StepKeepsReads(w, step, other);
    }
    if step.Advance? && Statement(w, w.sends[step.id]).Goes? {
      AdvanceKeepsOwn(w, step.id);
    }
    StepKeepsStamps(w, step);
  }

  lemma StepKeepsStamps(w: World, step: Step)
    requires WorldInv(w) && Enabled(w, step)
    ensures Stamped(Next(w, step).chat, Next(w, step).clock)
  {
    if step.Advance? {
      assert StillTrue(w.chat, w.clock, w.sends[step.id]);
    }
  }

  ghost function Serial(w: World, steps: seq<Step>): seq<Command>
    requires Runs(w, steps)
    decreases |steps|
  {
    if steps == [] then [] else Amounts(w, steps[0]) + Serial(Next(w, steps[0]), steps[1..])
  }

  lemma {:induction false} RunJoins(c: Chat, first: seq<Command>, rest: seq<Command>)
    ensures Run(c, first + rest) == Run(Run(c, first), rest)
    decreases |first|
  {
    if first == [] {
      assert first + rest == rest;
    } else {
      assert (first + rest)[1..] == first[1..] + rest;
      RunJoins(Apply(c, first[0]), first[1..], rest);
    }
  }

  lemma {:induction false} InterleavingsKeep(w: World, steps: seq<Step>)
    requires WorldInv(w) && Runs(w, steps)
    ensures WorldInv(End(w, steps))
    ensures End(w, steps).chat == Run(w.chat, Serial(w, steps))
    decreases |steps|
  {
    if steps != [] {
      StepKeeps(w, steps[0]);
      StepIsSerial(w, steps[0]);
      InterleavingsKeep(Next(w, steps[0]), steps[1..]);
      RunJoins(w.chat, Amounts(w, steps[0]), Serial(Next(w, steps[0]), steps[1..]));
    }
  }

  /** However sends interleave, what is stored is what whole sends run one at a time would store; messages
      are numbered 1 to `latestSeq`, stored once, and within the rate. */
  lemma EveryInterleavingIsSerial(clock: int, steps: seq<Step>)
    requires Runs(Start(clock), steps)
    ensures End(Start(clock), steps).chat == Run(EMPTY, Serial(Start(clock), steps))
    ensures Inv(End(Start(clock), steps).chat)
  {
    InterleavingsKeep(Start(clock), steps);
  }

  ghost predicate Refused(w: World, id: SendId) {
    id in w.sends && Statement(w, w.sends[id]).Answers? && Statement(w, w.sends[id]).answer.Limited?
  }

  lemma RefusalIsLeast(w: World, id: SendId, k: int)
    requires WorldInv(w) && Refused(w, id) && k >= 1
    ensures var wait := Statement(w, w.sends[id]).answer.retryAfter;
            && 1 <= wait <= 60
            && (UnderLimit(w.chat.messages, w.sends[id].request.sender, w.clock + k * SECOND) <==> k >= wait)
  {
    RetryAfterIsLeast(w.chat, w.sends[id].request.sender, w.clock, k);
  }

  /** Whenever a send is refused for its rate, the seconds it is told are the least, from one up, after
      which the count would admit it if its sender stored nothing meanwhile. */
  lemma EveryRefusalIsLeast(clock: int, steps: seq<Step>, id: SendId, k: int)
    requires Runs(Start(clock), steps) && Refused(End(Start(clock), steps), id) && k >= 1
    ensures var w := End(Start(clock), steps);
            var wait := Statement(w, w.sends[id]).answer.retryAfter;
            && 1 <= wait <= 60
            && (UnderLimit(w.chat.messages, w.sends[id].request.sender, w.clock + k * SECOND) <==> k >= wait)
  {
    InterleavingsKeep(Start(clock), steps);
    RefusalIsLeast(End(Start(clock), steps), id, k);
  }

  /** Locks taken in this order never leave sends waiting for one another: one of them can always go on. */
  lemma SomeSendGoesOn(w: World)
    requires WorldInv(w) && w.sends != map[]
    ensures exists id :: id in w.sends && Enabled(w, Advance(id))
  {
    var id :| id in w.sends;
    if other :| other in w.sends && w.sends[other].HoldsChannel() {
      assert Enabled(w, Advance(other));
    } else if other :| other in w.sends && w.sends[other].HoldsSender() {
      assert Enabled(w, Advance(other));
    } else {
      assert Enabled(w, Advance(id));
    }
  }
}
