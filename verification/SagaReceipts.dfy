/** What Order keeps of Credit's terminal replies: a receipt for each completed errand, once and for good,
    and what each reply does to the tables whether it is genuine or not. */
module SagaReceipts {
  import opened Wrappers
  import opened CreditTypes
  import opened OrderTypes
  import opened OrderHandlers
  import opened CreditInvariants
  import opened Saga
  import Theorems = SagaTheorems
  import Interleaved = SagaConcurrency
  import Life = OrderTransitions

  // ----- receipts

  /** An errand has a receipt exactly when it is completed, and it names the transaction the errand names. */
  predicate Receipted(s: OrderState) {
    && (forall id <- s.receipts :: id in s.orders)
    && forall id <- s.orders ::
         && (id in s.receipts <==> s.orders[id].status.COMPLETED?)
         && (id in s.receipts ==> s.orders[id].creditTransaction == Some(s.receipts[id]))
  }

  predicate KeepsReceipts(s: OrderState, after: OrderState) {
    forall id <- s.receipts :: id in after.receipts && after.receipts[id] == s.receipts[id]
  }

  lemma ActReceipts(s: OrderState, id: OrderId, actor: CommandActor, action: Action, facts: Facts, expected: Option<nat>)
    requires Receipted(s) && !actor.CreditService?
    ensures var t := Transition(s, id, actor, action, facts, expected, NoPatch);
            t.Applied? ==> Receipted(t.after) && t.after.receipts == s.receipts
  {
    if id in s.orders {
      var o := s.orders[id];
      var decision := Decide(o.status, action, Resolve(o, actor), facts, o.releaseReason);
      if decision.Some? {
        Life.CreditMovesExactlyWhatWaits(o.status, action, Resolve(o, actor), facts, o.releaseReason);
        OnlyCreditCompletes(o.status, action, Resolve(o, actor), facts, o.releaseReason);
      }
    }
  }

  lemma OnlyCreditCompletes(from: Status, action: Action, actor: Actor, facts: Facts, reason: Option<ReleaseReason>)
    ensures Decide(from, action, actor, facts, reason).Some? && Decide(from, action, actor, facts, reason).value.to.COMPLETED? ==>
              actor.CreditActor? && action.TRANSFER_CONFIRMED?
  {
  }

  lemma ReservedReceipts(s: OrderState, id: OrderId, requester: UserId, amount: int, suspended: bool)
    requires Receipted(s)
    ensures var after := HandleReserved(s, id, requester, amount, suspended).1;
            Receipted(after) && after.receipts == s.receipts
  {
  }

  lemma RejectedReceipts(s: OrderState, id: OrderId, requester: UserId, amount: int,
                         reason: ReservationRejection, available: Option<int>)
    requires Receipted(s)
    ensures var after := HandleRejected(s, id, requester, amount, reason, available).1;
            Receipted(after) && after.receipts == s.receipts
  {
  }

  lemma TransferredReceipts(s: OrderState, paid: TransferResult)
    requires Receipted(s)
    ensures var after := HandleTransferred(s, paid).1; Receipted(after) && KeepsReceipts(s, after)
  {
  }

  lemma ReleasedReceipts(s: OrderState, returned: ReleaseResult)
    requires Receipted(s)
    ensures var after := HandleReleased(s, returned).1; Receipted(after) && after.receipts == s.receipts
  {
  }

  /** Whatever reply arrives, genuine or not. */
  lemma ReplyReceipts(s: OrderState, reply: Reply, suspended: bool)
    requires Receipted(s)
    ensures var after := HandleReply(s, reply, suspended).1; Receipted(after) && KeepsReceipts(s, after)
  {
    match reply
    case CreditsReserved(id, requester, amount) => ReservedReceipts(s, id, requester, amount, suspended);
    case ReservationRejected(id, requester, amount, reason, available) =>
      RejectedReceipts(s, id, requester, amount, reason, available);
    case CreditsTransferred(paid) => TransferredReceipts(s, paid);
    case CreditsReleased(returned) => ReleasedReceipts(s, returned);
  }

  lemma StepReceipts(w: World, step: Step)
    requires Receipted(w.order) && Enabled(w, step)
    ensures Receipted(Next(w, step).order) && KeepsReceipts(w.order, Next(w, step).order)
  {
    match step
    case Act(id, actor, action, facts, expected) => ActReceipts(w.order, id, actor, action, facts, expected);
    case OrderReceives(i, suspended) => ReplyReceipts(w.order, w.credit.outbox[i], suspended);
    case _ =>
  }

  lemma {:induction false} RunReceipts(w: World, steps: seq<Step>)
    requires Receipted(w.order) && Runs(w, steps)
    ensures Receipted(End(w, steps).order) && KeepsReceipts(w.order, End(w, steps).order)
    decreases |steps|
  {
    if steps != [] {
      StepReceipts(w, steps[0]);
      RunReceipts(Next(w, steps[0]), steps[1..]);
    }
  }

  /** The one transaction by which Credit settled an errand. */
  ghost predicate SettledBy(c: CreditState, id: OrderId, kind: TxKind, o: Order, tx: TxId) {
    HasTx(c, tx, id, kind, o.requester, o.reward)
    && forall i | 0 <= i < |c.transactions| && c.transactions[i].order == Some(id)
                  && IsTerminal(c.transactions[i].kind) :: i == tx
  }

  lemma TerminalIsTheOne(c: CreditState, id: OrderId)
    requires Linked(c) && id in c.terminalOps
    ensures TerminalTx(c.terminalOps[id]).Some?
    ensures forall i | 0 <= i < |c.transactions| && c.transactions[i].order == Some(id) && IsTerminal(c.transactions[i].kind) ::
              i == TerminalTx(c.terminalOps[id]).value
  {
    assert TerminalLinked(c, id);
    forall i | 0 <= i < |c.transactions| && c.transactions[i].order == Some(id) && IsTerminal(c.transactions[i].kind)
      ensures i == TerminalTx(c.terminalOps[id]).value
    {
      assert OperationLinked(c, i);
    }
  }

  lemma SettledErrand(w: World, id: OrderId)
    requires SagaInv(w) && id in w.order.orders
    ensures var o := w.order.orders[id];
            && (o.status.COMPLETED? ==>
                  o.creditTransaction.Some? && SettledBy(w.credit, id, TRANSFER, o, o.creditTransaction.value))
            && (o.status.CANCELLED? || o.status.EXPIRED? ==>
                  o.creditTransaction.Some? && SettledBy(w.credit, id, RELEASE, o, o.creditTransaction.value))
  {
    var o := w.order.orders[id];
    assert OrderOk(o, Reservation(w.credit, id), Terminal(w.credit, id));
    if o.status.COMPLETED? || o.status.CANCELLED? || o.status.EXPIRED? {
      assert TerminalLinked(w.credit, id);
      TerminalIsTheOne(w.credit, id);
    }
  }

  /** In every reachable state an errand has a receipt if and only if it is completed. The receipt names the
      transaction the errand does, which is Credit's one transfer of that order and its reward; a cancelled
      or expired errand likewise names Credit's one release. And no run changes a receipt once written. */
  lemma ReceiptsAreFinal(steps: seq<Step>, more: seq<Step>, id: OrderId)
    requires Runs(START, steps) && Runs(End(START, steps), more)
    ensures var w := End(START, steps); var later := End(w, more);
            && (id in w.order.receipts <==> id in w.order.orders && w.order.orders[id].status.COMPLETED?)
            && (id in w.order.receipts ==>
                  && w.order.orders[id].creditTransaction == Some(w.order.receipts[id])
                  && SettledBy(w.credit, id, TRANSFER, w.order.orders[id], w.order.receipts[id])
                  && id in later.order.receipts && later.order.receipts[id] == w.order.receipts[id])
            && (id in w.order.orders && (w.order.orders[id].status.CANCELLED? || w.order.orders[id].status.EXPIRED?) ==>
                  && w.order.orders[id].creditTransaction.Some?
                  && SettledBy(w.credit, id, RELEASE, w.order.orders[id], w.order.orders[id].creditTransaction.value))
  {
    var w := End(START, steps);
    Theorems.ReachableIsGood(steps);
    RunReceipts(START, steps);
    RunReceipts(w, more);
    if id in w.order.orders {
      SettledErrand(w, id);
    }
  }

  /** The same however Credit's statements interleave. */
  lemma ReceiptsAmongInterleavings(steps: seq<Interleaved.Step>, id: OrderId)
    requires Interleaved.Runs(Interleaved.START, steps)
    ensures var w := Interleaved.End(Interleaved.START, steps);
            && (id in w.order.receipts <==> id in w.order.orders && w.order.orders[id].status.COMPLETED?)
            && (id in w.order.receipts ==>
                  SettledBy(w.bank.db, id, TRANSFER, w.order.orders[id], w.order.receipts[id]))
  {
    Interleaved.EveryInterleavingIsARun(steps);
    var whole :| Runs(START, whole) && End(START, whole) == Interleaved.Committed(Interleaved.End(Interleaved.START, steps));
    ReceiptsAreFinal(whole, [], id);
  }

  // ----- any reply

  /** Whether a reply is about this errand as it stands: its requester, its reward and, of a payment, its courier. */
  predicate About(o: Order, reply: Reply) {
    match reply
    case CreditsReserved(_, r, a) => r == o.requester && a == o.reward
    case ReservationRejected(_, r, a, _, _) => r == o.requester && a == o.reward
    case CreditsTransferred(p) => p.requester == o.requester && p.amount == o.reward && o.courier == Some(p.courier)
    case CreditsReleased(p) => p.requester == o.requester && p.amount == o.reward
  }

  /** Whether the errand waits for just such a reply. */
  predicate Awaits(o: Order, reply: Reply) {
    match reply
    case CreditsReserved(_, _, _) => o.status.PENDING_CREDIT?
    case ReservationRejected(_, _, _, _, _) => o.status.PENDING_CREDIT?
    case CreditsTransferred(_) => o.status.COMPLETION_PENDING_CREDIT?
    case CreditsReleased(_) => o.status.RELEASE_PENDING_CREDIT? && o.releaseReason.Some?
  }

  /** Whether the errand has already taken this very reply. */
  predicate HasTaken(o: Order, reply: Reply) {
    match reply
    case CreditsReserved(_, _, _) => !o.status.PENDING_CREDIT? && !o.status.REJECTED?
    case ReservationRejected(_, _, _, why, left) => o.status.REJECTED? && o.rejection == Some((why, left))
    case CreditsTransferred(p) => o.status.COMPLETED? && o.creditTransaction == Some(p.txId)
    case CreditsReleased(p) => (o.status.CANCELLED? || o.status.EXPIRED?) && o.creditTransaction == Some(p.txId)
  }

  /** What becomes of a reply. */
  datatype Fate = Takes | Repeats | Late | SetAside

  /** Told from the errand: taken when awaited, passed over when it has been taken before, late when the errand
      has since moved on from being reserved, and otherwise set aside for an operator. */
  function FateOf(s: OrderState, reply: Reply): Fate {
    var id := ReplyOrder(reply);
    if id !in s.orders || !About(s.orders[id], reply) then SetAside
    else if Awaits(s.orders[id], reply) then Takes
    else if !HasTaken(s.orders[id], reply) then SetAside
    else if reply.CreditsReserved? && s.orders[id].reservedAt.Some?
            && s.orders[id].version > s.orders[id].reservedAt.value then Late
    else Repeats
  }

  function Answer(fate: Fate): Handled {
    match fate
    case Takes => Acknowledged(true)
    case Repeats => Acknowledged(false)
    case Late => Stale
    case SetAside => DeadLettered
  }

  ghost predicate MeetsItsFate(s: OrderState, reply: Reply, suspended: bool) {
    var (h, after) := HandleReply(s, reply, suspended);
    h == Answer(FateOf(s, reply)) && (FateOf(s, reply) != Takes ==> after == s)
  }

  lemma ReservedFate(s: OrderState, reply: Reply, suspended: bool)
    requires reply.CreditsReserved?
    ensures MeetsItsFate(s, reply, suspended)
  {
  }

  lemma RejectedFate(s: OrderState, reply: Reply, suspended: bool)
    requires reply.ReservationRejected?
    ensures MeetsItsFate(s, reply, suspended)
  {
  }

  lemma TransferredFate(s: OrderState, reply: Reply, suspended: bool)
    requires reply.CreditsTransferred?
    ensures MeetsItsFate(s, reply, suspended)
  {
  }

  lemma ReleasedFate(s: OrderState, reply: Reply, suspended: bool)
    requires reply.CreditsReleased?
    ensures MeetsItsFate(s, reply, suspended)
  {
  }

  /** Every reply, genuine or forged, meets exactly this fate, and only one that is taken changes anything. */
  lemma ReplyMeetsItsFate(s: OrderState, reply: Reply, suspended: bool)
    ensures var (h, after) := HandleReply(s, reply, suspended);
            h == Answer(FateOf(s, reply)) && (FateOf(s, reply) != Takes ==> after == s)
  {
    match reply {
      case CreditsReserved(_, _, _) => ReservedFate(s, reply, suspended);
      case ReservationRejected(_, _, _, _, _) => RejectedFate(s, reply, suspended);
      case CreditsTransferred(_) => TransferredFate(s, reply, suspended);
      case CreditsReleased(_) => ReleasedFate(s, reply, suspended);
    }
    assert MeetsItsFate(s, reply, suspended);
  }

  /** What a taken reply writes of its errand. */
  predicate Written(s: OrderState, after: OrderState, o: Order, n: Order, reply: Reply, suspended: bool) {
    var id := ReplyOrder(reply);
    match reply
    case CreditsReserved(_, _, _) =>
      && n.reservedAt == Some(n.version) && after.receipts == s.receipts
      && if suspended then
           && n.status.RELEASE_PENDING_CREDIT? && n.releaseReason == Some(AsCancelled)
           && after.outbox == s.outbox + [ReleaseRequested(id, o.requester, o.reward)]
         else n.status.OPEN? && after.outbox == s.outbox
    case ReservationRejected(_, _, _, why, left) =>
      n.status.REJECTED? && n.rejection == Some((why, left)) && after.outbox == s.outbox && after.receipts == s.receipts
    case CreditsTransferred(p) =>
      && n.status.COMPLETED? && n.creditTransaction == Some(p.txId)
      && after.outbox == s.outbox && after.receipts == s.receipts[id := p.txId]
    case CreditsReleased(p) =>
      && n.status == (if o.releaseReason == Some(AsCancelled) then CANCELLED else EXPIRED)
      && n.creditTransaction == Some(p.txId) && after.outbox == s.outbox && after.receipts == s.receipts
  }

  ghost predicate TakenWrites(s: OrderState, reply: Reply, suspended: bool) {
    var id := ReplyOrder(reply); var after := HandleReply(s, reply, suspended).1;
    && id in s.orders && id in after.orders && after.orders == s.orders[id := after.orders[id]]
    && var o, n := s.orders[id], after.orders[id];
       && n.version == o.version + 1 && n.courier == o.courier && n.requester == o.requester && n.reward == o.reward
       && Written(s, after, o, n, reply, suspended)
  }

  lemma TakenReservedWrites(s: OrderState, reply: Reply, suspended: bool)
    requires FateOf(s, reply).Takes? && reply.CreditsReserved?
    ensures TakenWrites(s, reply, suspended)
  {
  }

  lemma TakenRejectedWrites(s: OrderState, reply: Reply, suspended: bool)
    requires FateOf(s, reply).Takes? && reply.ReservationRejected?
    ensures TakenWrites(s, reply, suspended)
  {
  }

  lemma TakenTerminalWrites(s: OrderState, reply: Reply, suspended: bool)
    requires FateOf(s, reply).Takes? && (reply.CreditsTransferred? || reply.CreditsReleased?)
    ensures TakenWrites(s, reply, suspended)
  {
  }

  /** A taken reply writes this of its errand, and nothing of any other. */
  lemma TakenReplyWrites(s: OrderState, reply: Reply, suspended: bool)
    requires FateOf(s, reply).Takes?
    ensures TakenWrites(s, reply, suspended)
  {
    match reply
    case CreditsReserved(_, _, _) => TakenReservedWrites(s, reply, suspended);
    case ReservationRejected(_, _, _, _, _) => TakenRejectedWrites(s, reply, suspended);
    case _ => TakenTerminalWrites(s, reply, suspended);
  }

  /** Handling a reply again changes nothing more, and a reply once taken is never set aside. */
  lemma RepliesOnce(s: OrderState, reply: Reply, suspended: bool, again: bool)
    ensures var (h, after) := HandleReply(s, reply, suspended);
            HandleReply(after, reply, again).1 == after
            && (Quiet(h) ==> Quiet(HandleReply(after, reply, again).0))
  {
    ReplyMeetsItsFate(s, reply, suspended);
    var after := HandleReply(s, reply, suspended).1;
    ReplyMeetsItsFate(after, reply, again);
    if FateOf(s, reply).Takes? {
      TakenReplyWrites(s, reply, suspended);
    }
  }
}
