/** Order and Credit together, over messages that may be lost, repeated, delayed and reordered without
    bound: a step may hand any message ever sent to its receiver. Both services' rows and every
    message in flight are tied together by one invariant. */
module Saga {
  import opened Wrappers
  import opened CreditTypes
  import opened OrderTypes
  import opened OrderHandlers
  import opened CreditInvariants
  import Ledger = CreditLedger
  import Keep = CreditPreservation
  import Final = CreditFinality
  import Life = OrderTransitions

  /** `looks` are the candidates a reconciler has read, and then Credit's answer about each. */
  datatype Look = Look(seen: Candidate, credit: Option<Ledger.CreditStatus>)

  datatype World = World(order: OrderState, credit: CreditState, looks: set<Look>)

  const START := World(OrderState(map[], [], map[], {}), EMPTY, {})

  datatype Step =
    | Activate(user: UserId, allocation: Allocation)
    | Post(id: OrderId, requester: UserId, reward: int)
    | TakeErrand(id: OrderId, courier: UserId, version: nat, deadlinePassed: bool)
    | Act(id: OrderId, actor: CommandActor, action: Action, facts: Facts, expected: Option<nat>)
    | CreditReceives(message: nat)
    | CreditDeniesLate(message: nat, seen: int)
    | OrderReceives(message: nat, suspended: bool)
    | Observe(id: OrderId)
    | AskCredit(look: Look)
    | RecordLook(look: Look)

  predicate Enabled(w: World, step: Step) {
    match step
    case Activate(_, _) => true
    case Post(id, _, reward) => id !in w.order.orders && Ledger.Storable(reward)
    case TakeErrand(_, _, _, _) => true
    case Act(_, actor, _, _, _) => !actor.CreditService?
    case CreditReceives(i) => i < |w.order.outbox|
    case CreditDeniesLate(i, _) =>
      i < |w.order.outbox| && w.order.outbox[i].ReservationRequested?
      && Ledger.MayDenyLate(w.credit, CommandOf(w.order.outbox[i]).reservation)
    case OrderReceives(i, _) => i < |w.credit.outbox|
    case Observe(id) => id in w.order.orders && WaitsOnCredit(w.order.orders[id].status)
    case AskCredit(look) => look in w.looks
    case RecordLook(look) => look in w.looks && WaitsOnCredit(look.seen.status)
  }

  function CommandOf(request: Request): Ledger.Command {
    match request
    case ReservationRequested(id, r, a) => Ledger.ReserveCmd(ReservationInput(id, r, a))
    case CompletionRequested(id, r, c, a) => Ledger.TransferCmd(TransferInput(id, r, c, a))
    case ReleaseRequested(id, r, a) => Ledger.ReleaseCmd(ReleaseInput(id, r, a))
  }

  function Next(w: World, step: Step): World
    requires Enabled(w, step)
  {
    match step
    case Activate(user, allocation) => w.(credit := Ledger.Apply(w.credit, Ledger.IssueCmd(user, allocation)))
    case Post(id, requester, reward) => w.(order := Create(w.order, id, requester, reward))
    case TakeErrand(id, courier, version, passed) => w.(order := Accept(w.order, id, courier, version, passed))
    case Act(id, actor, action, facts, expected) =>
      var t := Transition(w.order, id, actor, action, facts, expected, NoPatch);
      if t.Applied? then w.(order := t.after) else w
    case CreditReceives(i) => w.(credit := Ledger.Apply(w.credit, CommandOf(w.order.outbox[i])))
    case CreditDeniesLate(i, seen) =>
      w.(credit := Ledger.Record(w.credit, CommandOf(w.order.outbox[i]).reservation, Ledger.Short(seen)))
    case OrderReceives(i, suspended) => w.(order := HandleReply(w.order, w.credit.outbox[i], suspended).1)
    case Observe(id) =>
      var o := w.order.orders[id];
      w.(looks := w.looks + {Look(Candidate(id, o.status, o.version), None)})
    case AskCredit(look) =>
      w.(looks := w.looks + {look.(credit := Some(Ledger.OrderStatus(w.credit, look.seen.order).0))})
    case RecordLook(look) =>
      var recorded := RecordReconciliation(w.order, look.seen, ActionFor(look.seen, look.credit));
      if recorded.None? then w else w.(order := recorded.value)
  }

  predicate Runs(w: World, steps: seq<Step>)
    decreases |steps|
  {
    steps == [] || (Enabled(w, steps[0]) && Runs(Next(w, steps[0]), steps[1..]))
  }

  function End(w: World, steps: seq<Step>): World
    requires Runs(w, steps)
    decreases |steps|
  {
    if steps == [] then w else End(Next(w, steps[0]), steps[1..])
  }

  lemma RunsCons(w: World, step: Step, rest: seq<Step>)
    requires Enabled(w, step) && Runs(Next(w, step), rest)
    ensures Runs(w, [step] + rest) && End(w, [step] + rest) == End(Next(w, step), rest)
  {
    assert ([step] + rest)[1..] == rest;
  }

  lemma {:induction false} RunsAppend(w: World, first: seq<Step>, rest: seq<Step>)
    requires Runs(w, first) && Runs(End(w, first), rest)
    ensures Runs(w, first + rest) && End(w, first + rest) == End(End(w, first), rest)
    decreases |first|
  {
    if first == [] {
      assert first + rest == rest;
    } else {
      RunsAppend(Next(w, first[0]), first[1..], rest);
      RunsCons(w, first[0], first[1..] + rest);
      assert [first[0]] + (first[1..] + rest) == first + rest;
    }
  }

  // ----- the invariant, one errand at a time

  function Reservation(c: CreditState, id: OrderId): Option<ReserveOperation> {
    if id in c.reserveOps then Some(c.reserveOps[id]) else None
  }

  function Terminal(c: CreditState, id: OrderId): Option<TerminalOperation> {
    if id in c.terminalOps then Some(c.terminalOps[id]) else None
  }

  predicate HeldFor(o: Order, r: Option<ReserveOperation>) { r.Some? && r.value.decision.Succeeded? }

  predicate PaidTo(o: Order, t: Option<TerminalOperation>) {
    t.Some? && t.value.TransferOperation? && t.value.paid.Some? && o.courier == Some(t.value.courier)
  }

  predicate ReturnedTo(t: Option<TerminalOperation>) { t.Some? && t.value.ReleaseOperation? && t.value.returned.Some? }

  predicate StatusAgrees(o: Order, r: Option<ReserveOperation>, t: Option<TerminalOperation>) {
    match o.status
    case PENDING_CREDIT => t.None? && o.reservedAt.None?
    case REJECTED => t.None? && r.Some? && r.value.decision.Refused?
                     && o.rejection == Some((r.value.decision.reason, r.value.decision.availableAtDecision))
    case OPEN => HeldFor(o, r) && t.None?
    case ACCEPTED => HeldFor(o, r) && t.None?
    case PICKED_UP => HeldFor(o, r) && t.None?
    case DELIVERED => HeldFor(o, r) && t.None?
    case DISPUTED => HeldFor(o, r) && t.None?
    case COMPLETION_PENDING_CREDIT => HeldFor(o, r) && (t.None? || PaidTo(o, t))
    case RELEASE_PENDING_CREDIT => HeldFor(o, r) && (t.None? || ReturnedTo(t)) && o.releaseReason.Some?
    case COMPLETED => HeldFor(o, r) && PaidTo(o, t) && o.creditTransaction == Some(t.value.paid.value.txId)
    case CANCELLED => HeldFor(o, r) && ReturnedTo(t) && o.creditTransaction == Some(t.value.returned.value.txId)
    case EXPIRED => HeldFor(o, r) && ReturnedTo(t) && o.creditTransaction == Some(t.value.returned.value.txId)
  }

  predicate OrderOk(o: Order, r: Option<ReserveOperation>, t: Option<TerminalOperation>) {
    && Ledger.Storable(o.reward)
    && (r.Some? ==> r.value.requester == o.requester && r.value.amount == o.reward)
    && (Life.HasCourier(o.status) ==> o.courier.Some?) && o.courier != Some(o.requester)
    && StatusAgrees(o, r, t)
  }

  predicate RequestOk(orders: map<OrderId, Order>, m: Request) {
    && m.order in orders
    && var o := orders[m.order];
       && m.requester == o.requester && m.amount == o.reward
       && match m
          case ReservationRequested(_, _, _) => true
          case CompletionRequested(_, _, c, _) =>
            (o.status.COMPLETION_PENDING_CREDIT? || o.status.COMPLETED?) && o.courier == Some(c)
          case ReleaseRequested(_, _, _) =>
            o.status.RELEASE_PENDING_CREDIT? || o.status.CANCELLED? || o.status.EXPIRED?
  }

  predicate ReplyOk(c: CreditState, m: Reply) {
    match m
    case CreditsReserved(id, r, a) =>
      id in c.reserveOps && c.reserveOps[id].decision.Succeeded?
      && c.reserveOps[id].requester == r && c.reserveOps[id].amount == a
    case ReservationRejected(id, r, a, reason, available) =>
      id in c.reserveOps && c.reserveOps[id] == ReserveOperation(r, a, Refused(reason, available))
    case CreditsTransferred(p) =>
      p.order in c.terminalOps && c.terminalOps[p.order] == TransferOperation(p.requester, p.courier, p.amount, Some(p))
    case CreditsReleased(p) =>
      p.order in c.terminalOps && c.terminalOps[p.order] == ReleaseOperation(p.requester, p.amount, Some(p))
  }

  /** A look describes the errand it names for as long as the errand's version stays the same. */
  predicate LookOk(orders: map<OrderId, Order>, look: Look) {
    && look.seen.order in orders && WaitsOnCredit(look.seen.status)
    && var o := orders[look.seen.order];
       && look.seen.version <= o.version
       && (look.seen.version == o.version ==>
             look.seen.status == o.status
             && (look.credit.Some? ==> ReconciliationDecision(look.seen.status, look.credit.value) == REISSUE))
  }

  predicate OrdersOk(w: World) {
    forall id <- w.order.orders ::
      OrderOk(w.order.orders[id], Reservation(w.credit, id), Terminal(w.credit, id))
  }

  predicate RequestsOk(w: World) { forall i | 0 <= i < |w.order.outbox| :: RequestOk(w.order.orders, w.order.outbox[i]) }

  predicate RepliesOk(w: World) { forall i | 0 <= i < |w.credit.outbox| :: ReplyOk(w.credit, w.credit.outbox[i]) }

  predicate LooksOk(w: World) { forall look <- w.looks :: LookOk(w.order.orders, look) }

  /** Credit knows only errands that were posted, has refused no terminal request and seen no conflict. */
  predicate NoAlarm(w: World) {
    w.credit.reserveOps.Keys <= w.order.orders.Keys && w.credit.alerts == [] && w.order.conflicts == {}
  }

  ghost predicate SagaInv(w: World) {
    Inv(w.credit) && OrdersOk(w) && RequestsOk(w) && RepliesOk(w) && LooksOk(w) && NoAlarm(w)
  }

  // ----- steps that change one errand

  /** The errand moved, but every message and look about it still describes it. */
  predicate Advances(o: Order, next: Order) {
    && next.requester == o.requester && next.reward == o.reward && next.version > o.version
    && (o.status.COMPLETION_PENDING_CREDIT? || o.status.COMPLETED? ==>
          next.courier == o.courier && next.status.COMPLETED?)
    && (o.status.RELEASE_PENDING_CREDIT? || o.status.CANCELLED? || o.status.EXPIRED? ==>
          next.status.CANCELLED? || next.status.EXPIRED?)
  }

  lemma AdvanceKeepsRequests(orders: map<OrderId, Order>, id: OrderId, next: Order, outbox: seq<Request>)
    requires id in orders && Advances(orders[id], next)
    requires forall i | 0 <= i < |outbox| :: RequestOk(orders, outbox[i])
    ensures forall i | 0 <= i < |outbox| :: RequestOk(orders[id := next], outbox[i])
  {
    forall i | 0 <= i < |outbox| ensures RequestOk(orders[id := next], outbox[i]) {
      assert RequestOk(orders, outbox[i]);
    }
  }

  lemma AdvanceKeepsLooks(orders: map<OrderId, Order>, id: OrderId, next: Order, looks: set<Look>)
    requires id in orders && orders[id].version < next.version
    requires forall look <- looks :: LookOk(orders, look)
    ensures forall look <- looks :: LookOk(orders[id := next], look)
  {
    forall look | look in looks ensures LookOk(orders[id := next], look) {
      assert LookOk(orders, look);
    }
  }

  lemma AdvanceKeeps(w: World, id: OrderId, next: Order, order: OrderState)
    requires SagaInv(w) && id in w.order.orders && Advances(w.order.orders[id], next)
    requires OrderOk(next, Reservation(w.credit, id), Terminal(w.credit, id))
    requires order.orders == w.order.orders[id := next] && order.conflicts == w.order.conflicts
    requires order.outbox == w.order.outbox
             || (CreditRequest(id, next).Some? && order.outbox == w.order.outbox + [CreditRequest(id, next).value])
    ensures SagaInv(w.(order := order))
  {
    AdvanceKeepsRequests(w.order.orders, id, next, w.order.outbox);
    AdvanceKeepsLooks(w.order.orders, id, next, w.looks);
  }

  /** Every transition of a person or a timer leads from a state that agrees with Credit to another. */
  lemma MoveAdvances(id: OrderId, o: Order, r: Option<ReserveOperation>, t: Option<TerminalOperation>, actor: Actor,
                     action: Action, facts: Facts)
    requires OrderOk(o, r, t) && !actor.CreditActor?
    requires Decide(o.status, action, actor, facts, o.releaseReason).Some?
    ensures var decision := Decide(o.status, action, actor, facts, o.releaseReason).value;
            var next := Moved(o, action, decision);
            && Advances(o, next) && OrderOk(next, r, t)
            && (!decision.emits.NoRequest? ==> CreditRequest(id, next).Some?)
  {
    Life.CreditMovesExactlyWhatWaits(o.status, action, actor, facts, o.releaseReason);
    Life.RequestsMatchWaiting(o.status, action, actor, facts, o.releaseReason);
  }

  lemma ActKeeps(w: World, id: OrderId, actor: CommandActor, action: Action, facts: Facts, expected: Option<nat>)
    requires SagaInv(w) && !actor.CreditService?
    ensures var t := Transition(w.order, id, actor, action, facts, expected, NoPatch);
            !t.CourierMissing? && (t.Applied? ==> SagaInv(w.(order := t.after)))
  {
    var t := Transition(w.order, id, actor, action, facts, expected, NoPatch);
    if !t.NotApplied? {
      var o := w.order.orders[id];
      assert OrderOk(o, Reservation(w.credit, id), Terminal(w.credit, id));
      MoveAdvances(id, o, Reservation(w.credit, id), Terminal(w.credit, id), Resolve(o, actor), action, facts);
      AdvanceKeeps(w, id, Moved(o, action, Decide(o.status, action, Resolve(o, actor), facts, o.releaseReason).value),
                   t.after);
    }
  }

  lemma CreateKeeps(w: World, id: OrderId, requester: UserId, reward: int)
    requires SagaInv(w) && id !in w.order.orders && Ledger.Storable(reward)
    ensures SagaInv(w.(order := Create(w.order, id, requester, reward)))
  {
    var after := w.(order := Create(w.order, id, requester, reward));
    forall i | 0 <= i < |after.order.outbox| ensures RequestOk(after.order.orders, after.order.outbox[i]) {
      assert i < |w.order.outbox| ==> RequestOk(w.order.orders, w.order.outbox[i]);
    }
    forall look | look in after.looks ensures LookOk(after.order.orders, look) {
      assert LookOk(w.order.orders, look);
    }
  }

  lemma AcceptKeeps(w: World, id: OrderId, courier: UserId, version: nat, passed: bool)
    requires SagaInv(w)
    ensures SagaInv(w.(order := Accept(w.order, id, courier, version, passed)))
  {
    var order := Accept(w.order, id, courier, version, passed);
    if order != w.order {
      assert OrderOk(w.order.orders[id], Reservation(w.credit, id), Terminal(w.credit, id));
      AdvanceKeeps(w, id, order.orders[id], order);
    }
  }

  // ----- Credit's replies

  predicate Quiet(h: Handled) { h.Acknowledged? || h.Stale? }

  /** At most one errand moved, to a state that agrees with Credit's rows `r` and `t` about it. */
  predicate Moves(s: OrderState, after: OrderState, id: OrderId, r: Option<ReserveOperation>, t: Option<TerminalOperation>) {
    after == s
    || (&& id in s.orders && id in after.orders && after.orders == s.orders[id := after.orders[id]]
        && after.conflicts == s.conflicts
        && Advances(s.orders[id], after.orders[id]) && OrderOk(after.orders[id], r, t)
        && (after.outbox == s.outbox
            || (CreditRequest(id, after.orders[id]).Some?
                && after.outbox == s.outbox + [CreditRequest(id, after.orders[id]).value])))
  }

  predicate Agreed(s: OrderState, id: OrderId, r: Option<ReserveOperation>, t: Option<TerminalOperation>) {
    id in s.orders && OrderOk(s.orders[id], r, t)
  }

  lemma MoveKeeps(w: World, id: OrderId, after: OrderState)
    requires SagaInv(w) && Moves(w.order, after, id, Reservation(w.credit, id), Terminal(w.credit, id))
    ensures SagaInv(w.(order := after))
  {
    if after == w.order {
      assert w.(order := after) == w;
    } else {
      AdvanceKeeps(w, id, after.orders[id], after);
    }
  }

  lemma ReservedMoves(s: OrderState, id: OrderId, r: Option<ReserveOperation>, t: Option<TerminalOperation>, suspended: bool)
    requires Agreed(s, id, r, t) && r.Some? && r.value.decision.Succeeded?
    ensures var (h, after) := HandleReserved(s, id, r.value.requester, r.value.amount, suspended);
            Quiet(h) && Moves(s, after, id, r, t)
  {
  }

  lemma RejectedMoves(s: OrderState, id: OrderId, r: Option<ReserveOperation>, t: Option<TerminalOperation>)
    requires Agreed(s, id, r, t) && r.Some? && r.value.decision.Refused?
    ensures var (h, after) := HandleRejected(s, id, r.value.requester, r.value.amount,
                                             r.value.decision.reason, r.value.decision.availableAtDecision);
            Quiet(h) && Moves(s, after, id, r, t)
  {
  }

  lemma TransferredMoves(s: OrderState, r: Option<ReserveOperation>, paid: TransferResult)
    requires Agreed(s, paid.order, r, Some(TransferOperation(paid.requester, paid.courier, paid.amount, Some(paid))))
    requires r.Some? && r.value.requester == paid.requester && r.value.amount == paid.amount
    ensures var (h, after) := HandleTransferred(s, paid);
            Quiet(h) && Moves(s, after, paid.order, r,
                              Some(TransferOperation(paid.requester, paid.courier, paid.amount, Some(paid))))
  {
  }

  lemma ReleasedMoves(s: OrderState, r: Option<ReserveOperation>, returned: ReleaseResult)
    requires Agreed(s, returned.order, r, Some(ReleaseOperation(returned.requester, returned.amount, Some(returned))))
    requires r.Some? && r.value.requester == returned.requester && r.value.amount == returned.amount
    ensures var (h, after) := HandleReleased(s, returned);
            Quiet(h) && Moves(s, after, returned.order, r,
                              Some(ReleaseOperation(returned.requester, returned.amount, Some(returned))))
  {
  }

  function ReplyOrder(reply: Reply): OrderId {
    match reply
    case CreditsReserved(id, _, _) => id
    case ReservationRejected(id, _, _, _, _) => id
    case CreditsTransferred(paid) => paid.order
    case CreditsReleased(returned) => returned.order
  }

  lemma ReplyMoves(c: CreditState, s: OrderState, reply: Reply, suspended: bool)
    requires Linked(c) && ReplyOk(c, reply)
    requires Agreed(s, ReplyOrder(reply), Reservation(c, ReplyOrder(reply)), Terminal(c, ReplyOrder(reply)))
    ensures var (h, after) := HandleReply(s, reply, suspended); var id := ReplyOrder(reply);
            Quiet(h) && Moves(s, after, id, Reservation(c, id), Terminal(c, id))
  {
    var id := ReplyOrder(reply);
    match reply
    case CreditsReserved(_, _, _) => ReservedMoves(s, id, Reservation(c, id), Terminal(c, id), suspended);
    case ReservationRejected(_, _, _, _, _) => RejectedMoves(s, id, Reservation(c, id), Terminal(c, id));
    case CreditsTransferred(paid) =>
      assert TerminalLinked(c, id);
      TransferredMoves(s, Reservation(c, id), paid);
    case CreditsReleased(returned) =>
      assert TerminalLinked(c, id);
      ReleasedMoves(s, Reservation(c, id), returned);
  }

  /** No reply is ever set aside for an operator, however late or often it comes. */
  lemma ReplyIsQuiet(w: World, i: nat, suspended: bool)
    requires SagaInv(w) && i < |w.credit.outbox|
    ensures var (h, order) := HandleReply(w.order, w.credit.outbox[i], suspended);
            Quiet(h) && SagaInv(w.(order := order))
  {
    var reply := w.credit.outbox[i];
    var id := ReplyOrder(reply);
    assert ReplyOk(w.credit, reply);
    assert id in w.credit.reserveOps by {
      assert id in w.credit.terminalOps ==> TerminalLinked(w.credit, id);
    }
    assert OrderOk(w.order.orders[id], Reservation(w.credit, id), Terminal(w.credit, id));
    ReplyMoves(w.credit, w.order, reply, suspended);
    MoveKeeps(w, id, HandleReply(w.order, reply, suspended).1);
  }

  // ----- Order's requests

  /** Only rows of the request's own errand change. */
  ghost predicate OwnRows(c: CreditState, after: CreditState, id: OrderId) {
    && (forall k | k != id :: Reservation(after, k) == Reservation(c, k) && Terminal(after, k) == Terminal(c, k))
    && after.reserveOps.Keys <= c.reserveOps.Keys + {id}
  }

  /** At most one more reply was sent, and it is genuine. */
  predicate Replies(c: CreditState, after: CreditState) {
    after.outbox == c.outbox
    || (|after.outbox| == |c.outbox| + 1 && c.outbox <= after.outbox && ReplyOk(after, after.outbox[|c.outbox|]))
  }

  ghost predicate Serves(c: CreditState, after: CreditState, id: OrderId) {
    Final.Extends(c, after) && after.alerts == c.alerts && OwnRows(c, after, id) && Replies(c, after)
  }

  lemma ReservationAgrees(c: CreditState, id: OrderId, o: Order)
    requires Linked(c) && OrderOk(o, Reservation(c, id), Terminal(c, id))
    ensures var after := Ledger.Apply(c, Ledger.ReserveCmd(ReservationInput(id, o.requester, o.reward)));
            after.alerts == c.alerts && OrderOk(o, Reservation(after, id), Terminal(after, id))
  {
    if id in c.reserveOps {
      assert ReserveLinked(c, id);
    }
  }

  lemma ReservationReplies(c: CreditState, input: ReservationInput)
    requires Linked(c)
    requires input.order in c.reserveOps ==>
               c.reserveOps[input.order].requester == input.requester && c.reserveOps[input.order].amount == input.amount
    ensures Replies(c, Ledger.Apply(c, Ledger.ReserveCmd(input)))
  {
    if input.order in c.reserveOps {
      assert ReserveLinked(c, input.order);
    }
  }

  lemma CompletionAgrees(c: CreditState, id: OrderId, o: Order)
    requires Linked(c) && OrderOk(o, Reservation(c, id), Terminal(c, id))
    requires (o.status.COMPLETION_PENDING_CREDIT? || o.status.COMPLETED?)
    ensures var after := Ledger.Apply(c, Ledger.TransferCmd(TransferInput(id, o.requester, o.courier.value, o.reward)));
            && after.alerts == c.alerts && OrderOk(o, Reservation(after, id), Terminal(after, id))
            && Replies(c, after)
  {
    assert ReserveLinked(c, id);
    if id in c.terminalOps {
      assert TerminalLinked(c, id);
    }
  }

  lemma ReleaseAgrees(c: CreditState, id: OrderId, o: Order)
    requires Linked(c) && OrderOk(o, Reservation(c, id), Terminal(c, id))
    requires (o.status.RELEASE_PENDING_CREDIT? || o.status.CANCELLED? || o.status.EXPIRED?)
    ensures var after := Ledger.Apply(c, Ledger.ReleaseCmd(ReleaseInput(id, o.requester, o.reward)));
            && after.alerts == c.alerts && OrderOk(o, Reservation(after, id), Terminal(after, id))
            && Replies(c, after)
  {
    assert ReserveLinked(c, id);
    if id in c.terminalOps {
      assert TerminalLinked(c, id);
    }
  }

  lemma OnlyOwnRows(c: CreditState, m: Request)
    ensures OwnRows(c, Ledger.Apply(c, CommandOf(m)), m.order)
  {
  }

  lemma RequestServed(w: World, m: Request)
    requires SagaInv(w) && RequestOk(w.order.orders, m)
    ensures var after := Ledger.Apply(w.credit, CommandOf(m));
            && Serves(w.credit, after, m.order)
            && OrderOk(w.order.orders[m.order], Reservation(after, m.order), Terminal(after, m.order))
  {
    var o := w.order.orders[m.order];
    assert OrderOk(o, Reservation(w.credit, m.order), Terminal(w.credit, m.order));
    Final.ApplyExtends(w.credit, CommandOf(m));
    OnlyOwnRows(w.credit, m);
    match m
    case ReservationRequested(id, r, a) =>
      ReservationAgrees(w.credit, id, o);
      ReservationReplies(w.credit, ReservationInput(id, r, a));
    case CompletionRequested(id, _, _, _) => CompletionAgrees(w.credit, id, o);
    case ReleaseRequested(id, _, _) => ReleaseAgrees(w.credit, id, o);
  }

  lemma ReplyStaysOk(c: CreditState, after: CreditState, m: Reply)
    requires Final.Extends(c, after) && ReplyOk(c, m)
    ensures ReplyOk(after, m)
  {
  }

  lemma RepliesStayOk(c: CreditState, after: CreditState)
    requires Final.Extends(c, after) && Replies(c, after)
    requires forall i | 0 <= i < |c.outbox| :: ReplyOk(c, c.outbox[i])
    ensures forall i | 0 <= i < |after.outbox| :: ReplyOk(after, after.outbox[i])
  {
    forall i | 0 <= i < |after.outbox| ensures ReplyOk(after, after.outbox[i]) {
      if i < |c.outbox| {
        ReplyStaysOk(c, after, c.outbox[i]);
      }
    }
  }

  lemma OthersStayOk(orders: map<OrderId, Order>, c: CreditState, after: CreditState, id: OrderId)
    requires OwnRows(c, after, id)
    requires forall k <- orders :: OrderOk(orders[k], Reservation(c, k), Terminal(c, k))
    requires id in orders && OrderOk(orders[id], Reservation(after, id), Terminal(after, id))
    ensures forall k <- orders :: OrderOk(orders[k], Reservation(after, k), Terminal(after, k))
  {
    forall k | k in orders ensures OrderOk(orders[k], Reservation(after, k), Terminal(after, k)) {
      assert OrderOk(orders[k], Reservation(c, k), Terminal(c, k));
    }
  }

  lemma ServeKeeps(w: World, m: Request)
    requires SagaInv(w) && RequestOk(w.order.orders, m)
    ensures SagaInv(w.(credit := Ledger.Apply(w.credit, CommandOf(m))))
  {
    var after := Ledger.Apply(w.credit, CommandOf(m));
    RequestServed(w, m);
    Keep.ApplyKeeps(w.credit, CommandOf(m));
    RepliesStayOk(w.credit, after);
    OthersStayOk(w.order.orders, w.credit, after, m.order);
  }

  /** A reservation denied late leaves what one denied in time leaves. */
  lemma LateDenialKeeps(w: World, m: Request, seen: int)
    requires SagaInv(w) && RequestOk(w.order.orders, m)
    requires m.ReservationRequested? && Ledger.MayDenyLate(w.credit, CommandOf(m).reservation)
    ensures SagaInv(w.(credit := Ledger.Record(w.credit, CommandOf(m).reservation, Ledger.Short(seen))))
  {
    var after := Ledger.Record(w.credit, CommandOf(m).reservation, Ledger.Short(seen));
    assert OrderOk(w.order.orders[m.order], Reservation(w.credit, m.order), Terminal(w.credit, m.order));
    Keep.DenialKeeps(w.credit, CommandOf(m).reservation, Ledger.Short(seen));
    RepliesStayOk(w.credit, after);
    OthersStayOk(w.order.orders, w.credit, after, m.order);
  }

  lemma ActivateKeeps(w: World, user: UserId, allocation: Allocation)
    requires SagaInv(w)
    ensures SagaInv(w.(credit := Ledger.Apply(w.credit, Ledger.IssueCmd(user, allocation))))
  {
    var c := Ledger.Apply(w.credit, Ledger.IssueCmd(user, allocation));
    Keep.ApplyKeeps(w.credit, Ledger.IssueCmd(user, allocation));
    forall k | k in w.order.orders
      ensures OrderOk(w.order.orders[k], Reservation(c, k), Terminal(c, k))
    {
      assert OrderOk(w.order.orders[k], Reservation(w.credit, k), Terminal(w.credit, k));
    }
    forall i | 0 <= i < |c.outbox| ensures ReplyOk(c, c.outbox[i]) {
      assert ReplyOk(w.credit, w.credit.outbox[i]);
    }
  }

  // ----- reconciliation

  lemma AskKeeps(w: World, look: Look)
    requires SagaInv(w) && look in w.looks
    ensures SagaInv(w.(looks := w.looks + {look.(credit := Some(Ledger.OrderStatus(w.credit, look.seen.order).0))}))
  {
    var id := look.seen.order;
    assert LookOk(w.order.orders, look);
    assert OrderOk(w.order.orders[id], Reservation(w.credit, id), Terminal(w.credit, id));
    assert LookOk(w.order.orders, look.(credit := Some(Ledger.OrderStatus(w.credit, id).0)));
  }

  /** A decision recorded for an unchanged version is never an alert, however old Credit's answer is. */
  lemma RecordIsQuiet(w: World, look: Look)
    requires SagaInv(w) && look in w.looks && look.credit.Some?
    ensures WaitsOnCredit(look.seen.status)
    ensures look.seen.version == w.order.orders[look.seen.order].version ==>
              ActionFor(look.seen, look.credit) == REISSUE
    ensures var r := RecordReconciliation(w.order, look.seen, ActionFor(look.seen, look.credit));
            (r.Some? <==> w.order.orders[look.seen.order].version == look.seen.version)
            && (r.Some? ==> r.value.conflicts == {})
  {
    assert LookOk(w.order.orders, look);
    var id := look.seen.order;
    assert OrderOk(w.order.orders[id], Reservation(w.credit, id), Terminal(w.credit, id));
  }

  lemma RecordKeeps(w: World, look: Look)
    requires SagaInv(w) && look in w.looks
    ensures WaitsOnCredit(look.seen.status)
    ensures var r := RecordReconciliation(w.order, look.seen, ActionFor(look.seen, look.credit));
            r.Some? ==> SagaInv(w.(order := r.value))
  {
    var id := look.seen.order;
    assert LookOk(w.order.orders, look);
    assert OrderOk(w.order.orders[id], Reservation(w.credit, id), Terminal(w.credit, id));
    var r := RecordReconciliation(w.order, look.seen, ActionFor(look.seen, look.credit));
    if r.Some? && r.value != w.order {
      forall i | 0 <= i < |r.value.outbox| ensures RequestOk(r.value.orders, r.value.outbox[i]) {
        assert i < |w.order.outbox| ==> RequestOk(w.order.orders, w.order.outbox[i]);
      }
    }
  }

  // ----- every reachable state

  lemma StepKeeps(w: World, step: Step)
    requires SagaInv(w) && Enabled(w, step)
    ensures SagaInv(Next(w, step))
  {
    match step
    case Activate(user, allocation) => ActivateKeeps(w, user, allocation);
    case Post(id, requester, reward) => CreateKeeps(w, id, requester, reward);
    case TakeErrand(id, courier, version, passed) => AcceptKeeps(w, id, courier, version, passed);
    case Act(id, actor, action, facts, expected) => ActKeeps(w, id, actor, action, facts, expected);
    case CreditReceives(i) =>
      assert RequestOk(w.order.orders, w.order.outbox[i]);
      ServeKeeps(w, w.order.outbox[i]);
    case CreditDeniesLate(i, seen) =>
      assert RequestOk(w.order.orders, w.order.outbox[i]);
      LateDenialKeeps(w, w.order.outbox[i], seen);
    case OrderReceives(i, suspended) => ReplyIsQuiet(w, i, suspended);
    case Observe(id) =>
    case AskCredit(look) => AskKeeps(w, look);
    case RecordLook(look) => RecordKeeps(w, look);
  }

  lemma {:induction false} RunKeeps(w: World, steps: seq<Step>)
    requires SagaInv(w) && Runs(w, steps)
    ensures SagaInv(End(w, steps))
    decreases |steps|
  {
    if steps != [] {
      StepKeeps(w, steps[0]);
      RunKeeps(Next(w, steps[0]), steps[1..]);
    }
  }
}
