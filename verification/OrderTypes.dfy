/** The errands of the Order Service: their states, the transition table, and what one transition
    changes and sends. Clocks and the callers' rights enter as the facts in `Facts`. */
module OrderTypes {
  import opened Wrappers
  import opened CreditTypes

  datatype Status =
    | PENDING_CREDIT | OPEN | ACCEPTED | PICKED_UP | DELIVERED | DISPUTED
    | COMPLETION_PENDING_CREDIT | RELEASE_PENDING_CREDIT
    | REJECTED | COMPLETED | CANCELLED | EXPIRED

  datatype Action =
    | CREDIT_RESERVED | CREDIT_REJECTED | CANCEL | REQUESTER_SUSPENDED | ACCEPTANCE_DEADLINE_PASSED
    | RECORD_PICKUP | WITHDRAW | PICKUP_TIMEOUT | COURIER_SUSPENDED | RECORD_DELIVERY | REPORT_NON_DELIVERY
    | DELIVERY_PERIOD_PASSED | CONFIRM_RECEIPT | AUTO_CONFIRM | REPORT_NON_RECEIPT | RESOLVE_FOR_COURIER
    | RESOLVE_FOR_REQUESTER | ADMIN_ASSIGNED | ADMIN_UNASSIGNED | TRANSFER_CONFIRMED | RELEASE_CONFIRMED

  datatype Actor = RequesterActor | CourierActor | StudentActor | AdminActor | CreditActor | SystemActor

  /** Who sends a command; a person's part is resolved against the errand. */
  datatype CommandActor = Person(id: UserId, isAdmin: bool) | System | CreditService

  /** An errand being released is to end as one of these. */
  datatype ReleaseReason = AsCancelled | AsExpired

  datatype Facts = Facts(acceptanceDeadlinePassed: bool, deliveryPeriodPassed: bool,
                         autoConfirmationPeriodPassed: bool, requesterSuspended: bool, reasonProvided: bool)

  datatype Order = Order(requester: UserId, courier: Option<UserId>, reward: int, status: Status,
                         releaseReason: Option<ReleaseReason>,
                         rejection: Option<(ReservationRejection, Option<int>)>,
                         creditTransaction: Option<TxId>, version: nat, reservedAt: Option<nat>)

  datatype Request =
    | ReservationRequested(order: OrderId, requester: UserId, amount: int)
    | CompletionRequested(order: OrderId, requester: UserId, courier: UserId, amount: int)
    | ReleaseRequested(order: OrderId, requester: UserId, amount: int)

  /** The Order Service's tables: errands, the requests in its outbox, receipts, and the errands with
      a CREDIT_STATE_CONFLICT alert. */
  datatype OrderState = OrderState(orders: map<OrderId, Order>, outbox: seq<Request>,
                                   receipts: map<OrderId, TxId>, conflicts: set<OrderId>)

  datatype Emits = NoRequest | Completion | ReleaseOfReward

  datatype Decision = Decision(to: Status, reason: Option<ReleaseReason>, emits: Emits)

  function To(status: Status): Option<Decision> { Some(Decision(status, None, NoRequest)) }

  function Releasing(reason: ReleaseReason): Option<Decision> {
    Some(Decision(RELEASE_PENDING_CREDIT, Some(reason), ReleaseOfReward))
  }

  const COMPLETING: Option<Decision> := Some(Decision(COMPLETION_PENDING_CREDIT, None, Completion))

  /** The transition table; `None` refuses. */
  function Decide(from: Status, action: Action, actor: Actor, facts: Facts,
                  reason: Option<ReleaseReason>): Option<Decision>
  {
    match (from, action, actor)
    case (PENDING_CREDIT, CREDIT_RESERVED, CreditActor) =>
      if facts.requesterSuspended then Releasing(AsCancelled) else To(OPEN)
    case (PENDING_CREDIT, CREDIT_REJECTED, CreditActor) => To(REJECTED)
    case (OPEN, CANCEL, RequesterActor) => Releasing(AsCancelled)
    case (OPEN, REQUESTER_SUSPENDED, SystemActor) => Releasing(AsCancelled)
    case (OPEN, ACCEPTANCE_DEADLINE_PASSED, SystemActor) => Releasing(AsExpired)
    case (ACCEPTED, RECORD_PICKUP, CourierActor) => To(PICKED_UP)
    case (ACCEPTED, CANCEL, RequesterActor) => Releasing(AsCancelled)
    case (ACCEPTED, REQUESTER_SUSPENDED, SystemActor) => Releasing(AsCancelled)
    case (ACCEPTED, WITHDRAW, CourierActor) =>
      if facts.acceptanceDeadlinePassed then Releasing(AsExpired) else To(OPEN)
    case (ACCEPTED, PICKUP_TIMEOUT, SystemActor) =>
      if facts.acceptanceDeadlinePassed then Releasing(AsExpired) else To(OPEN)
    case (ACCEPTED, COURIER_SUSPENDED, SystemActor) => To(OPEN)
    case (PICKED_UP, RECORD_DELIVERY, CourierActor) => To(DELIVERED)
    case (PICKED_UP, REPORT_NON_DELIVERY, RequesterActor) =>
      if facts.deliveryPeriodPassed then To(DISPUTED) else None
    case (PICKED_UP, DELIVERY_PERIOD_PASSED, SystemActor) =>
      if facts.requesterSuspended && facts.deliveryPeriodPassed then To(DISPUTED) else None
    case (PICKED_UP, COURIER_SUSPENDED, SystemActor) => To(DISPUTED)
    case (DELIVERED, CONFIRM_RECEIPT, RequesterActor) => COMPLETING
    case (DELIVERED, AUTO_CONFIRM, SystemActor) => COMPLETING
    case (DELIVERED, REPORT_NON_RECEIPT, RequesterActor) =>
      if facts.autoConfirmationPeriodPassed then None else To(DISPUTED)
    case (DISPUTED, RESOLVE_FOR_COURIER, AdminActor) => if facts.reasonProvided then COMPLETING else None
    case (DISPUTED, RESOLVE_FOR_REQUESTER, AdminActor) =>
      if facts.reasonProvided then Releasing(AsCancelled) else None
    case (DISPUTED, ADMIN_ASSIGNED, SystemActor) => To(DISPUTED)
    case (DISPUTED, ADMIN_UNASSIGNED, SystemActor) => To(DISPUTED)
    case (COMPLETION_PENDING_CREDIT, TRANSFER_CONFIRMED, CreditActor) => To(COMPLETED)
    case (RELEASE_PENDING_CREDIT, RELEASE_CONFIRMED, CreditActor) =>
      (match reason
       case Some(AsCancelled) => To(CANCELLED)
       case Some(AsExpired) => To(EXPIRED)
       case None => None)
    case _ => None
  }

  /** The part a person plays in this errand; only someone with no other part plays the administrator. */
  function Resolve(order: Order, actor: CommandActor): Actor {
    match actor
    case System => SystemActor
    case CreditService => CreditActor
    case Person(id, isAdmin) =>
      if id == order.requester then RequesterActor
      else if order.courier == Some(id) then CourierActor
      else if isAdmin then AdminActor
      else StudentActor
  }

  /** A withdrawn, timed-out or suspended courier loses an errand not yet picked up. */
  predicate LosesCourier(action: Action, to: Status) {
    action.WITHDRAW? || action.PICKUP_TIMEOUT? || (action.COURIER_SUSPENDED? && to.OPEN?)
  }

  function Moved(order: Order, action: Action, decision: Decision): Order {
    order.(status := decision.to, version := order.version + 1,
           releaseReason := if decision.reason.Some? then decision.reason else order.releaseReason,
           courier := if LosesCourier(action, decision.to) then None else order.courier,
           reservedAt := if action.CREDIT_RESERVED? then Some(order.version + 1) else order.reservedAt)
  }

  /** The request an errand waiting on Credit waits for. A completion names the courier. */
  function CreditRequest(id: OrderId, order: Order): Option<Request> {
    match order.status
    case PENDING_CREDIT => Some(ReservationRequested(id, order.requester, order.reward))
    case COMPLETION_PENDING_CREDIT =>
      if order.courier.None? then None
      else Some(CompletionRequested(id, order.requester, order.courier.value, order.reward))
    case RELEASE_PENDING_CREDIT => Some(ReleaseRequested(id, order.requester, order.reward))
    case _ => None
  }

  /** The columns that Credit's replies add to the transition they cause. */
  datatype Patch = NoPatch | WithRejection(reason: ReservationRejection, available: Option<int>) | WithTransaction(id: TxId)

  function Patched(order: Order, patch: Patch): Order {
    match patch
    case NoPatch => order
    case WithRejection(reason, available) => order.(rejection := Some((reason, available)))
    case WithTransaction(id) => order.(creditTransaction := Some(id))
  }

  /** Refused transitions change nothing; a completion without a courier is an error. */
  datatype Transitioned = Applied(after: OrderState) | NotApplied | CourierMissing

  function Transition(s: OrderState, id: OrderId, actor: CommandActor, action: Action, facts: Facts,
                      expectedVersion: Option<nat>, patch: Patch): Transitioned
  {
    if id !in s.orders then NotApplied
    else
      var order := s.orders[id];
      var decision := Decide(order.status, action, Resolve(order, actor), facts, order.releaseReason);
      if decision.None? || (expectedVersion.Some? && expectedVersion.value != order.version) then NotApplied
      else
        var next := Patched(Moved(order, action, decision.value), patch);
        var moved := s.(orders := s.orders[id := next]);
        if decision.value.emits.NoRequest? then Applied(moved)
        else
          var request := CreditRequest(id, next);
          if request.None? then CourierMissing else Applied(moved.(outbox := s.outbox + [request.value]))
  }
}
