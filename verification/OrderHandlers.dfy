/** What the Order Service does with Credit's replies, with a new or accepted errand, and with one
    reconciliation decision: functions from its tables to an outcome and the new tables. */
module OrderHandlers {
  import opened Wrappers
  import opened CreditTypes
  import opened OrderTypes
  import Ledger = CreditLedger

  /** `Stale` is acknowledged and counted; a dead letter waits for an operator; a failure is retried.
      Only an acknowledged reply that changed something changes the tables. */
  datatype Handled = Acknowledged(changed: bool) | Stale | DeadLettered | Failed

  const NO_FACTS := Facts(false, false, false, false, false)

  function Finish(s: OrderState, t: Transitioned, refused: Handled): (Handled, OrderState) {
    match t
    case Applied(after) => (Acknowledged(true), after)
    case NotApplied => (refused, s)
    case CourierMissing => (Failed, s)
  }

  // ----- the reservation reply

  predicate NamesOrder(s: OrderState, id: OrderId, requester: UserId, amount: int) {
    id in s.orders && s.orders[id].requester == requester && s.orders[id].reward == amount
  }

  function HandleReserved(s: OrderState, id: OrderId, requester: UserId, amount: int, suspended: bool): (Handled, OrderState) {
    if !NamesOrder(s, id, requester, amount) then (DeadLettered, s)
    else
      var order := s.orders[id];
      var facts := NO_FACTS.(requesterSuspended := order.status.PENDING_CREDIT? && suspended);
      var refused := if order.status.REJECTED? then DeadLettered
                     else if order.reservedAt.Some? && order.version > order.reservedAt.value then Stale
                     else Acknowledged(false);
      Finish(s, Transition(s, id, CreditService, CREDIT_RESERVED, facts, None, NoPatch), refused)
  }

  function HandleRejected(s: OrderState, id: OrderId, requester: UserId, amount: int,
                          reason: ReservationRejection, available: Option<int>): (Handled, OrderState)
  {
    if !NamesOrder(s, id, requester, amount) then (DeadLettered, s)
    else
      var order := s.orders[id];
      var refused := if order.status.REJECTED? && order.rejection == Some((reason, available))
                     then Acknowledged(false) else DeadLettered;
      Finish(s, Transition(s, id, CreditService, CREDIT_REJECTED, NO_FACTS, None, WithRejection(reason, available)),
             refused)
  }

  // ----- the terminal replies

  predicate TransferMatches(order: Order, paid: TransferResult) {
    order.requester == paid.requester && order.courier == Some(paid.courier) && order.reward == paid.amount
  }

  function HandleTransferred(s: OrderState, paid: TransferResult): (Handled, OrderState) {
    var t := Transition(s, paid.order, CreditService, TRANSFER_CONFIRMED, NO_FACTS, None, WithTransaction(paid.txId));
    if t.Applied? then
      if !TransferMatches(s.orders[paid.order], paid) then (DeadLettered, s)
      else (Acknowledged(true), t.after.(receipts := t.after.receipts[paid.order := paid.txId]))
    else
      var duplicate := paid.order in s.orders && s.orders[paid.order].status.COMPLETED?
                       && s.orders[paid.order].creditTransaction == Some(paid.txId)
                       && TransferMatches(s.orders[paid.order], paid);
      Finish(s, t, if duplicate then Acknowledged(false) else DeadLettered)
  }

  predicate ReleaseMatches(order: Order, returned: ReleaseResult) {
    order.requester == returned.requester && order.reward == returned.amount
  }

  function HandleReleased(s: OrderState, returned: ReleaseResult): (Handled, OrderState) {
    var t := Transition(s, returned.order, CreditService, RELEASE_CONFIRMED, NO_FACTS, None,
                        WithTransaction(returned.txId));
    if t.Applied? && !ReleaseMatches(s.orders[returned.order], returned) then (DeadLettered, s)
    else
      var duplicate := returned.order in s.orders
                       && (s.orders[returned.order].status.CANCELLED? || s.orders[returned.order].status.EXPIRED?)
                       && s.orders[returned.order].creditTransaction == Some(returned.txId)
                       && ReleaseMatches(s.orders[returned.order], returned);
      Finish(s, t, if duplicate then Acknowledged(false) else DeadLettered)
  }

  /** `suspended` is the User Service's answer, asked under the errand's lock. */
  function HandleReply(s: OrderState, reply: Reply, suspended: bool): (Handled, OrderState) {
    match reply
    case CreditsReserved(id, requester, amount) => HandleReserved(s, id, requester, amount, suspended)
    case ReservationRejected(id, requester, amount, reason, available) =>
      HandleRejected(s, id, requester, amount, reason, available)
    case CreditsTransferred(paid) => HandleTransferred(s, paid)
    case CreditsReleased(returned) => HandleReleased(s, returned)
  }

  // ----- creation and acceptance

  function Create(s: OrderState, id: OrderId, requester: UserId, reward: int): OrderState
    requires id !in s.orders
  {
    s.(orders := s.orders[id := Order(requester, None, reward, PENDING_CREDIT, None, None, None, 1, None)],
       outbox := s.outbox + [ReservationRequested(id, requester, reward)])
  }

  /** One conditional update: an open errand of someone else, unchanged and before its deadline. */
  function Accept(s: OrderState, id: OrderId, courier: UserId, expectedVersion: nat, deadlinePassed: bool): OrderState {
    if id in s.orders && s.orders[id].status.OPEN? && s.orders[id].version == expectedVersion
       && s.orders[id].requester != courier && !deadlinePassed
    then s.(orders := s.orders[id := s.orders[id].(courier := Some(courier), status := ACCEPTED,
                                                   version := s.orders[id].version + 1)])
    else s
  }

  // ----- reconciliation

  datatype ReconcileAction = REISSUE | ALERT | CREDIT_UNAVAILABLE

  predicate WaitsOnCredit(status: Status) {
    status.PENDING_CREDIT? || status.COMPLETION_PENDING_CREDIT? || status.RELEASE_PENDING_CREDIT?
  }

  function ReconciliationDecision(status: Status, credit: Ledger.CreditStatus): ReconcileAction
    requires WaitsOnCredit(status)
  {
    match (status, credit)
    case (PENDING_CREDIT, NONE) => REISSUE
    case (PENDING_CREDIT, RESERVED) => REISSUE
    case (COMPLETION_PENDING_CREDIT, RESERVED) => REISSUE
    case (COMPLETION_PENDING_CREDIT, TRANSFERRED) => REISSUE
    case (RELEASE_PENDING_CREDIT, RESERVED) => REISSUE
    case (RELEASE_PENDING_CREDIT, RELEASED) => REISSUE
    case _ => ALERT
  }

  /** A candidate as it was read, before Credit was asked and without its lock. */
  datatype Candidate = Candidate(order: OrderId, status: Status, version: nat)

  function ActionFor(seen: Candidate, credit: Option<Ledger.CreditStatus>): ReconcileAction
    requires WaitsOnCredit(seen.status)
  {
    if credit.None? then CREDIT_UNAVAILABLE else ReconciliationDecision(seen.status, credit.value)
  }

  /** Records one decision under the errand's lock, unless it has moved on since it was read. */
  function RecordReconciliation(s: OrderState, seen: Candidate, action: ReconcileAction): Option<OrderState> {
    if seen.order !in s.orders || s.orders[seen.order].status != seen.status
       || s.orders[seen.order].version != seen.version
    then None
    else match action
      case REISSUE =>
        var request := CreditRequest(seen.order, s.orders[seen.order]);
        if request.None? then None else Some(s.(outbox := s.outbox + [request.value]))
      case ALERT => Some(s.(conflicts := s.conflicts + {seen.order}))
      case CREDIT_UNAVAILABLE => Some(s)
  }
}
