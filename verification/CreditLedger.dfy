/** What each movement of the Credit Service does when its transaction runs alone: a function from
    the tables to an error, which rolls everything back, or to an answer and the new tables. */
module CreditLedger {
  import opened Wrappers
  import opened CreditTypes

  type Attempted<+R> = Attempt<R, CreditState, CreditError>

  predicate Storable(amount: int) { 0 < amount <= INT_MAX }

  function Move(w: Wallet, available: int, reserved: int): Wallet {
    Wallet(w.available + available, w.reserved + reserved)
  }

  /** The two ledger entries of one transaction: `from` is debited, `to` is credited. */
  function Posting(id: TxId, amount: int, from: Option<UserId>, fromAccount: Account, fromAfter: Option<Wallet>,
                   to: UserId, toAccount: Account, toAfter: Wallet): seq<Entry>
  {
    [Entry(id, from, fromAccount, Debit, amount, fromAfter),
     Entry(id, Some(to), toAccount, Credit, amount, Some(toAfter))]
  }

  // ----- issue

  /** Funds a new wallet; an existing one is left alone. */
  function IssueInitial(s: CreditState, user: UserId, allocation: Allocation): Attempted<bool> {
    if user in s.wallets then Done(false, s)
    else
      var w := Wallet(allocation, 0);
      var id := |s.transactions|;
      Done(true, s.(wallets := s.wallets[user := w],
                    transactions := s.transactions + [Transaction(None, ISSUE, user, allocation)],
                    ledger := s.ledger + Posting(id, allocation, None, PlatformIssuance, None, user, Available, w)))
  }

  // ----- reserve

  function ReplyTo(input: ReservationInput, outcome: ReservationOutcome): Reply {
    match outcome
    case ReservationHeld(_) => CreditsReserved(input.order, input.requester, input.amount)
    case ReservationDenied(reason, available) =>
      ReservationRejected(input.order, input.requester, input.amount, reason, available)
  }

  function DecisionOf(outcome: ReservationOutcome): ReserveDecision {
    match outcome
    case ReservationHeld(id) => Succeeded(id)
    case ReservationDenied(reason, available) => Refused(reason, available)
  }

  /** The answer a recorded decision repeats. */
  function OutcomeOf(decision: ReserveDecision): ReservationOutcome
    requires !decision.Pending?
  {
    match decision
    case Succeeded(id) => ReservationHeld(id)
    case Refused(reason, available) => ReservationDenied(reason, available)
  }

  function Record(s: CreditState, input: ReservationInput, outcome: ReservationOutcome): CreditState {
    s.(reserveOps := s.reserveOps[input.order :=
                                    ReserveOperation(input.requester, input.amount, DecisionOf(outcome))],
       outbox := s.outbox + [ReplyTo(input, outcome)])
  }

  function ReplayReservation(s: CreditState, input: ReservationInput): Attempted<ReservationOutcome>
    requires input.order in s.reserveOps
  {
    var op := s.reserveOps[input.order];
    if op.requester != input.requester || op.amount != input.amount then
      var conflict := ReservationDenied(ConflictingRequest, None);
      Done(conflict, s.(alerts := s.alerts + [Alert(input.order, RESERVE, RequestConflict)],
                        outbox := s.outbox + [ReplyTo(input, conflict)]))
    else if op.decision.Pending? then Thrown(OutcomeStillPending)
    else
      var outcome := OutcomeOf(op.decision);
      Done(outcome, s.(outbox := s.outbox + [ReplyTo(input, outcome)]))
  }

  function Hold(s: CreditState, input: ReservationInput): CreditState
    requires input.requester in s.wallets
  {
    var w := Move(s.wallets[input.requester], -input.amount, input.amount);
    var id := |s.transactions|;
    s.(wallets := s.wallets[input.requester := w],
       transactions := s.transactions +
         [Transaction(Some(input.order), RESERVE, input.requester, input.amount)],
       ledger := s.ledger + Posting(id, input.amount, Some(input.requester), Available, Some(w),
                                    input.requester, Reserved, w))
  }

  function Reserve(s: CreditState, input: ReservationInput): Attempted<ReservationOutcome> {
    if !Storable(input.amount) then Thrown(ConstraintViolated)
    else if input.order in s.reserveOps then ReplayReservation(s, input)
    else if input.amount > MAX_RESERVATION_AMOUNT then
      var outcome := ReservationDenied(AmountOutOfRange, None);
      Done(outcome, Record(s, input, outcome))
    else if input.requester !in s.wallets then Thrown(WalletNotReady(input.requester))
    else if s.wallets[input.requester].available < input.amount then
      var outcome := ReservationDenied(InsufficientCredits, Some(s.wallets[input.requester].available));
      Done(outcome, Record(s, input, outcome))
    else if s.wallets[input.requester].reserved + input.amount > INT_MAX then Thrown(ConstraintViolated)
    else
      var outcome := ReservationHeld(|s.transactions|);
      Done(outcome, Record(Hold(s, input), input, outcome))
  }

  function Short(seen: int): ReservationOutcome { ReservationDenied(InsufficientCredits, Some(seen)) }

  /** Whether a reservation interleaved with others may still be denied for credits it found missing a
      moment ago; run alone it denies only for those missing now. */
  predicate MayDenyLate(s: CreditState, input: ReservationInput) {
    input.order !in s.reserveOps && input.requester in s.wallets
  }

  // ----- transfer and release

  function RejectTerminal(s: CreditState, order: OrderId, kind: TxKind, why: TerminalRejection): CreditState {
    s.(alerts := s.alerts + [Alert(order, kind, why)])
  }

  predicate Decided(s: CreditState, order: OrderId) {
    order in s.reserveOps && !s.reserveOps[order].decision.Pending?
  }

  /** Why the recorded reservation does not support this request, if it does not. */
  function Invalid(s: CreditState, order: OrderId, requester: UserId, amount: int): Option<TerminalRejection>
    requires Decided(s, order)
  {
    var op := s.reserveOps[order];
    if !op.decision.Succeeded? then Some(ReservationNotActive)
    else if op.requester != requester || op.amount != amount then Some(RequestConflict)
    else None
  }

  function ReplayTransfer(s: CreditState, input: TransferInput): Attempted<TransferOutcome>
    requires input.order in s.terminalOps
  {
    var prior := s.terminalOps[input.order];
    if prior.ReleaseOperation? then
      Done(TransferRefused(TerminalOperationConflict),
           RejectTerminal(s, input.order, TRANSFER, TerminalOperationConflict))
    else if prior.requester != input.requester || prior.courier != input.courier || prior.amount != input.amount then
      Done(TransferRefused(RequestConflict), RejectTerminal(s, input.order, TRANSFER, RequestConflict))
    else if prior.paid.None? then Thrown(OutcomeStillPending)
    else Done(Transferred(prior.paid.value), s.(outbox := s.outbox + [CreditsTransferred(prior.paid.value)]))
  }

  function Pay(s: CreditState, input: TransferInput): (r: (TransferResult, CreditState))
    requires input.requester in s.wallets && input.courier in s.wallets && input.requester != input.courier
  {
    var from := Move(s.wallets[input.requester], 0, -input.amount);
    var to := Move(s.wallets[input.courier], input.amount, 0);
    var id := |s.transactions|;
    var paid := TransferResult(input.order, input.requester, input.courier, input.amount, id, from, to);
    (paid,
     s.(wallets := s.wallets[input.requester := from][input.courier := to],
        terminalOps := s.terminalOps[input.order :=
                                       TransferOperation(input.requester, input.courier, input.amount, Some(paid))],
        transactions := s.transactions +
          [Transaction(Some(input.order), TRANSFER, input.requester, input.amount)],
        ledger := s.ledger + Posting(id, input.amount, Some(input.requester), Reserved, Some(from),
                                     input.courier, Available, to),
        outbox := s.outbox + [CreditsTransferred(paid)]))
  }

  function Transfer(s: CreditState, input: TransferInput): Attempted<TransferOutcome> {
    if !Decided(s, input.order) then Thrown(ReservationNotReady(input.order))
    else
      var invalid := Invalid(s, input.order, input.requester, input.amount);
      if invalid.Some? then
        Done(TransferRefused(invalid.value), RejectTerminal(s, input.order, TRANSFER, invalid.value))
      else if input.requester == input.courier then
        Done(TransferRefused(InvalidParticipants),
             RejectTerminal(s, input.order, TRANSFER, InvalidParticipants))
      else if input.order in s.terminalOps then ReplayTransfer(s, input)
      else if input.courier !in s.wallets then Thrown(WalletNotReady(input.courier))
      else if input.requester !in s.wallets then Thrown(WalletNotReady(input.requester))
      else if !Storable(input.amount) then Thrown(ConstraintViolated)
      else if s.wallets[input.requester].reserved < input.amount then Thrown(NotBackedByReservedCredit(input.order))
      else if s.wallets[input.courier].available + input.amount > INT_MAX then Thrown(ConstraintViolated)
      else
        var (paid, after) := Pay(s, input);
        Done(Transferred(paid), after)
  }

  function ReplayRelease(s: CreditState, input: ReleaseInput): Attempted<ReleaseOutcome>
    requires input.order in s.terminalOps
  {
    var prior := s.terminalOps[input.order];
    if prior.TransferOperation? then
      Done(ReleaseRefused(TerminalOperationConflict),
           RejectTerminal(s, input.order, RELEASE, TerminalOperationConflict))
    else if prior.requester != input.requester || prior.amount != input.amount then
      Done(ReleaseRefused(RequestConflict), RejectTerminal(s, input.order, RELEASE, RequestConflict))
    else if prior.returned.None? then Thrown(OutcomeStillPending)
    else Done(Released(prior.returned.value), s.(outbox := s.outbox + [CreditsReleased(prior.returned.value)]))
  }

  function Return(s: CreditState, input: ReleaseInput): (r: (ReleaseResult, CreditState))
    requires input.requester in s.wallets
  {
    var w := Move(s.wallets[input.requester], input.amount, -input.amount);
    var id := |s.transactions|;
    var returned := ReleaseResult(input.order, input.requester, input.amount, id, w);
    (returned,
     s.(wallets := s.wallets[input.requester := w],
        terminalOps := s.terminalOps[input.order :=
                                       ReleaseOperation(input.requester, input.amount, Some(returned))],
        transactions := s.transactions +
          [Transaction(Some(input.order), RELEASE, input.requester, input.amount)],
        ledger := s.ledger + Posting(id, input.amount, Some(input.requester), Reserved, Some(w),
                                     input.requester, Available, w),
        outbox := s.outbox + [CreditsReleased(returned)]))
  }

  function Release(s: CreditState, input: ReleaseInput): Attempted<ReleaseOutcome> {
    if !Decided(s, input.order) then Thrown(ReservationNotReady(input.order))
    else
      var invalid := Invalid(s, input.order, input.requester, input.amount);
      if invalid.Some? then
        Done(ReleaseRefused(invalid.value), RejectTerminal(s, input.order, RELEASE, invalid.value))
      else if input.order in s.terminalOps then ReplayRelease(s, input)
      else if !Storable(input.amount) then Thrown(ConstraintViolated)
      else if input.requester !in s.wallets || s.wallets[input.requester].reserved < input.amount then
        Thrown(NotBackedByReservedCredit(input.order))
      else if s.wallets[input.requester].available + input.amount > INT_MAX then Thrown(ConstraintViolated)
      else
        var (returned, after) := Return(s, input);
        Done(Released(returned), after)
  }

  // ----- what Credit answers about one order

  datatype CreditStatus = NONE | RESERVED | TRANSFERRED | RELEASED

  datatype StatusDetail = Unknown | InFlight | WasRefused | NoDetail

  /** `orderStatus`: a terminal movement outranks the reservation, which outranks nothing. */
  function OrderStatus(s: CreditState, order: OrderId): (CreditStatus, StatusDetail) {
    if order in s.terminalOps && s.terminalOps[order].TransferOperation? && s.terminalOps[order].paid.Some? then
      (TRANSFERRED, NoDetail)
    else if order in s.terminalOps && s.terminalOps[order].ReleaseOperation? && s.terminalOps[order].returned.Some? then
      (RELEASED, NoDetail)
    else if order !in s.reserveOps then (NONE, Unknown)
    else match s.reserveOps[order].decision
      case Succeeded(_) => (RESERVED, NoDetail)
      case Pending => (NONE, InFlight)
      case Refused(_, _) => (NONE, WasRefused)
  }

  // ----- runs

  datatype Command =
    | IssueCmd(user: UserId, allocation: Allocation)
    | ReserveCmd(reservation: ReservationInput)
    | TransferCmd(transfer: TransferInput)
    | ReleaseCmd(release: ReleaseInput)

  /** An error, or a fault injected at any boundary, rolls the whole transaction back. */
  function After<R>(s: CreditState, attempt: Attempted<R>): CreditState {
    if attempt.Thrown? then s else attempt.after
  }

  function Apply(s: CreditState, c: Command): CreditState {
    match c
    case IssueCmd(user, allocation) => After(s, IssueInitial(s, user, allocation))
    case ReserveCmd(input) => After(s, Reserve(s, input))
    case TransferCmd(input) => After(s, Transfer(s, input))
    case ReleaseCmd(input) => After(s, Release(s, input))
  }

  function Run(s: CreditState, commands: seq<Command>): CreditState
    decreases |commands|
  {
    if commands == [] then s else Run(Apply(s, commands[0]), commands[1..])
  }
}
