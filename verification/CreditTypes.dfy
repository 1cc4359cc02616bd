/** The rows and messages of the Credit Service. Identifiers are numbers: only equality and, for
    lock order, the total order on user identifiers matter. */
module CreditTypes {
  import opened Wrappers

  type UserId = nat
  type OrderId = nat

  /** `randomUUID()` gives an unused identifier; here it is the row's position in the table. */
  type TxId = nat

  /** The largest value of a PostgreSQL `integer` column. Storing more is an error, not a wrap. */
  const INT_MAX := 0x7FFF_FFFF

  /** The largest reward an errand may carry. */
  const MAX_RESERVATION_AMOUNT := 5

  /** What a configured initial allocation may be. */
  type Allocation = a: int | 5 <= a <= 50 witness 10

  datatype Wallet = Wallet(available: int, reserved: int) {
    function Total(): int { available + reserved }
  }

  datatype TxKind = ISSUE | RESERVE | TRANSFER | RELEASE

  datatype Transaction = Transaction(order: Option<OrderId>, kind: TxKind, wallet: UserId, amount: int)

  datatype Account = PlatformIssuance | Available | Reserved

  datatype Direction = Debit | Credit

  datatype Entry = Entry(txId: TxId, wallet: Option<UserId>, account: Account, direction: Direction,
                         amount: int, resulting: Option<Wallet>)
  {
    /** Credits count up, debits count down. */
    function Signed(): int { if direction.Credit? then amount else -amount }
  }

  datatype ReservationRejection = InsufficientCredits | AmountOutOfRange | ConflictingRequest

  /** The constraint `credit_operations_outcome_shape`, as a type. */
  datatype ReserveDecision =
    | Pending
    | Succeeded(txId: TxId)
    | Refused(reason: ReservationRejection, availableAtDecision: Option<int>)

  datatype ReserveOperation = ReserveOperation(requester: UserId, amount: int, decision: ReserveDecision)

  datatype TransferResult = TransferResult(order: OrderId, requester: UserId, courier: UserId, amount: int,
                                           txId: TxId, requesterBalance: Wallet, courierBalance: Wallet)

  datatype ReleaseResult = ReleaseResult(order: OrderId, requester: UserId, amount: int,
                                         txId: TxId, requesterBalance: Wallet)

  /** The constraints `credit_operations_party_shape` and, with one row per order,
      `credit_operations_terminal_order_key`. A pending row has no result yet. */
  datatype TerminalOperation =
    | TransferOperation(requester: UserId, courier: UserId, amount: int, paid: Option<TransferResult>)
    | ReleaseOperation(requester: UserId, amount: int, returned: Option<ReleaseResult>)

  datatype TerminalRejection =
    | RequestConflict
    | InvalidParticipants
    | ReservationNotActive
    | TerminalOperationConflict

  datatype Alert = Alert(order: OrderId, kind: TxKind, code: TerminalRejection)

  /** Credit's replies, as its outbox holds them. */
  datatype Reply =
    | CreditsReserved(order: OrderId, requester: UserId, amount: int)
    | ReservationRejected(order: OrderId, requester: UserId, amount: int,
                          reason: ReservationRejection, available: Option<int>)
    | CreditsTransferred(transfer: TransferResult)
    | CreditsReleased(release: ReleaseResult)

  /** Every table of the service that a movement touches. */
  datatype CreditState = CreditState(
    wallets: map<UserId, Wallet>,
    reserveOps: map<OrderId, ReserveOperation>,
    terminalOps: map<OrderId, TerminalOperation>,
    transactions: seq<Transaction>,
    ledger: seq<Entry>,
    alerts: seq<Alert>,
    outbox: seq<Reply>)

  const EMPTY: CreditState := CreditState(map[], map[], map[], [], [], [], [])

  datatype ReservationInput = ReservationInput(order: OrderId, requester: UserId, amount: int)

  datatype TransferInput = TransferInput(order: OrderId, requester: UserId, courier: UserId, amount: int)

  datatype ReleaseInput = ReleaseInput(order: OrderId, requester: UserId, amount: int)

  datatype ReservationOutcome =
    | ReservationHeld(txId: TxId)
    | ReservationDenied(reason: ReservationRejection, available: Option<int>)

  datatype TransferOutcome = Transferred(paid: TransferResult) | TransferRefused(why: TerminalRejection)

  datatype ReleaseOutcome = Released(returned: ReleaseResult) | ReleaseRefused(why: TerminalRejection)

  datatype CreditError =
    | WalletNotReady(user: UserId)
    | ReservationNotReady(order: OrderId)
    | NotBackedByReservedCredit(order: OrderId)
    | OutcomeStillPending
    | ConstraintViolated
    | FaultInjected
}
