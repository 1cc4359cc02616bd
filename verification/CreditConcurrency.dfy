/** Credit's transactions interleaved statement by statement, under the row locks each statement takes.
    A transaction works on values it read itself and writes them when it commits; nothing but the locks
    says that those values are still right. Every commit turns out to be one movement run alone. */
module CreditConcurrency {
  import opened Wrappers
  import opened CreditTypes
  import opened CreditInvariants
  import opened CreditLedger
  import Keep = CreditPreservation
  import Final = CreditFinality
  import Postings = CreditPostings

  /** A row, or the key of a row not yet committed. */
  datatype Row = ReservationRow(order: OrderId) | TerminalRow(order: OrderId) | WalletRow(user: UserId)

  datatype ReserveStage =
    | Unclaimed
    | Claimed
    | NoWalletMatched
    | WalletHeld(w: Wallet)
    | ReserveDecided(outcome: ReservationOutcome, replayed: bool)

  datatype TransferStage =
    | TransferStarts
    | ReservationLocked
    | FirstWalletLocked
    | OnlyHigherLocked
    | BothWalletsLocked
    | TransferClaimed
    | RequesterDebited(from: Wallet)
    | CourierCredited(debited: Wallet, to: Wallet)
    | TransferDecided(outcome: TransferOutcome)

  datatype ReleaseStage =
    | ReleaseStarts
    | ReservationChecked
    | ReleaseClaimed
    | RequesterRefunded(w: Wallet)
    | ReleaseDecided(outcome: ReleaseOutcome)

  datatype Txn =
    | Reserving(reservation: ReservationInput, reserving: ReserveStage)
    | Transferring(transfer: TransferInput, transferring: TransferStage)
    | Releasing(release: ReleaseInput, releasing: ReleaseStage)

  type TxnId = nat

  datatype World = World(db: CreditState, txns: map<TxnId, Txn>)

  function Lower(input: TransferInput): UserId {
    if input.requester < input.courier then input.requester else input.courier
  }

  function Higher(input: TransferInput): UserId {
    if input.requester < input.courier then input.courier else input.requester
  }

  /** The locks a transaction holds until it ends. */
  function Holds(t: Txn): set<Row> {
    match t
    case Reserving(i, Unclaimed) => {}
    case Reserving(i, WalletHeld(_)) => {ReservationRow(i.order), WalletRow(i.requester)}
    case Reserving(i, ReserveDecided(_, replayed)) => if replayed then {} else {ReservationRow(i.order)}
    case Reserving(i, _) => {ReservationRow(i.order)}
    case Transferring(i, TransferStarts) => {}
    case Transferring(i, ReservationLocked) => {ReservationRow(i.order)}
    case Transferring(i, TransferDecided(_)) => {ReservationRow(i.order)}
    case Transferring(i, FirstWalletLocked) => {ReservationRow(i.order), WalletRow(Lower(i))}
    case Transferring(i, OnlyHigherLocked) => {ReservationRow(i.order), WalletRow(Higher(i))}
    case Transferring(i, BothWalletsLocked) =>
      {ReservationRow(i.order), WalletRow(i.requester), WalletRow(i.courier)}
    case Transferring(i, _) =>
      {ReservationRow(i.order), WalletRow(i.requester), WalletRow(i.courier), TerminalRow(i.order)}
    case Releasing(i, ReleaseStarts) => {}
    case Releasing(i, ReservationChecked) => {ReservationRow(i.order)}
    case Releasing(i, ReleaseDecided(_)) => {ReservationRow(i.order)}
    case Releasing(i, ReleaseClaimed) => {ReservationRow(i.order), TerminalRow(i.order)}
    case Releasing(i, RequesterRefunded(_)) =>
      {ReservationRow(i.order), TerminalRow(i.order), WalletRow(i.requester)}
  }

  /** What the next statement does when no one holds the row it needs: move on, or fail. */
  datatype Statement = Advance(needs: Option<Row>, to: Txn) | Fail | Commits

  predicate HasAvailable(db: CreditState, user: UserId, amount: int) {
    user in db.wallets && db.wallets[user].available >= amount
  }

  predicate HasReserved(db: CreditState, user: UserId, amount: int) {
    user in db.wallets && db.wallets[user].reserved >= amount
  }

  function NextOfReserve(db: CreditState, i: ReservationInput, stage: ReserveStage): Statement {
    match stage
    case Unclaimed =>
      if !Storable(i.amount) then Fail
      else if i.order in db.reserveOps then
        (var replay := ReplayReservation(db, i);
         if replay.Thrown? then Fail else Advance(None, Reserving(i, ReserveDecided(replay.result, true))))
      else Advance(Some(ReservationRow(i.order)), Reserving(i, Claimed))
    case Claimed =>
      if i.amount > MAX_RESERVATION_AMOUNT then
        Advance(None, Reserving(i, ReserveDecided(ReservationDenied(AmountOutOfRange, None), false)))
      else if !HasAvailable(db, i.requester, i.amount) then
        // A wallet that does not match, or is not there, is passed over without its lock.
        Advance(None, Reserving(i, NoWalletMatched))
      else if db.wallets[i.requester].reserved + i.amount > INT_MAX then Fail
      else Advance(Some(WalletRow(i.requester)),
                   Reserving(i, WalletHeld(Move(db.wallets[i.requester], -i.amount, i.amount))))
    case NoWalletMatched =>
      if i.requester !in db.wallets then Fail
      else
        var seen := db.wallets[i.requester].available;
        Advance(None, Reserving(i, ReserveDecided(ReservationDenied(InsufficientCredits, Some(seen)), false)))
    case _ => Commits
  }

  function NextOfTransfer(db: CreditState, i: TransferInput, stage: TransferStage): Statement {
    match stage
    case TransferStarts =>
      if !Decided(db, i.order) then Fail
      else Advance(Some(ReservationRow(i.order)), Transferring(i, ReservationLocked))
    case ReservationLocked =>
      if !Decided(db, i.order) then Fail
      else
        var invalid := Invalid(db, i.order, i.requester, i.amount);
        if invalid.Some? then Advance(None, Transferring(i, TransferDecided(TransferRefused(invalid.value))))
        else if i.requester == i.courier then
          Advance(None, Transferring(i, TransferDecided(TransferRefused(InvalidParticipants))))
        else if i.order in db.terminalOps then
          (var replay := ReplayTransfer(db, i);
           if replay.Thrown? then Fail else Advance(None, Transferring(i, TransferDecided(replay.result))))
        else if Lower(i) in db.wallets then Advance(Some(WalletRow(Lower(i))), Transferring(i, FirstWalletLocked))
        // The one statement that locks both wallets still locks the one there is before it fails.
        else if Higher(i) in db.wallets then Advance(Some(WalletRow(Higher(i))), Transferring(i, OnlyHigherLocked))
        else Fail
    case FirstWalletLocked =>
      if Higher(i) !in db.wallets then Fail
      else Advance(Some(WalletRow(Higher(i))), Transferring(i, BothWalletsLocked))
    case OnlyHigherLocked => Fail
    case BothWalletsLocked =>
      if !Storable(i.amount) then Fail else Advance(Some(TerminalRow(i.order)), Transferring(i, TransferClaimed))
    case TransferClaimed =>
      if !HasReserved(db, i.requester, i.amount) then Fail
      else Advance(None, Transferring(i, RequesterDebited(Move(db.wallets[i.requester], 0, -i.amount))))
    case RequesterDebited(from) =>
      if i.courier !in db.wallets || db.wallets[i.courier].available + i.amount > INT_MAX then Fail
      else Advance(None, Transferring(i, CourierCredited(from, Move(db.wallets[i.courier], i.amount, 0))))
    case _ => Commits
  }

  function NextOfRelease(db: CreditState, i: ReleaseInput, stage: ReleaseStage): Statement {
    match stage
    case ReleaseStarts =>
      if !Decided(db, i.order) then Fail
      else Advance(Some(ReservationRow(i.order)), Releasing(i, ReservationChecked))
    case ReservationChecked =>
      if !Decided(db, i.order) then Fail
      else
        var invalid := Invalid(db, i.order, i.requester, i.amount);
        if invalid.Some? then Advance(None, Releasing(i, ReleaseDecided(ReleaseRefused(invalid.value))))
        else if i.order in db.terminalOps then
          (var replay := ReplayRelease(db, i);
           if replay.Thrown? then Fail else Advance(None, Releasing(i, ReleaseDecided(replay.result))))
        else if !Storable(i.amount) then Fail
        else Advance(Some(TerminalRow(i.order)), Releasing(i, ReleaseClaimed))
    case ReleaseClaimed =>
      if !HasReserved(db, i.requester, i.amount) || db.wallets[i.requester].available + i.amount > INT_MAX then Fail
      else Advance(Some(WalletRow(i.requester)),
                   Releasing(i, RequesterRefunded(Move(db.wallets[i.requester], i.amount, -i.amount))))
    case _ => Commits
  }

  function NextStatement(db: CreditState, t: Txn): Statement {
    match t
    case Reserving(i, stage) => NextOfReserve(db, i, stage)
    case Transferring(i, stage) => NextOfTransfer(db, i, stage)
    case Releasing(i, stage) => NextOfRelease(db, i, stage)
  }

  /** The tables once a transaction commits what it computed from the values it read. */
  function CommitOf(db: CreditState, t: Txn): CreditState {
    match t
    case Reserving(i, ReserveDecided(outcome, replayed)) =>
      if replayed then
        var conflict := outcome == ReservationDenied(ConflictingRequest, None);
        db.(alerts := if conflict then db.alerts + [Alert(i.order, RESERVE, RequestConflict)] else db.alerts,
            outbox := db.outbox + [ReplyTo(i, outcome)])
      else Record(db, i, outcome)
    case Reserving(i, WalletHeld(w)) =>
      var id := |db.transactions|;
      Record(db.(wallets := db.wallets[i.requester := w],
                 transactions := db.transactions + [Transaction(Some(i.order), RESERVE, i.requester, i.amount)],
                 ledger := db.ledger + Posting(id, i.amount, Some(i.requester), Available, Some(w), i.requester, Reserved, w)),
             i, ReservationHeld(id))
    case Transferring(i, CourierCredited(from, to)) =>
      var id := |db.transactions|;
      var paid := TransferResult(i.order, i.requester, i.courier, i.amount, id, from, to);
      db.(wallets := db.wallets[i.requester := from][i.courier := to],
          terminalOps := db.terminalOps[i.order := TransferOperation(i.requester, i.courier, i.amount, Some(paid))],
          transactions := db.transactions + [Transaction(Some(i.order), TRANSFER, i.requester, i.amount)],
          ledger := db.ledger + Posting(id, i.amount, Some(i.requester), Reserved, Some(from), i.courier, Available, to),
          outbox := db.outbox + [CreditsTransferred(paid)])
    case Transferring(i, TransferDecided(outcome)) =>
      if outcome.Transferred? then db.(outbox := db.outbox + [CreditsTransferred(outcome.paid)])
      else RejectTerminal(db, i.order, TRANSFER, outcome.why)
    case Releasing(i, RequesterRefunded(w)) =>
      var id := |db.transactions|;
      var returned := ReleaseResult(i.order, i.requester, i.amount, id, w);
      db.(wallets := db.wallets[i.requester := w],
          terminalOps := db.terminalOps[i.order := ReleaseOperation(i.requester, i.amount, Some(returned))],
          transactions := db.transactions + [Transaction(Some(i.order), RELEASE, i.requester, i.amount)],
          ledger := db.ledger + Posting(id, i.amount, Some(i.requester), Reserved, Some(w), i.requester, Available, w),
          outbox := db.outbox + [CreditsReleased(returned)])
    case Releasing(i, ReleaseDecided(outcome)) =>
      if outcome.Released? then db.(outbox := db.outbox + [CreditsReleased(outcome.returned)])
      else RejectTerminal(db, i.order, RELEASE, outcome.why)
    case _ => db
  }

  // ----- steps

  predicate HeldByOther(w: World, t: TxnId, row: Row) {
    exists u :: u in w.txns && u != t && row in Holds(w.txns[u])
  }

  /** `t` waits for a row that `u` holds. */
  predicate WaitsFor(w: World, t: TxnId, u: TxnId) {
    && t in w.txns && u in w.txns && u != t
    && var next := NextStatement(w.db, w.txns[t]);
       next.Advance? && next.needs.Some? && next.needs.value in Holds(w.txns[u])
  }

  datatype Step =
    | Begin(t: TxnId, command: Command)
    | Execute(t: TxnId)
    | Commit(t: TxnId)
    | Abort(t: TxnId)

  function Fresh(command: Command): Txn
    requires !command.IssueCmd?
  {
    match command
    case ReserveCmd(i) => Reserving(i, Unclaimed)
    case TransferCmd(i) => Transferring(i, TransferStarts)
    case ReleaseCmd(i) => Releasing(i, ReleaseStarts)
  }

  predicate Enabled(w: World, step: Step) {
    match step
    case Begin(t, command) => t !in w.txns
    case Execute(t) =>
      t in w.txns
      && var next := NextStatement(w.db, w.txns[t]);
         next.Advance? && (next.needs.Some? ==> !HeldByOther(w, t, next.needs.value))
    case Commit(t) => t in w.txns && NextStatement(w.db, w.txns[t]).Commits?
    case Abort(t) => t in w.txns
  }

  /** A wallet is issued in one insert, which waits for no row. */
  function Next(w: World, step: Step): World
    requires Enabled(w, step)
  {
    match step
    case Begin(t, command) =>
      if command.IssueCmd? then w.(db := Apply(w.db, command)) else w.(txns := w.txns[t := Fresh(command)])
    case Execute(t) => w.(txns := w.txns[t := NextStatement(w.db, w.txns[t]).to])
    case Commit(t) => World(CommitOf(w.db, w.txns[t]), w.txns - {t})
    case Abort(t) => w.(txns := w.txns - {t})
  }

  // ----- what the locks protect

  function CommandOf(t: Txn): Command {
    match t
    case Reserving(i, _) => ReserveCmd(i)
    case Transferring(i, _) => TransferCmd(i)
    case Releasing(i, _) => ReleaseCmd(i)
  }

  predicate Pays(db: CreditState, i: TransferInput) {
    && Decided(db, i.order) && Invalid(db, i.order, i.requester, i.amount).None?
    && i.requester != i.courier && i.order !in db.terminalOps
  }

  predicate Returns(db: CreditState, i: ReleaseInput) {
    Decided(db, i.order) && Invalid(db, i.order, i.requester, i.amount).None? && i.order !in db.terminalOps
  }

  /** What a transaction read is what the tables still say. */
  predicate Current(db: CreditState, t: Txn) {
    match t
    case Reserving(i, Unclaimed) => true
    case Reserving(i, Claimed) => Storable(i.amount) && i.order !in db.reserveOps
    case Reserving(i, NoWalletMatched) =>
      Storable(i.amount) && i.amount <= MAX_RESERVATION_AMOUNT && i.order !in db.reserveOps
    case Reserving(i, WalletHeld(w)) =>
      && Storable(i.amount) && i.amount <= MAX_RESERVATION_AMOUNT && i.order !in db.reserveOps
      && HasAvailable(db, i.requester, i.amount) && db.wallets[i.requester].reserved + i.amount <= INT_MAX
      && w == Move(db.wallets[i.requester], -i.amount, i.amount)
    case Reserving(i, ReserveDecided(outcome, replayed)) =>
      if replayed then Final.ReserveRow(db, i, outcome)
      else
        && Storable(i.amount) && i.order !in db.reserveOps && outcome.ReservationDenied?
        && (outcome == ReservationDenied(AmountOutOfRange, None) <==> i.amount > MAX_RESERVATION_AMOUNT)
        && (i.amount <= MAX_RESERVATION_AMOUNT ==>
              outcome.reason.InsufficientCredits? && outcome.available.Some? && i.requester in db.wallets)
    case Transferring(i, TransferStarts) => true
    case Transferring(i, ReservationLocked) => Decided(db, i.order)
    case Transferring(i, FirstWalletLocked) => Pays(db, i) && Lower(i) in db.wallets
    case Transferring(i, OnlyHigherLocked) => Pays(db, i)
    case Transferring(i, BothWalletsLocked) => Pays(db, i) && i.requester in db.wallets && i.courier in db.wallets
    case Transferring(i, TransferClaimed) =>
      Pays(db, i) && i.requester in db.wallets && i.courier in db.wallets && Storable(i.amount)
    case Transferring(i, RequesterDebited(from)) =>
      && Pays(db, i) && i.requester in db.wallets && i.courier in db.wallets && Storable(i.amount)
      && db.wallets[i.requester].reserved >= i.amount && from == Move(db.wallets[i.requester], 0, -i.amount)
    case Transferring(i, CourierCredited(from, to)) =>
      && Pays(db, i) && i.requester in db.wallets && i.courier in db.wallets && Storable(i.amount)
      && db.wallets[i.requester].reserved >= i.amount && from == Move(db.wallets[i.requester], 0, -i.amount)
      && db.wallets[i.courier].available + i.amount <= INT_MAX && to == Move(db.wallets[i.courier], i.amount, 0)
    case Transferring(i, TransferDecided(outcome)) => Final.TransferRows(db, i, outcome)
    case Releasing(i, ReleaseStarts) => true
    case Releasing(i, ReservationChecked) => Decided(db, i.order)
    case Releasing(i, ReleaseClaimed) => Returns(db, i) && Storable(i.amount)
    case Releasing(i, RequesterRefunded(w)) =>
      && Returns(db, i) && Storable(i.amount) && i.requester in db.wallets
      && db.wallets[i.requester].reserved >= i.amount && db.wallets[i.requester].available + i.amount <= INT_MAX
      && w == Move(db.wallets[i.requester], i.amount, -i.amount)
    case Releasing(i, ReleaseDecided(outcome)) => Final.ReleaseRows(db, i, outcome)
  }

  /** The outcome of a commit: the movement run alone, or a reservation denied for credits it found
      missing a moment earlier. */
  ghost predicate Serial(db: CreditState, after: CreditState, command: Command) {
    || after == Apply(db, command)
    || (command.ReserveCmd? && MayDenyLate(db, command.reservation)
        && exists seen: int :: after == Record(db, command.reservation, Short(seen)))
  }

  lemma ReserveCommitIsSerial(db: CreditState, i: ReservationInput, stage: ReserveStage)
    requires NextOfReserve(db, i, stage).Commits? && Current(db, Reserving(i, stage)) && Linked(db)
    ensures Serial(db, CommitOf(db, Reserving(i, stage)), ReserveCmd(i))
  {
    match stage
    case WalletHeld(w) =>
    case ReserveDecided(outcome, replayed) =>
      if replayed {
        assert ReserveLinked(db, i.order);
      } else if i.amount > MAX_RESERVATION_AMOUNT {
        assert Reserve(db, i).Done? && Reserve(db, i).after == Record(db, i, outcome);
      } else {
        assert CommitOf(db, Reserving(i, stage)) == Record(db, i, Short(outcome.available.value));
      }
  }

  lemma TransferCommitIsSerial(db: CreditState, i: TransferInput, stage: TransferStage)
    requires NextOfTransfer(db, i, stage).Commits? && Current(db, Transferring(i, stage))
    ensures CommitOf(db, Transferring(i, stage)) == Apply(db, TransferCmd(i))
  {
  }

  lemma ReleaseCommitIsSerial(db: CreditState, i: ReleaseInput, stage: ReleaseStage)
    requires NextOfRelease(db, i, stage).Commits? && Current(db, Releasing(i, stage))
    ensures CommitOf(db, Releasing(i, stage)) == Apply(db, ReleaseCmd(i))
  {
  }

  lemma CommitIsSerial(db: CreditState, t: Txn)
    requires NextStatement(db, t).Commits? && Current(db, t) && Linked(db)
    ensures Serial(db, CommitOf(db, t), CommandOf(t))
  {
    match t
    case Reserving(i, stage) => ReserveCommitIsSerial(db, i, stage);
    case Transferring(i, stage) => TransferCommitIsSerial(db, i, stage);
    case Releasing(i, stage) => ReleaseCommitIsSerial(db, i, stage);
  }

  // ----- every interleaving

  ghost predicate Exclusive(w: World) {
    forall t, u | t in w.txns && u in w.txns && t != u :: Holds(w.txns[t]) !! Holds(w.txns[u])
  }

  ghost predicate LocksInv(w: World) {
    Inv(w.db) && Exclusive(w) && forall t <- w.txns :: Current(w.db, w.txns[t])
  }

  lemma ExecuteKeepsCurrent(db: CreditState, t: Txn)
    requires Current(db, t) && NextStatement(db, t).Advance?
    ensures Current(db, NextStatement(db, t).to)
  {
  }

  /** A statement adds at most the row it asked for. */
  lemma ExecuteTakesOne(db: CreditState, t: Txn)
    requires Current(db, t) && NextStatement(db, t).Advance?
    ensures var next := NextStatement(db, t);
            Holds(next.to) <= Holds(t) + if next.needs.Some? then {next.needs.value} else {}
  {
  }

  /** Only rows under these locks differ; an order's reservation row also guards its terminal row. */
  predicate SameOutside(db: CreditState, after: CreditState, rows: set<Row>) {
    && (forall o <- after.reserveOps ::
          ReservationRow(o) in rows || (o in db.reserveOps && after.reserveOps[o] == db.reserveOps[o]))
    && (forall o <- after.terminalOps ::
          ReservationRow(o) in rows || (o in db.terminalOps && after.terminalOps[o] == db.terminalOps[o]))
    && (forall u <- db.wallets :: u in after.wallets && (WalletRow(u) in rows || after.wallets[u] == db.wallets[u]))
  }

  lemma CommitStaysInside(db: CreditState, t: Txn)
    requires NextStatement(db, t).Commits? && Current(db, t)
    ensures SameOutside(db, CommitOf(db, t), Holds(t)) && Final.Extends(db, CommitOf(db, t))
  {
    match t
    case Reserving(i, stage) => ReserveStaysInside(db, i, stage);
    case Transferring(i, stage) => TransferStaysInside(db, i, stage);
    case Releasing(i, stage) => ReleaseStaysInside(db, i, stage);
  }

  lemma ReserveStaysInside(db: CreditState, i: ReservationInput, stage: ReserveStage)
    requires var t := Reserving(i, stage); NextStatement(db, t).Commits? && Current(db, t)
    ensures var t := Reserving(i, stage);
            SameOutside(db, CommitOf(db, t), Holds(t)) && Final.Extends(db, CommitOf(db, t))
  {
  }

  lemma TransferStaysInside(db: CreditState, i: TransferInput, stage: TransferStage)
    requires var t := Transferring(i, stage); NextStatement(db, t).Commits? && Current(db, t)
    ensures var t := Transferring(i, stage);
            SameOutside(db, CommitOf(db, t), Holds(t)) && Final.Extends(db, CommitOf(db, t))
  {
  }

  lemma ReleaseStaysInside(db: CreditState, i: ReleaseInput, stage: ReleaseStage)
    requires var t := Releasing(i, stage); NextStatement(db, t).Commits? && Current(db, t)
    ensures var t := Releasing(i, stage);
            SameOutside(db, CommitOf(db, t), Holds(t)) && Final.Extends(db, CommitOf(db, t))
  {
  }

  /** What one transaction read stays true while others commit, because it holds the locks. */
  lemma CurrentSurvives(db: CreditState, after: CreditState, t: Txn, rows: set<Row>)
    requires Current(db, t) && Final.Extends(db, after) && SameOutside(db, after, rows) && rows !! Holds(t)
    ensures Current(after, t)
  {
  }

  lemma IssueStaysOutside(db: CreditState, user: UserId, allocation: Allocation)
    ensures var after := Apply(db, IssueCmd(user, allocation)); SameOutside(db, after, {}) && Final.Extends(db, after)
  {
  }

  lemma SerialKeeps(db: CreditState, after: CreditState, command: Command)
    requires Inv(db) && Serial(db, after, command)
    ensures Inv(after)
  {
    if after == Apply(db, command) {
      Keep.ApplyKeeps(db, command);
    } else {
      var seen: int :| after == Record(db, command.reservation, Short(seen));
      Keep.DenialKeeps(db, command.reservation, Short(seen));
    }
  }

  lemma ExecuteKeeps(w: World, t: TxnId)
    requires LocksInv(w) && Enabled(w, Execute(t))
    ensures LocksInv(Next(w, Execute(t)))
  {
    var after := Next(w, Execute(t));
    ExecuteKeepsCurrent(w.db, w.txns[t]);
    ExecuteTakesOne(w.db, w.txns[t]);
    forall u, v | u in after.txns && v in after.txns && u != v
      ensures Holds(after.txns[u]) !! Holds(after.txns[v])
    {
      assert Holds(w.txns[u]) !! Holds(w.txns[v]);
    }
  }

  lemma CommitKeeps(w: World, t: TxnId)
    requires LocksInv(w) && Enabled(w, Commit(t))
    ensures LocksInv(Next(w, Commit(t)))
    ensures Serial(w.db, Next(w, Commit(t)).db, CommandOf(w.txns[t]))
  {
    var after := Next(w, Commit(t));
    CommitIsSerial(w.db, w.txns[t]);
    SerialKeeps(w.db, after.db, CommandOf(w.txns[t]));
    CommitStaysInside(w.db, w.txns[t]);
    forall u | u in after.txns ensures Current(after.db, after.txns[u]) {
      CurrentSurvives(w.db, after.db, w.txns[u], Holds(w.txns[t]));
    }
  }

  lemma IssueKeeps(w: World, user: UserId, allocation: Allocation)
    requires LocksInv(w)
    ensures LocksInv(w.(db := Apply(w.db, IssueCmd(user, allocation))))
  {
    var after := Apply(w.db, IssueCmd(user, allocation));
    Keep.ApplyKeeps(w.db, IssueCmd(user, allocation));
    IssueStaysOutside(w.db, user, allocation);
    forall u | u in w.txns ensures Current(after, w.txns[u]) {
      CurrentSurvives(w.db, after, w.txns[u], {});
    }
  }

  lemma BeginKeeps(w: World, t: TxnId, command: Command)
    requires LocksInv(w) && Enabled(w, Begin(t, command))
    ensures LocksInv(Next(w, Begin(t, command)))
  {
    if command.IssueCmd? {
      IssueKeeps(w, command.user, command.allocation);
    }
  }

  lemma StepKeeps(w: World, step: Step)
    requires LocksInv(w) && Enabled(w, step)
    ensures LocksInv(Next(w, step))
  {
    match step
    case Begin(t, command) => BeginKeeps(w, t, command);
    case Execute(t) => ExecuteKeeps(w, t);
    case Commit(t) => CommitKeeps(w, t);
    case Abort(t) =>
  }

  predicate Runs(w: World, steps: seq<Step>)
    decreases |steps|
  {
    steps == [] || (Enabled(w, steps[0]) && Runs(Next(w, steps[0]), steps[1..]))
  }

  function End(w: World, steps: seq<Step>): World
    requires Runs(w, steps)
    decreases |steps|
  {
    if steps == [] then w else End(Next(w, steps[0]), steps[1..])
  }

  /** Tables reachable by movements run one at a time. */
  ghost predicate SeriallyReaches(db: CreditState, after: CreditState, commands: seq<Command>)
    decreases |commands|
  {
    if commands == [] then after == db
    else exists mid :: Serial(db, mid, commands[0]) && SeriallyReaches(mid, after, commands[1..])
  }

  /** The movements a run commits, in commit order. */
  function Committed(w: World, steps: seq<Step>): seq<Command>
    requires Runs(w, steps)
    decreases |steps|
  {
    if steps == [] then []
    else
      (match steps[0]
       case Begin(_, command) => if command.IssueCmd? then [command] else []
       case Commit(t) => [CommandOf(w.txns[t])]
       case _ => [])
      + Committed(Next(w, steps[0]), steps[1..])
  }

  /** Serializability: every interleaving leaves the tables that its committed movements leave when run
      one after the other in commit order. So every run also keeps the closed economy. */
  lemma {:induction false} EveryRunIsSerial(w: World, steps: seq<Step>)
    requires LocksInv(w) && Runs(w, steps)
    ensures SeriallyReaches(w.db, End(w, steps).db, Committed(w, steps))
    ensures LocksInv(End(w, steps)) && ClosedEconomy(End(w, steps).db)
    decreases |steps|
  {
    if steps == [] {
      InvariantClosesEconomy(w.db);
    } else {
      var next := Next(w, steps[0]);
      StepKeeps(w, steps[0]);
      EveryRunIsSerial(next, steps[1..]);
      var head := match steps[0]
                  case Begin(_, command) => if command.IssueCmd? then [command] else []
                  case Commit(t) => [CommandOf(w.txns[t])]
                  case _ => [];
      if head == [] {
        assert next.db == w.db && Committed(w, steps) == Committed(next, steps[1..]);
      } else {
        if steps[0].Commit? {
          CommitKeeps(w, steps[0].t);
        }
        assert Serial(w.db, next.db, head[0]);
        assert Committed(w, steps)[0] == head[0] && Committed(w, steps)[1..] == Committed(next, steps[1..]);
      }
    }
  }

  // ----- no deadlock

  /** The order every transaction takes rows in: its errand's rows, then wallets by user. */
  function Rank(row: Row): nat { if row.WalletRow? then 1 + row.user else 0 }

  /** Whoever holds or asks for an errand's terminal row holds its reservation row. */
  lemma TerminalNeedsReservation(db: CreditState, t: Txn, u: Txn)
    ensures NextStatement(db, t).Advance? && NextStatement(db, t).needs.Some?
              && NextStatement(db, t).needs.value.TerminalRow?
            ==> ReservationRow(NextStatement(db, t).needs.value.order) in Holds(t)
    ensures forall row <- Holds(u) | row.TerminalRow? :: ReservationRow(row.order) in Holds(u)
  {
  }

  /** A transaction waits only for rows above all those it holds. */
  lemma WaitsUpwards(w: World, t: TxnId, u: TxnId)
    requires LocksInv(w) && WaitsFor(w, t, u)
    ensures var needs := NextStatement(w.db, w.txns[t]).needs.value;
            needs in Holds(w.txns[u])
            && forall row <- Holds(w.txns[t]) :: Rank(row) < Rank(needs)
  {
    assert Current(w.db, w.txns[t]) && Current(w.db, w.txns[u]);
    assert Holds(w.txns[t]) !! Holds(w.txns[u]);
    var needs := NextStatement(w.db, w.txns[t]).needs.value;
    TerminalNeedsReservation(w.db, w.txns[t], w.txns[u]);
  }

  predicate Chain(w: World, ts: seq<TxnId>) {
    forall i | 0 <= i < |ts| - 1 :: WaitsFor(w, ts[i], ts[i + 1])
  }

  /** How high the row is that a transaction asks for next. */
  function NeededRank(w: World, t: TxnId): nat {
    if t !in w.txns then 0
    else
      var next := NextStatement(w.db, w.txns[t]);
      if next.Advance? && next.needs.Some? then Rank(next.needs.value) else 0
  }

  lemma {:induction false} ChainClimbs(w: World, ts: seq<TxnId>)
    requires LocksInv(w) && |ts| >= 2 && Chain(w, ts)
    ensures ts[|ts| - 1] in w.txns
    ensures exists row :: row in Holds(w.txns[ts[|ts| - 1]]) && NeededRank(w, ts[0]) <= Rank(row)
  {
    var n := |ts|;
    assert WaitsFor(w, ts[n - 2], ts[n - 1]);
    var taken := NextStatement(w.db, w.txns[ts[n - 2]]).needs.value;
    assert taken in Holds(w.txns[ts[n - 1]]);
    if n > 2 {
      ChainClimbs(w, ts[..n - 1]);
      WaitsUpwards(w, ts[n - 2], ts[n - 1]);
      var row :| row in Holds(w.txns[ts[n - 2]]) && NeededRank(w, ts[0]) <= Rank(row);
      assert Rank(row) < Rank(taken);
    }
  }

  /** The wait-for graph has no cycle in any reachable state. */
  lemma NoDeadlock(w: World, ts: seq<TxnId>)
    requires LocksInv(w) && |ts| >= 2 && Chain(w, ts)
    ensures ts[0] != ts[|ts| - 1]
  {
    ChainClimbs(w, ts);
    assert WaitsFor(w, ts[0], ts[1]);
    WaitsUpwards(w, ts[0], ts[1]);
  }

  // ----- what a denial saw

  /** A transaction that has found its requester's credits short, or has gone on from there. */
  predicate IsShort(t: Txn) {
    t.Reserving? && (t.reserving.NoWalletMatched?
                     || (t.reserving.ReserveDecided? && !t.reserving.replayed && t.reserving.outcome.ReservationDenied?
                         && t.reserving.outcome.reason.InsufficientCredits?))
  }

  /** The credits a short transaction reports, once it has read them. */
  function Reported(t: Txn): Option<int>
    requires IsShort(t)
  {
    if t.reserving.NoWalletMatched? then None else t.reserving.outcome.available
  }

  predicate Lacks(db: CreditState, i: ReservationInput) { !HasAvailable(db, i.requester, i.amount) }

  predicate Shows(db: CreditState, i: ReservationInput, seen: int) {
    i.requester in db.wallets && db.wallets[i.requester].available == seen
  }

  /** At two moments of the run, one no later than the other, the credits were short, and then as reported. */
  ghost predicate Witnessed(history: seq<CreditState>, t: Txn)
    requires IsShort(t)
  {
    exists k :: 0 <= k < |history| && Lacks(history[k], t.reservation)
      && (Reported(t).Some? ==> exists j :: k <= j < |history| && Shows(history[j], t.reservation, Reported(t).value))
  }

  /** The tables after each step so far. */
  function History(w: World, steps: seq<Step>): seq<CreditState>
    requires Runs(w, steps)
    decreases |steps|
  {
    [w.db] + if steps == [] then [] else History(Next(w, steps[0]), steps[1..])
  }

  ghost predicate AllWitnessed(history: seq<CreditState>, w: World) {
    && history != [] && history[|history| - 1] == w.db
    && forall t <- w.txns | IsShort(w.txns[t]) :: Witnessed(history, w.txns[t])
  }

  lemma WitnessStays(history: seq<CreditState>, more: seq<CreditState>, t: Txn)
    requires IsShort(t) && Witnessed(history, t)
    ensures Witnessed(history + more, t)
  {
    var all := history + more;
    var k :| 0 <= k < |history| && Lacks(history[k], t.reservation)
      && (Reported(t).Some? ==> exists j :: k <= j < |history| && Shows(history[j], t.reservation, Reported(t).value));
    assert all[k] == history[k];
    if Reported(t).Some? {
      var j :| k <= j < |history| && Shows(history[j], t.reservation, Reported(t).value);
      assert all[j] == history[j];
    }
  }

  lemma ExecuteWitnesses(history: seq<CreditState>, w: World, t: TxnId)
    requires LocksInv(w) && Enabled(w, Execute(t)) && AllWitnessed(history, w)
    requires IsShort(Next(w, Execute(t)).txns[t])
    ensures Witnessed(history, Next(w, Execute(t)).txns[t])
  {
    var before, after := w.txns[t], Next(w, Execute(t)).txns[t];
    var last := |history| - 1;
    assert Current(w.db, before);
    if before.reserving.Claimed? {
      assert Lacks(history[last], after.reservation);
    } else if before.reserving.NoWalletMatched? {
      assert Witnessed(history, before);
      var k :| 0 <= k < |history| && Lacks(history[k], before.reservation);
      assert Shows(history[last], after.reservation, Reported(after).value);
    }
  }

  lemma StepWitnesses(history: seq<CreditState>, w: World, step: Step)
    requires LocksInv(w) && Enabled(w, step) && AllWitnessed(history, w)
    ensures AllWitnessed(history + [Next(w, step).db], Next(w, step))
  {
    var after := Next(w, step);
    forall t <- after.txns | IsShort(after.txns[t]) ensures Witnessed(history + [after.db], after.txns[t]) {
      if step == Execute(t) {
        ExecuteWitnesses(history, w, t);
      }
      WitnessStays(history, [after.db], after.txns[t]);
    }
  }

  lemma HistoryUnfolds(history: seq<CreditState>, w: World, steps: seq<Step>)
    requires Runs(w, steps) && steps != []
    ensures var next := Next(w, steps[0]);
            history + History(w, steps)[1..] == history + [next.db] + History(next, steps[1..])[1..]
  {
    assert History(w, steps)[1..] == History(Next(w, steps[0]), steps[1..]);
  }

  lemma {:induction false} RunWitnesses(history: seq<CreditState>, w: World, steps: seq<Step>)
    requires LocksInv(w) && Runs(w, steps) && AllWitnessed(history, w)
    ensures AllWitnessed(history + History(w, steps)[1..], End(w, steps))
    decreases |steps|
  {
    if steps == [] {
      assert history + History(w, steps)[1..] == history;
    } else {
      var next := Next(w, steps[0]);
      StepKeeps(w, steps[0]);
      StepWitnesses(history, w, steps[0]);
      RunWitnesses(history + [next.db], next, steps[1..]);
      HistoryUnfolds(history, w, steps);
    }
  }

  // ----- from the beginning

  const START := World(EMPTY, map[])

  /** Whenever a reservation is about to be denied for want of credits: at an earlier moment of the run its
      requester's credits were short, and at one no earlier than that they were what the denial reports. */
  lemma DenialsWereShort(steps: seq<Step>, t: TxnId)
    requires Runs(START, steps) && t in End(START, steps).txns && IsShort(End(START, steps).txns[t])
    ensures Witnessed(History(START, steps), End(START, steps).txns[t])
  {
    assert Inv(EMPTY) && LocksInv(START);
    RunWitnesses([EMPTY], START, steps);
    assert [EMPTY] + History(START, steps)[1..] == History(START, steps);
  }

  lemma SerialTells(db: CreditState, after: CreditState, command: Command)
    requires Inv(db) && Postings.Tells(db) && Serial(db, after, command)
    ensures Inv(after) && Postings.Tells(after)
  {
    SerialKeeps(db, after, command);
    if after == Apply(db, command) {
      Postings.ApplyTells(db, command);
    } else {
      Postings.SameBooksTell(db, after);
    }
  }

  lemma {:induction false} SerialRunTells(db: CreditState, after: CreditState, commands: seq<Command>)
    requires Inv(db) && Postings.Tells(db) && SeriallyReaches(db, after, commands)
    ensures Postings.Tells(after)
    decreases |commands|
  {
    if commands != [] {
      var mid :| Serial(db, mid, commands[0]) && SeriallyReaches(mid, after, commands[1..]);
      SerialTells(db, mid, commands[0]);
      SerialRunTells(mid, after, commands[1..]);
    }
  }

  /** In every interleaving, too, each entry and each recorded result tells the wallets as the ledger's sums
      up to its transaction give them: no transaction wrote a balance another had overtaken. */
  lemma EveryEntryTells(steps: seq<Step>)
    requires Runs(START, steps)
    ensures Postings.Tells(End(START, steps).db)
  {
    assert Inv(EMPTY) && LocksInv(START) && Postings.Tells(EMPTY);
    EveryRunIsSerial(START, steps);
    SerialRunTells(EMPTY, End(START, steps).db, Committed(START, steps));
  }

  /** Whatever transactions run, and however their statements interleave, from empty tables: the tables are
      those of the committed movements run one by one, the six checks find nothing, and no transactions wait
      for one another in a ring. */
  lemma EveryInterleaving(steps: seq<Step>, ring: seq<TxnId>)
    requires Runs(START, steps)
    ensures SeriallyReaches(EMPTY, End(START, steps).db, Committed(START, steps))
    ensures ClosedEconomy(End(START, steps).db)
    ensures |ring| >= 2 && Chain(End(START, steps), ring) ==> ring[0] != ring[|ring| - 1]
  {
    assert Inv(EMPTY) && LocksInv(START);
    EveryRunIsSerial(START, steps);
    if |ring| >= 2 && Chain(End(START, steps), ring) {
      NoDeadlock(End(START, steps), ring);
    }
  }
}
