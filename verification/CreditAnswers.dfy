/** What Credit answers, told from its history of transactions: when a request is granted, refused and why,
    what each refusal leaves behind, and what it says of an order's status. */
module CreditAnswers {
  import opened Wrappers
  import opened CreditTypes
  import opened CreditSums
  import opened CreditInvariants
  import opened CreditLedger
  import opened CreditPreservation
  import Postings = CreditPostings

  // ----- an order's history

  /** The order's reservation stands in the books with this requester and amount. */
  ghost predicate Holds(s: CreditState, order: OrderId, requester: UserId, amount: int) {
    Transaction(Some(order), RESERVE, requester, amount) in s.transactions
  }

  ghost predicate HasReserve(s: CreditState, order: OrderId) {
    exists t <- s.transactions :: t.order == Some(order) && t.kind.RESERVE?
  }

  ghost predicate Settled(s: CreditState, order: OrderId, kind: TxKind) {
    exists t <- s.transactions :: t.order == Some(order) && t.kind == kind
  }

  lemma ReserveRows(s: CreditState, order: OrderId, requester: UserId, amount: int)
    requires Linked(s)
    ensures HasReserve(s, order) <==> order in s.reserveOps && s.reserveOps[order].decision.Succeeded?
    ensures Holds(s, order, requester, amount) <==>
            HasReserve(s, order) && s.reserveOps[order].requester == requester && s.reserveOps[order].amount == amount
  {
    if order in s.reserveOps {
      assert ReserveLinked(s, order);
      if s.reserveOps[order].decision.Succeeded? {
        assert s.transactions[s.reserveOps[order].decision.txId] in s.transactions;
      }
    }
    if t :| t in s.transactions && t.order == Some(order) && t.kind.RESERVE? {
      var i :| 0 <= i < |s.transactions| && s.transactions[i] == t;
      assert OperationLinked(s, i);
    }
    if Holds(s, order, requester, amount) {
      var i :| 0 <= i < |s.transactions| && s.transactions[i] == Transaction(Some(order), RESERVE, requester, amount);
      assert OperationLinked(s, i) && ReserveLinked(s, order);
    }
  }

  lemma TerminalRows(s: CreditState, order: OrderId)
    requires Linked(s)
    ensures Settled(s, order, TRANSFER) <==> order in s.terminalOps && s.terminalOps[order].TransferOperation?
    ensures Settled(s, order, RELEASE) <==> order in s.terminalOps && s.terminalOps[order].ReleaseOperation?
  {
    if order in s.terminalOps {
      assert TerminalLinked(s, order);
      assert s.transactions[TerminalTx(s.terminalOps[order]).value] in s.transactions;
    }
    forall t | t in s.transactions && t.order == Some(order) && IsTerminal(t.kind)
      ensures order in s.terminalOps && (t.kind.TRANSFER? <==> s.terminalOps[order].TransferOperation?)
    {
      var i :| 0 <= i < |s.transactions| && s.transactions[i] == t;
      assert OperationLinked(s, i) && TerminalLinked(s, order);
    }
  }

  // ----- what is said of an order

  /** Credit's answer about an order is its history: what settled it, or that it is reserved, or nothing; and
      of nothing, whether the order was ever decided. No committed reservation is in flight. */
  lemma StatusIsHistory(s: CreditState, order: OrderId)
    requires Linked(s)
    ensures var (status, detail) := OrderStatus(s, order);
            && (status == TRANSFERRED <==> Settled(s, order, TRANSFER))
            && (status == RELEASED <==> Settled(s, order, RELEASE))
            && (status == RESERVED <==>
                  HasReserve(s, order) && !Settled(s, order, TRANSFER) && !Settled(s, order, RELEASE))
            && (status == NONE <==> !HasReserve(s, order))
            && (detail == WasRefused <==> order in s.reserveOps && !HasReserve(s, order))
            && (detail == Unknown <==> order !in s.reserveOps)
            && detail != InFlight
  {
    ReserveRows(s, order, 0, 0);
    TerminalRows(s, order);
    if order in s.reserveOps {
      assert ReserveLinked(s, order);
    }
    if order in s.terminalOps {
      assert TerminalLinked(s, order);
    }
  }

  // ----- reservations

  /** The credit a user has left by the ledger's own sums. */
  function Left(s: CreditState, user: UserId): int { LedgerBalance(s.ledger, user, Available) }

  /** How a reservation of a new order is decided, when its requester has a wallet that can hold it: by its
      amount and by what the ledger says its requester has left, to the credit. */
  lemma NewReservationDecided(s: CreditState, input: ReservationInput)
    requires Inv(s) && Reserve(s, input).Done? && input.order !in s.reserveOps
    ensures var (outcome, after) := (Reserve(s, input).result, Reserve(s, input).after);
            && (outcome.ReservationHeld? <==> input.amount <= 5 && Left(s, input.requester) >= input.amount)
            && (outcome == ReservationDenied(AmountOutOfRange, None) <==> input.amount > 5)
            && (outcome == ReservationDenied(InsufficientCredits, Some(Left(s, input.requester))) <==>
                  input.amount <= 5 && Left(s, input.requester) < input.amount)
            && Left(after, input.requester)
               == Left(s, input.requester) - (if outcome.ReservationHeld? then input.amount else 0)
            && (outcome.ReservationHeld? <==> Holds(after, input.order, input.requester, input.amount))
            && after.alerts == s.alerts
  {
    ReserveKeeps(s, input);
    var after := Reserve(s, input).after;
    assert AvailableOf(s, input.requester) == LedgerBalance(s.ledger, input.requester, Available);
    assert AvailableOf(after, input.requester) == LedgerBalance(after.ledger, input.requester, Available);
    ReserveRows(after, input.order, input.requester, input.amount);
  }

  // ----- transfers and releases

  /** Why a transfer is refused, if it is, by the order's history. */
  ghost predicate TransferRefusedFor(s: CreditState, i: TransferInput, why: TerminalRejection) {
    match why
    case ReservationNotActive => !HasReserve(s, i.order)
    case RequestConflict =>
      HasReserve(s, i.order)
      && (!Holds(s, i.order, i.requester, i.amount)
          || (i.requester != i.courier && Settled(s, i.order, TRANSFER) && Postings.PaidTo(s, i.order) != Some(i.courier)))
    case InvalidParticipants => Holds(s, i.order, i.requester, i.amount) && i.requester == i.courier
    case TerminalOperationConflict =>
      Holds(s, i.order, i.requester, i.amount) && i.requester != i.courier && Settled(s, i.order, RELEASE)
  }

  /** A decided order's transfer is refused for a reason exactly when its history gives that reason, and then
      leaves one alert of that order, kind and reason, and nothing else. */
  lemma TransferRefusedExactly(s: CreditState, i: TransferInput, why: TerminalRejection)
    requires Linked(s) && i.order in s.reserveOps
    ensures var a := Transfer(s, i);
            && (a.Done? && a.result == TransferRefused(why) <==> TransferRefusedFor(s, i, why))
            && (a.Done? && a.result == TransferRefused(why) ==>
                  a.after == s.(alerts := s.alerts + [Alert(i.order, TRANSFER, why)]))
            && (a.Done? && a.result.Transferred? ==> a.after.alerts == s.alerts)
  {
    assert ReserveLinked(s, i.order);
    ReserveRows(s, i.order, i.requester, i.amount);
    TerminalRows(s, i.order);
    if i.order in s.terminalOps {
      assert TerminalLinked(s, i.order);
    }
  }

  ghost predicate ReleaseRefusedFor(s: CreditState, i: ReleaseInput, why: TerminalRejection) {
    match why
    case ReservationNotActive => !HasReserve(s, i.order)
    case RequestConflict => HasReserve(s, i.order) && !Holds(s, i.order, i.requester, i.amount)
    case InvalidParticipants => false
    case TerminalOperationConflict => Holds(s, i.order, i.requester, i.amount) && Settled(s, i.order, TRANSFER)
  }

  lemma ReleaseRefusedExactly(s: CreditState, i: ReleaseInput, why: TerminalRejection)
    requires Linked(s) && i.order in s.reserveOps
    ensures var a := Release(s, i);
            && (a.Done? && a.result == ReleaseRefused(why) <==> ReleaseRefusedFor(s, i, why))
            && (a.Done? && a.result == ReleaseRefused(why) ==>
                  a.after == s.(alerts := s.alerts + [Alert(i.order, RELEASE, why)]))
            && (a.Done? && a.result.Released? ==> a.after.alerts == s.alerts)
  {
    assert ReserveLinked(s, i.order);
    ReserveRows(s, i.order, i.requester, i.amount);
    TerminalRows(s, i.order);
    if i.order in s.terminalOps {
      assert TerminalLinked(s, i.order);
    }
  }

  // ----- what a granted request moves

  /** What one wallet gains between two states, by account. */
  predicate Gains(s: CreditState, after: CreditState, u: UserId, available: int, reserved: int) {
    && LedgerBalance(after.ledger, u, Available) == LedgerBalance(s.ledger, u, Available) + available
    && LedgerBalance(after.ledger, u, Reserved) == LedgerBalance(s.ledger, u, Reserved) + reserved
  }

  /** A transfer granted for the first time takes the amount out of what its requester has reserved and adds it
      to what its courier has left, and touches no other wallet; a repeat moves nothing. */
  lemma TransferMoves(s: CreditState, i: TransferInput, u: UserId)
    requires Inv(s) && Transfer(s, i).Done? && Transfer(s, i).result.Transferred?
    ensures var after := Transfer(s, i).after; var first := !Settled(s, i.order, TRANSFER);
            && Settled(after, i.order, TRANSFER) && i.requester != i.courier
            && Gains(s, after, u, if first && u == i.courier then i.amount else 0,
                                  if first && u == i.requester then -i.amount else 0)
  {
    TransferKeeps(s, i);
    var after := Transfer(s, i).after;
    TerminalRows(s, i.order);
    TerminalRows(after, i.order);
    assert AvailableOf(s, u) == LedgerBalance(s.ledger, u, Available);
    assert AvailableOf(after, u) == LedgerBalance(after.ledger, u, Available);
  }

  lemma ReleaseMoves(s: CreditState, i: ReleaseInput, u: UserId)
    requires Inv(s) && Release(s, i).Done? && Release(s, i).result.Released?
    ensures var after := Release(s, i).after; var first := !Settled(s, i.order, RELEASE);
            && Settled(after, i.order, RELEASE)
            && Gains(s, after, u, if first && u == i.requester then i.amount else 0,
                                  if first && u == i.requester then -i.amount else 0)
  {
    ReleaseKeeps(s, i);
    var after := Release(s, i).after;
    TerminalRows(s, i.order);
    TerminalRows(after, i.order);
    assert AvailableOf(s, u) == LedgerBalance(s.ledger, u, Available);
    assert AvailableOf(after, u) == LedgerBalance(after.ledger, u, Available);
  }

  /** A first issue gives its user the allocation and nobody else anything; another gives nothing. */
  lemma IssueMoves(s: CreditState, user: UserId, allocation: Allocation, u: UserId)
    requires IssuedOnce(s)
    ensures var a := IssueInitial(s, user, allocation); var first := IssuesTo(s.transactions, user) == 0;
            && a.Done? && (a.result <==> first)
            && Gains(s, a.after, u, if first && u == user then allocation else 0, 0)
  {
    assert IssuesTo(s.transactions, user) == if user in s.wallets then 1 else 0;
    if user !in s.wallets {
      var id := |s.transactions|;
      var e := Entry(id, None, PlatformIssuance, Debit, allocation, None);
      var f := Entry(id, Some(user), Available, Credit, allocation, Some(Wallet(allocation, 0)));
      BalanceAppendTwo(s.ledger, e, f, u, Available);
      BalanceAppendTwo(s.ledger, e, f, u, Reserved);
    }
  }

  // ----- alerts over runs

  /** The alert one request leaves, told from its answer. */
  function AlertOf(s: CreditState, c: Command): seq<Alert> {
    match c
    case IssueCmd(_, _) => []
    case ReserveCmd(i) =>
      if Reserve(s, i).Done? && Reserve(s, i).result == ReservationDenied(ConflictingRequest, None)
      then [Alert(i.order, RESERVE, RequestConflict)] else []
    case TransferCmd(i) =>
      if Transfer(s, i).Done? && Transfer(s, i).result.TransferRefused?
      then [Alert(i.order, TRANSFER, Transfer(s, i).result.why)] else []
    case ReleaseCmd(i) =>
      if Release(s, i).Done? && Release(s, i).result.ReleaseRefused?
      then [Alert(i.order, RELEASE, Release(s, i).result.why)] else []
  }

  function AlertsOf(s: CreditState, commands: seq<Command>): seq<Alert>
    decreases |commands|
  {
    if commands == [] then [] else AlertOf(s, commands[0]) + AlertsOf(Apply(s, commands[0]), commands[1..])
  }

  /** No conflict is ever recorded as an order's decision. */
  predicate NoConflictKept(s: CreditState) {
    forall o <- s.reserveOps | s.reserveOps[o].decision.Refused? :: !s.reserveOps[o].decision.reason.ConflictingRequest?
  }

  lemma ReserveAlerts(s: CreditState, i: ReservationInput)
    requires NoConflictKept(s)
    ensures Apply(s, ReserveCmd(i)).alerts == s.alerts + AlertOf(s, ReserveCmd(i)) && NoConflictKept(Apply(s, ReserveCmd(i)))
  {}

  lemma TransferAlerts(s: CreditState, i: TransferInput)
    requires NoConflictKept(s)
    ensures Apply(s, TransferCmd(i)).alerts == s.alerts + AlertOf(s, TransferCmd(i)) && NoConflictKept(Apply(s, TransferCmd(i)))
  {}

  lemma ReleaseAlerts(s: CreditState, i: ReleaseInput)
    requires NoConflictKept(s)
    ensures Apply(s, ReleaseCmd(i)).alerts == s.alerts + AlertOf(s, ReleaseCmd(i)) && NoConflictKept(Apply(s, ReleaseCmd(i)))
  {}

  lemma ApplyAlerts(s: CreditState, c: Command)
    requires NoConflictKept(s)
    ensures Apply(s, c).alerts == s.alerts + AlertOf(s, c) && NoConflictKept(Apply(s, c))
  {
    match c
    case IssueCmd(_, _) =>
    case ReserveCmd(i) => ReserveAlerts(s, i);
    case TransferCmd(i) => TransferAlerts(s, i);
    case ReleaseCmd(i) => ReleaseAlerts(s, i);
  }

  /** Over any run the alerts are, in order, one for each conflicting reservation and each refused transfer
      or release, and none for anything else. */
  lemma {:induction false} AlertsAreRefusals(s: CreditState, commands: seq<Command>)
    requires NoConflictKept(s)
    ensures Run(s, commands).alerts == s.alerts + AlertsOf(s, commands)
    decreases |commands|
  {
    if commands != [] {
      ApplyAlerts(s, commands[0]);
      AlertsAreRefusals(Apply(s, commands[0]), commands[1..]);
    }
  }

  // ----- issuing

  /** How many transactions issued to a user. */
  function IssuesTo(txs: seq<Transaction>, u: UserId): nat {
    if txs == [] then 0
    else IssuesTo(txs[..|txs| - 1], u) + if txs[|txs| - 1].kind.ISSUE? && txs[|txs| - 1].wallet == u then 1 else 0
  }

  ghost predicate IssuedOnce(s: CreditState) {
    forall u: UserId :: IssuesTo(s.transactions, u) == if u in s.wallets then 1 else 0
  }

  lemma IssuesAppend(txs: seq<Transaction>, t: Transaction, u: UserId)
    ensures IssuesTo(txs + [t], u) == IssuesTo(txs, u) + if t.kind.ISSUE? && t.wallet == u then 1 else 0
  {
    assert (txs + [t])[..|txs|] == txs;
  }

  /** A movement writes one transaction at most, and an issue is of a new wallet. */
  predicate WritesOne(s: CreditState, after: CreditState) {
    || (after.transactions == s.transactions && after.wallets.Keys == s.wallets.Keys)
    || (|after.transactions| == |s.transactions| + 1 && s.transactions <= after.transactions
        && var t := after.transactions[|s.transactions|];
           if t.kind.ISSUE? then t.wallet !in s.wallets && after.wallets.Keys == s.wallets.Keys + {t.wallet}
           else after.wallets.Keys == s.wallets.Keys)
  }

  lemma MovementWritesOne(s: CreditState, c: Command)
    ensures WritesOne(s, Apply(s, c))
  {
  }

  lemma ApplyIssuesOnce(s: CreditState, c: Command)
    requires IssuedOnce(s)
    ensures IssuedOnce(Apply(s, c))
  {
    var after := Apply(s, c);
    MovementWritesOne(s, c);
    OneMoreIssue(s, after);
  }

  lemma OneMoreIssue(s: CreditState, after: CreditState)
    requires IssuedOnce(s) && WritesOne(s, after)
    ensures IssuedOnce(after)
  {
    forall u: UserId ensures IssuesTo(after.transactions, u) == if u in after.wallets then 1 else 0 {
      assert IssuesTo(s.transactions, u) == if u in s.wallets then 1 else 0;
      if after.transactions != s.transactions {
        IssuesAppend(s.transactions, after.transactions[|s.transactions|], u);
        assert after.transactions == s.transactions + [after.transactions[|s.transactions|]];
      }
    }
  }

  /** In every run each wallet was funded by exactly one issue, and nobody else was issued anything. */
  lemma {:induction false} EveryWalletIssuedOnce(s: CreditState, commands: seq<Command>)
    requires IssuedOnce(s)
    ensures IssuedOnce(Run(s, commands))
    decreases |commands|
  {
    if commands != [] {
      ApplyIssuesOnce(s, commands[0]);
      EveryWalletIssuedOnce(Apply(s, commands[0]), commands[1..]);
    }
  }
}
