/** The closed-economy checks, and the invariant that every movement keeps and that implies them.
    The checks alone are not inductive: the invariant also ties each operation row to its one
    transaction, and each transaction to its two ledger entries. */
module CreditInvariants {
  import opened Wrappers
  import opened CreditTypes
  import opened CreditSums

  // ----- the six checks

  function Reserves(txs: seq<Transaction>, order: OrderId): nat {
    if txs == [] then 0
    else
      var t := txs[|txs| - 1];
      Reserves(txs[..|txs| - 1], order) + if t.order == Some(order) && t.kind.RESERVE? then 1 else 0
  }

  predicate IsTerminal(kind: TxKind) { kind.TRANSFER? || kind.RELEASE? }

  function Terminals(txs: seq<Transaction>, order: OrderId): nat {
    if txs == [] then 0
    else
      var t := txs[|txs| - 1];
      Terminals(txs[..|txs| - 1], order) + if t.order == Some(order) && IsTerminal(t.kind) then 1 else 0
  }

  function SettledOrders(txs: seq<Transaction>): set<OrderId> {
    set t <- txs | IsTerminal(t.kind) && t.order.Some? :: t.order.value
  }

  datatype Violation =
    | LedgerMismatch(user: UserId)
    | NegativeWallet(user: UserId)
    | Unbalanced(txId: TxId)
    | NotConserved
    | ReservedOften(order: OrderId)
    | SettledOften(order: OrderId)
    | SettledUnreserved(order: OrderId)
    | Unbacked(user: UserId)

  /** When each check reports each violation. */
  ghost predicate Violates(s: CreditState, v: Violation) {
    match v
    case LedgerMismatch(u) =>
      && u in s.wallets
      && (s.wallets[u].available != LedgerBalance(s.ledger, u, Available)
          || s.wallets[u].reserved != LedgerBalance(s.ledger, u, Reserved))
    case NegativeWallet(u) => u in s.wallets && (s.wallets[u].available < 0 || s.wallets[u].reserved < 0)
    case Unbalanced(id) => Net(s.ledger, id) != 0
    case NotConserved => Held(s.wallets) != Issued(s.transactions)
    case ReservedOften(o) => Reserves(s.transactions, o) > 1
    case SettledOften(o) => Terminals(s.transactions, o) > 1
    case SettledUnreserved(o) => Terminals(s.transactions, o) > 0 && Reserves(s.transactions, o) == 0
    case Unbacked(u) =>
      u in s.wallets
      && s.wallets[u].reserved != OpenReservations(s.transactions, SettledOrders(s.transactions), u)
  }

  ghost predicate ClosedEconomy(s: CreditState) { forall v :: !Violates(s, v) }

  // ----- the inductive invariant

  function AvailableOf(s: CreditState, u: UserId): int { if u in s.wallets then s.wallets[u].available else 0 }

  function ReservedOf(s: CreditState, u: UserId): int { if u in s.wallets then s.wallets[u].reserved else 0 }

  predicate NonNegative(s: CreditState) {
    forall u <- s.wallets :: 0 <= s.wallets[u].available <= INT_MAX && 0 <= s.wallets[u].reserved <= INT_MAX
  }

  predicate WellShaped(s: CreditState, t: Transaction) {
    t.wallet in s.wallets && 0 < t.amount <= INT_MAX && (t.kind.ISSUE? <==> t.order.None?)
  }

  predicate Shaped(s: CreditState) { forall i | 0 <= i < |s.transactions| :: WellShaped(s, s.transactions[i]) }

  predicate HasTx(s: CreditState, id: TxId, order: OrderId, kind: TxKind, requester: UserId, amount: int) {
    id < |s.transactions| && s.transactions[id] == Transaction(Some(order), kind, requester, amount)
  }

  predicate ReserveLinked(s: CreditState, order: OrderId)
    requires order in s.reserveOps
  {
    var op := s.reserveOps[order];
    match op.decision
    case Pending => false
    case Succeeded(id) =>
      HasTx(s, id, order, RESERVE, op.requester, op.amount) && op.amount <= MAX_RESERVATION_AMOUNT
    case Refused(reason, _) => !reason.ConflictingRequest?
  }

  /** The reservation a terminal operation consumed. */
  predicate Consumes(s: CreditState, order: OrderId, requester: UserId, amount: int, id: TxId) {
    && order in s.reserveOps
    && s.reserveOps[order].requester == requester && s.reserveOps[order].amount == amount
    && s.reserveOps[order].decision.Succeeded? && s.reserveOps[order].decision.txId < id
  }

  predicate TerminalLinked(s: CreditState, order: OrderId)
    requires order in s.terminalOps
  {
    match s.terminalOps[order]
    case TransferOperation(r, c, a, paid) =>
      && paid.Some? && paid.value.order == order && paid.value.requester == r && paid.value.courier == c
      && paid.value.amount == a && r != c && c in s.wallets
      && HasTx(s, paid.value.txId, order, TRANSFER, r, a) && Consumes(s, order, r, a, paid.value.txId)
    case ReleaseOperation(r, a, returned) =>
      && returned.Some? && returned.value.order == order && returned.value.requester == r
      && returned.value.amount == a
      && HasTx(s, returned.value.txId, order, RELEASE, r, a) && Consumes(s, order, r, a, returned.value.txId)
  }

  /** The transaction a finished terminal operation wrote. */
  function TerminalTx(op: TerminalOperation): Option<TxId> {
    match op
    case TransferOperation(_, _, _, paid) => if paid.Some? then Some(paid.value.txId) else None
    case ReleaseOperation(_, _, returned) => if returned.Some? then Some(returned.value.txId) else None
  }

  predicate OperationLinked(s: CreditState, id: TxId)
    requires id < |s.transactions|
  {
    var t := s.transactions[id];
    && (t.kind.RESERVE? ==> t.order.Some? && t.order.value in s.reserveOps
                            && s.reserveOps[t.order.value].decision == Succeeded(id))
    && (IsTerminal(t.kind) ==> t.order.Some? && t.order.value in s.terminalOps
                               && TerminalTx(s.terminalOps[t.order.value]) == Some(id))
  }

  predicate Linked(s: CreditState) {
    && (forall o <- s.reserveOps :: ReserveLinked(s, o))
    && (forall o <- s.terminalOps :: TerminalLinked(s, o))
    && (forall id | 0 <= id < |s.transactions| :: OperationLinked(s, id))
  }

  predicate PostedAs(amount: int, id: TxId, debit: Entry, credit: Entry) {
    debit.txId == credit.txId == id && debit.amount == credit.amount == amount
    && debit.direction.Debit? && credit.direction.Credit?
  }

  predicate Posted(s: CreditState) {
    && |s.ledger| == 2 * |s.transactions|
    && forall id | 0 <= id < |s.transactions| ::
         PostedAs(s.transactions[id].amount, id, s.ledger[2 * id], s.ledger[2 * id + 1])
  }

  ghost predicate Ledgered(s: CreditState) {
    forall u: UserId :: AvailableOf(s, u) == LedgerBalance(s.ledger, u, Available)
                     && ReservedOf(s, u) == LedgerBalance(s.ledger, u, Reserved)
  }

  ghost predicate Backed(s: CreditState) {
    forall u: UserId :: ReservedOf(s, u) == OpenReservations(s.transactions, s.terminalOps.Keys, u)
  }

  ghost predicate Inv(s: CreditState) {
    && NonNegative(s) && Shaped(s) && Linked(s) && Posted(s) && Ledgered(s) && Backed(s)
    && Held(s.wallets) == Issued(s.transactions)
  }

  // ----- the invariant implies every check

  lemma {:induction false} BalancedPrefix(s: CreditState, k: nat, id: TxId)
    requires Posted(s) && k <= |s.transactions|
    ensures Net(s.ledger[..2 * k], id) == 0
  {
    if k > 0 {
      BalancedPrefix(s, k - 1, id);
      var front := s.ledger[..2 * (k - 1)];
      var e, f := s.ledger[2 * (k - 1)], s.ledger[2 * (k - 1) + 1];
      assert s.ledger[..2 * k] == front + [e] + [f];
      assert PostedAs(s.transactions[k - 1].amount, k - 1, e, f);
      NetAppend(front, e, id);
      NetAppend(front + [e], f, id);
    }
  }

  lemma {:induction false} CountsFromIndex(txs: seq<Transaction>, order: OrderId, reserve: nat, terminal: nat)
    requires forall i | 0 <= i < |txs| && txs[i].order == Some(order) && txs[i].kind.RESERVE? :: i == reserve
    requires forall i | 0 <= i < |txs| && txs[i].order == Some(order) && IsTerminal(txs[i].kind) :: i == terminal
    ensures Reserves(txs, order)
         == if reserve < |txs| && txs[reserve].order == Some(order) && txs[reserve].kind.RESERVE? then 1 else 0
    ensures Terminals(txs, order)
         == if terminal < |txs| && txs[terminal].order == Some(order) && IsTerminal(txs[terminal].kind) then 1 else 0
  {
    if txs != [] {
      CountsFromIndex(txs[..|txs| - 1], order, reserve, terminal);
    }
  }

  /** One reservation per decided order, one terminal per settled order, and never a terminal alone. */
  lemma OutcomeCounts(s: CreditState, order: OrderId)
    requires Shaped(s) && Linked(s)
    ensures Reserves(s.transactions, order)
         == if order in s.reserveOps && s.reserveOps[order].decision.Succeeded? then 1 else 0
    ensures Terminals(s.transactions, order) == if order in s.terminalOps then 1 else 0
  {
    var reserve: nat := if order in s.reserveOps && s.reserveOps[order].decision.Succeeded?
                        then s.reserveOps[order].decision.txId else |s.transactions|;
    var terminal: nat := if order in s.terminalOps then TerminalTx(s.terminalOps[order]).value else |s.transactions|;
    forall i | 0 <= i < |s.transactions| && s.transactions[i].order == Some(order)
      ensures s.transactions[i].kind.RESERVE? ==> i == reserve
      ensures IsTerminal(s.transactions[i].kind) ==> i == terminal
    {
      assert OperationLinked(s, i);
    }
    CountsFromIndex(s.transactions, order, reserve, terminal);
  }

  lemma SettledAreTerminal(s: CreditState)
    requires Linked(s)
    ensures SettledOrders(s.transactions) == s.terminalOps.Keys
  {
    forall o | o in s.terminalOps
      ensures o in SettledOrders(s.transactions)
    {
      assert TerminalLinked(s, o);
      assert s.transactions[TerminalTx(s.terminalOps[o]).value] in s.transactions;
    }
    forall o | o in SettledOrders(s.transactions)
      ensures o in s.terminalOps
    {
      var t :| t in s.transactions && IsTerminal(t.kind) && t.order.Some? && t.order.value == o;
      var i :| 0 <= i < |s.transactions| && s.transactions[i] == t;
      assert OperationLinked(s, i);
    }
  }

  lemma InvariantClosesEconomy(s: CreditState)
    requires Inv(s)
    ensures ClosedEconomy(s)
  {
    SettledAreTerminal(s);
    forall v
      ensures !Violates(s, v)
    {
      match v
      case Unbalanced(id) =>
        BalancedPrefix(s, |s.transactions|, id);
        assert s.ledger[..2 * |s.transactions|] == s.ledger;
      case ReservedOften(o) => OutcomeCounts(s, o);
      case SettledOften(o) => OutcomeCounts(s, o);
      case SettledUnreserved(o) =>
        OutcomeCounts(s, o);
        if o in s.terminalOps {
          assert TerminalLinked(s, o);
        }
      case _ =>
    }
  }
}
