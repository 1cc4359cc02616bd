/** What every run of the two services guarantees: they agree, nothing needs an operator, and once
    faults stop, reconciliation settles every errand with no second movement of its credits. */
module SagaTheorems {
  import opened Wrappers
  import opened CreditTypes
  import opened OrderTypes
  import opened OrderHandlers
  import opened CreditInvariants
  import opened Saga
  import Ledger = CreditLedger
  import Final = CreditFinality

  lemma ReachableIsGood(steps: seq<Step>)
    requires Runs(START, steps)
    ensures SagaInv(End(START, steps))
  {
    assert Inv(EMPTY);
    assert SagaInv(START);
    RunKeeps(START, steps);
  }

  // ----- agreement

  /** The kinds of the transactions Credit recorded for one errand, in order. */
  function TransactionsFor(txs: seq<Transaction>, id: OrderId): seq<TxKind> {
    if txs == [] then []
    else
      var t := txs[|txs| - 1];
      TransactionsFor(txs[..|txs| - 1], id) + if t.order == Some(id) then [t.kind] else []
  }

  /** What Credit must have recorded for an errand in each state. `DISPUTED` has no entry. */
  function Expected(status: Status): set<seq<TxKind>> {
    match status
    case PENDING_CREDIT => {[], [RESERVE]}
    case REJECTED => {[]}
    case OPEN => {[RESERVE]}
    case ACCEPTED => {[RESERVE]}
    case PICKED_UP => {[RESERVE]}
    case DELIVERED => {[RESERVE]}
    case DISPUTED => {}
    case COMPLETION_PENDING_CREDIT => {[RESERVE], [RESERVE, TRANSFER]}
    case RELEASE_PENDING_CREDIT => {[RESERVE], [RESERVE, RELEASE]}
    case COMPLETED => {[RESERVE, TRANSFER]}
    case CANCELLED => {[RESERVE, RELEASE]}
    case EXPIRED => {[RESERVE, RELEASE]}
  }

  datatype Disagreement = Mismatch(order: OrderId) | StillWaiting(order: OrderId)

  predicate Disagrees(w: World, settled: bool, d: Disagreement) {
    && d.order in w.order.orders
    && match d
       case Mismatch(id) => TransactionsFor(w.credit.transactions, id) !in Expected(w.order.orders[id].status)
       case StillWaiting(id) => settled && WaitsOnCredit(w.order.orders[id].status)
  }

  method AgreementViolations(w: World, settled: bool) returns (out: seq<Disagreement>)
    ensures forall d :: d in out <==> Disagrees(w, settled, d)
    ensures SagaInv(w) && !settled ==>
              forall d :: d in out <==> d.Mismatch? && d.order in w.order.orders && w.order.orders[d.order].status.DISPUTED?
  {
    out := [];
    var rest := w.order.orders.Keys;
    while rest != {}
      invariant rest <= w.order.orders.Keys
      invariant forall d :: d in out <==> d.order !in rest && Disagrees(w, settled, d)
      decreases rest
    {
      var id :| id in rest;
      var status := w.order.orders[id].status;
      if TransactionsFor(w.credit.transactions, id) !in Expected(status) {
        out := out + [Mismatch(id)];
      }
      if settled && WaitsOnCredit(status) {
        out := out + [StillWaiting(id)];
      }
      rest := rest - {id};
    }
    if SagaInv(w) {
      forall id | id in w.order.orders
        ensures Disagrees(w, false, Mismatch(id)) <==> w.order.orders[id].status.DISPUTED?
      {
        Agreement(w, id);
      }
    }
  }

  lemma {:induction false} KindsFromIndex(txs: seq<Transaction>, id: OrderId, reserve: nat, terminal: nat)
    requires forall i | 0 <= i < |txs| && txs[i].order == Some(id) :: i == reserve || i == terminal
    requires reserve < terminal || |txs| <= terminal
    ensures TransactionsFor(txs, id)
         == (if reserve < |txs| && txs[reserve].order == Some(id) then [txs[reserve].kind] else [])
            + (if reserve < terminal < |txs| && txs[terminal].order == Some(id) then [txs[terminal].kind] else [])
  {
    if txs != [] {
      KindsFromIndex(txs[..|txs| - 1], id, reserve, terminal);
    }
  }

  /** Credit's transactions for an errand, read off its two operation rows. */
  lemma KindsFromRows(c: CreditState, id: OrderId)
    requires Shaped(c) && Linked(c)
    ensures TransactionsFor(c.transactions, id)
         == if id in c.terminalOps then [RESERVE, if c.terminalOps[id].TransferOperation? then TRANSFER else RELEASE]
            else if id in c.reserveOps && c.reserveOps[id].decision.Succeeded? then [RESERVE] else []
  {
    var n := |c.transactions|;
    var reserve := if id in c.reserveOps && c.reserveOps[id].decision.Succeeded? then c.reserveOps[id].decision.txId else n;
    var terminal := if id in c.terminalOps then TerminalTx(c.terminalOps[id]).value else n;
    if id in c.terminalOps {
      assert TerminalLinked(c, id);
    }
    if id in c.reserveOps {
      assert ReserveLinked(c, id);
    }
    forall i | 0 <= i < n && c.transactions[i].order == Some(id)
      ensures i == reserve || i == terminal
    {
      assert OperationLinked(c, i) && WellShaped(c, c.transactions[i]);
    }
    KindsFromIndex(c.transactions, id, reserve, terminal);
  }

  /** The agreement table holds for every errand in every reachable state, except that it has no row
      for a disputed errand, for which Credit holds exactly the reservation. */
  lemma Agreement(w: World, id: OrderId)
    requires SagaInv(w) && id in w.order.orders
    ensures var kinds := TransactionsFor(w.credit.transactions, id); var status := w.order.orders[id].status;
            && (kinds in Expected(status) <==> !status.DISPUTED?)
            && (status.DISPUTED? ==> kinds == [RESERVE])
  {
    KindsFromRows(w.credit, id);
    assert OrderOk(w.order.orders[id], Reservation(w.credit, id), Terminal(w.credit, id));
  }

  lemma EveryRunAgrees(steps: seq<Step>, id: OrderId)
    requires Runs(START, steps) && id in End(START, steps).order.orders
    ensures var w := End(START, steps); var kinds := TransactionsFor(w.credit.transactions, id);
            var status := w.order.orders[id].status;
            && (kinds in Expected(status) <==> !status.DISPUTED?)
            && (status.DISPUTED? ==> kinds == [RESERVE])
  {
    ReachableIsGood(steps);
    Agreement(End(START, steps), id);
  }

  /** The kinds of transactions that one of Credit's answers about an order stands for. */
  function KindsOf(credit: Ledger.CreditStatus): seq<TxKind> {
    match credit
    case NONE => []
    case RESERVED => [RESERVE]
    case TRANSFERRED => [RESERVE, TRANSFER]
    case RELEASED => [RESERVE, RELEASE]
  }

  /** The reconciler asks again exactly where the agreement table allows what Credit answers, and alerts where
      it does not. */
  lemma DecisionFollowsTable(status: Status, credit: Ledger.CreditStatus)
    requires WaitsOnCredit(status)
    ensures ReconciliationDecision(status, credit) == (if KindsOf(credit) in Expected(status) then REISSUE else ALERT)
  {}

  /** What Credit answers about an errand stands for the transactions it has recorded. */
  lemma AnswersItsTransactions(c: CreditState, id: OrderId)
    requires Shaped(c) && Linked(c)
    ensures KindsOf(Ledger.OrderStatus(c, id).0) == TransactionsFor(c.transactions, id)
  {
    KindsFromRows(c, id);
    if id in c.terminalOps {
      assert TerminalLinked(c, id);
    }
    if id in c.reserveOps {
      assert ReserveLinked(c, id);
    }
  }

  // ----- no false alarm

  /** A movement fails only for a column that cannot hold the result, and then more credit was issued than
      one column holds. */
  ghost predicate Overflows<R>(c: CreditState, a: Ledger.Attempted<R>) {
    a == Thrown(ConstraintViolated) && !Final.Fits(c)
  }

  /** Credit answers every request it is ever sent with success or, for a reservation only, a refusal
      of this errand; or it waits for a wallet; or a column overflows. */
  ghost predicate Welcome(c: CreditState, a: Ledger.Attempted<ReservationOutcome>) {
    || Overflows(c, a)
    || match a
       case Thrown(error) => error.WalletNotReady?
       case Done(outcome, _) => outcome.ReservationDenied? ==> !outcome.reason.ConflictingRequest?
  }

  ghost predicate Pays(c: CreditState, input: TransferInput) {
    var a := Ledger.Transfer(c, input);
    || Overflows(c, a)
    || if a.Thrown? then a.error == WalletNotReady(input.courier) && input.courier !in c.wallets else a.result.Transferred?
  }

  ghost predicate Returns(c: CreditState, input: ReleaseInput) {
    var a := Ledger.Release(c, input); Overflows(c, a) || (a.Done? && a.result.Released?)
  }

  /** In every reachable state, whatever message arrives next and however old it is: no terminal
      request is refused, no reservation conflicts, no reply is set aside, and nothing was alerted. */
  lemma NoFalseAlarm(steps: seq<Step>, i: nat, suspended: bool)
    requires Runs(START, steps)
    ensures var w := End(START, steps);
            && w.credit.alerts == [] && w.order.conflicts == {}
            && (i < |w.credit.outbox| ==> Quiet(HandleReply(w.order, w.credit.outbox[i], suspended).0))
            && (i < |w.order.outbox| ==>
                  match CommandOf(w.order.outbox[i])
                  case ReserveCmd(input) => Welcome(w.credit, Ledger.Reserve(w.credit, input))
                  case TransferCmd(input) => Pays(w.credit, input)
                  case ReleaseCmd(input) => Returns(w.credit, input))
  {
    ReachableIsGood(steps);
    var w := End(START, steps);
    if i < |w.credit.outbox| {
      ReplyIsQuiet(w, i, suspended);
    }
    if i < |w.order.outbox| {
      var m := w.order.outbox[i];
      assert RequestOk(w.order.orders, m);
      assert OrderOk(w.order.orders[m.order], Reservation(w.credit, m.order), Terminal(w.credit, m.order));
      match m
      case ReservationRequested(id, r, a) => ReservationWelcome(w, ReservationInput(id, r, a));
      case CompletionRequested(id, r, c, a) => CompletionWelcome(w, TransferInput(id, r, c, a));
      case ReleaseRequested(id, r, a) => ReleaseWelcome(w, ReleaseInput(id, r, a));
    }
  }

  lemma ReservationWelcome(w: World, input: ReservationInput)
    requires SagaInv(w)
    requires RequestOk(w.order.orders, ReservationRequested(input.order, input.requester, input.amount))
    ensures Welcome(w.credit, Ledger.Reserve(w.credit, input))
  {
    assert OrderOk(w.order.orders[input.order], Reservation(w.credit, input.order), Terminal(w.credit, input.order));
    Final.ReserveFailsOnlyUnready(w.credit, input);
    if input.order in w.credit.reserveOps {
      assert ReserveLinked(w.credit, input.order);
    }
  }

  /** The rows that a genuine completion or release request finds: its reservation is held, and what settled
      the errand, if anything did, is what it asks for. */
  lemma RowsFound(c: CreditState, o: Order, id: OrderId)
    requires Linked(c) && OrderOk(o, Reservation(c, id), Terminal(c, id))
    requires o.status.COMPLETION_PENDING_CREDIT? || o.status.COMPLETED? || o.status.RELEASE_PENDING_CREDIT?
             || o.status.CANCELLED? || o.status.EXPIRED?
    ensures Ledger.Decided(c, id) && Ledger.Invalid(c, id, o.requester, o.reward).None?
    ensures id in c.terminalOps ==> Terminal(c, id).value.requester == o.requester && Terminal(c, id).value.amount == o.reward
  {
    assert ReserveLinked(c, id);
    if id in c.terminalOps {
      assert TerminalLinked(c, id);
    }
  }

  lemma CompletionWelcome(w: World, input: TransferInput)
    requires SagaInv(w)
    requires RequestOk(w.order.orders, CompletionRequested(input.order, input.requester, input.courier, input.amount))
    ensures Pays(w.credit, input)
  {
    assert OrderOk(w.order.orders[input.order], Reservation(w.credit, input.order), Terminal(w.credit, input.order));
    RowsFound(w.credit, w.order.orders[input.order], input.order);
    Final.TransferFailsOnlyUnready(w.credit, input);
  }

  lemma ReleaseWelcome(w: World, input: ReleaseInput)
    requires SagaInv(w)
    requires RequestOk(w.order.orders, ReleaseRequested(input.order, input.requester, input.amount))
    ensures Returns(w.credit, input)
  {
    assert OrderOk(w.order.orders[input.order], Reservation(w.credit, input.order), Terminal(w.credit, input.order));
    RowsFound(w.credit, w.order.orders[input.order], input.order);
    Final.ReleaseFailsOnlyUnready(w.credit, input);
  }
}
