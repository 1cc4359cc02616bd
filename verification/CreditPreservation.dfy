/** Every movement keeps the invariant, and so does every run of movements. */
module CreditPreservation {
  import opened Wrappers
  import opened CreditTypes
  import opened CreditSums
  import opened CreditInvariants
  import opened CreditLedger

  /** Replies and alerts are outside the economy. */
  predicate SameEconomy(s: CreditState, s': CreditState) {
    s' == s.(alerts := s'.alerts, outbox := s'.outbox)
  }

  function Effect(e: Entry, u: UserId, account: Account): int { if Moves(e, u, account) then e.Signed() else 0 }

  /** The new tables hold one more transaction, posted as `e` and `f`, and wallets moved to match. */
  ghost predicate Appends(s: CreditState, s': CreditState, t: Transaction, e: Entry, f: Entry) {
    && s'.transactions == s.transactions + [t] && s'.ledger == s.ledger + [e, f]
    && PostedAs(t.amount, |s.transactions|, e, f)
    && s.wallets.Keys <= s'.wallets.Keys && WellShaped(s', t)
    && (forall u: UserId :: AvailableOf(s', u) == AvailableOf(s, u) + Effect(e, u, Available) + Effect(f, u, Available))
    && (forall u: UserId ::
          ReservedOf(s', u) == ReservedOf(s, u) + Effect(e, u, Reserved) + Effect(f, u, Reserved))
  }

  lemma AppendKeepsBooks(s: CreditState, s': CreditState, t: Transaction, e: Entry, f: Entry)
    requires Shaped(s) && Posted(s) && Ledgered(s) && Appends(s, s', t, e, f)
    ensures Shaped(s') && Posted(s') && Ledgered(s')
  {
    forall id | 0 <= id < |s'.transactions|
      ensures WellShaped(s', s'.transactions[id])
      ensures PostedAs(s'.transactions[id].amount, id, s'.ledger[2 * id], s'.ledger[2 * id + 1])
    {
      if id < |s.transactions| {
        assert WellShaped(s, s.transactions[id]);
        assert PostedAs(s.transactions[id].amount, id, s.ledger[2 * id], s.ledger[2 * id + 1]);
      }
    }
    forall u: UserId
      ensures AvailableOf(s', u) == LedgerBalance(s'.ledger, u, Available)
      ensures ReservedOf(s', u) == LedgerBalance(s'.ledger, u, Reserved)
    {
      BalanceAppendTwo(s.ledger, e, f, u, Available);
      BalanceAppendTwo(s.ledger, e, f, u, Reserved);
    }
  }

  lemma IssueAppends(s: CreditState, user: UserId, allocation: Allocation)
    requires user !in s.wallets && Posted(s)
    ensures var s' := IssueInitial(s, user, allocation).after; var id := |s.transactions|;
            Appends(s, s', Transaction(None, ISSUE, user, allocation), s'.ledger[2 * id], s'.ledger[2 * id + 1])
  {
  }

  lemma IssueKeeps(s: CreditState, user: UserId, allocation: Allocation)
    requires Inv(s)
    ensures Inv(After(s, IssueInitial(s, user, allocation)))
  {
    if user !in s.wallets {
      var s' := IssueInitial(s, user, allocation).after;
      var id := |s.transactions|;
      var t := Transaction(None, ISSUE, user, allocation);
      IssueAppends(s, user, allocation);
      AppendKeepsBooks(s, s', t, s'.ledger[2 * id], s'.ledger[2 * id + 1]);
      HeldUpdated(s.wallets, user, s'.wallets[user]);
      IssuedAppend(s.transactions, t);
      LinksSurvive(s, s');
      assert OperationLinked(s', id);
      NothingSettled(s, s', t);
    }
  }

  lemma NothingSettled(s: CreditState, s': CreditState, t: Transaction)
    requires Backed(s) && s'.transactions == s.transactions + [t] && t.kind.ISSUE?
    requires s'.terminalOps == s.terminalOps
    requires forall u: UserId :: ReservedOf(s', u) == ReservedOf(s, u)
    ensures Backed(s')
  {
    forall u: UserId
      ensures ReservedOf(s', u) == OpenReservations(s'.transactions, s'.terminalOps.Keys, u)
    {
      OpenAppend(s.transactions, t, s.terminalOps.Keys, u);
      assert ReservedOf(s, u) == OpenReservations(s.transactions, s.terminalOps.Keys, u);
    }
  }

  /** Rows already written keep their links when tables only grow. */
  lemma LinksSurvive(s: CreditState, s': CreditState)
    requires Linked(s)
    requires s.transactions <= s'.transactions && s.wallets.Keys <= s'.wallets.Keys
    requires forall o <- s.reserveOps :: o in s'.reserveOps && s'.reserveOps[o] == s.reserveOps[o]
    requires forall o <- s.terminalOps :: o in s'.terminalOps && s'.terminalOps[o] == s.terminalOps[o]
    ensures forall o <- s.reserveOps :: ReserveLinked(s', o)
    ensures forall o <- s.terminalOps :: TerminalLinked(s', o)
    ensures forall id | 0 <= id < |s.transactions| :: OperationLinked(s', id)
  {
    forall o | o in s.reserveOps ensures ReserveLinked(s', o) { assert ReserveLinked(s, o); }
    forall o | o in s.terminalOps ensures TerminalLinked(s', o) { assert TerminalLinked(s, o); }
    forall id | 0 <= id < |s.transactions| ensures OperationLinked(s', id) { assert OperationLinked(s, id); }
  }

  /** The books do not depend on operation rows, alerts or replies. */
  lemma BooksCarry(s: CreditState, s': CreditState)
    requires Shaped(s) && Posted(s) && Ledgered(s) && Backed(s)
    requires s'.wallets == s.wallets && s'.ledger == s.ledger && s'.transactions == s.transactions
    requires s'.terminalOps.Keys == s.terminalOps.Keys
    ensures Shaped(s') && Posted(s') && Ledgered(s') && Backed(s')
  {
    forall id | 0 <= id < |s'.transactions| ensures WellShaped(s', s'.transactions[id]) {
      assert WellShaped(s, s.transactions[id]);
    }
    forall u: UserId
      ensures AvailableOf(s', u) == LedgerBalance(s'.ledger, u, Available)
      ensures ReservedOf(s', u) == LedgerBalance(s'.ledger, u, Reserved)
      ensures ReservedOf(s', u) == OpenReservations(s'.transactions, s'.terminalOps.Keys, u)
    {
      assert AvailableOf(s, u) == LedgerBalance(s.ledger, u, Available);
      assert ReservedOf(s, u) == OpenReservations(s.transactions, s.terminalOps.Keys, u);
    }
  }

  lemma SameEconomyKeeps(s: CreditState, s': CreditState)
    requires Inv(s) && SameEconomy(s, s')
    ensures Inv(s')
  {
    LinksSurvive(s, s');
    BooksCarry(s, s');
  }

  lemma DenialKeeps(s: CreditState, input: ReservationInput, outcome: ReservationOutcome)
    requires Inv(s) && input.order !in s.reserveOps
    requires outcome.ReservationDenied? && !outcome.reason.ConflictingRequest?
    ensures Inv(Record(s, input, outcome))
  {
    var s' := Record(s, input, outcome);
    LinksSurvive(s, s');
    assert ReserveLinked(s', input.order);
    BooksCarry(s, s');
  }

  predicate CanHold(s: CreditState, input: ReservationInput) {
    && input.order !in s.reserveOps && input.requester in s.wallets
    && 0 < input.amount <= MAX_RESERVATION_AMOUNT
    && s.wallets[input.requester].available >= input.amount
    && s.wallets[input.requester].reserved + input.amount <= INT_MAX
  }

  lemma HoldAppends(s: CreditState, input: ReservationInput)
    requires CanHold(s, input) && Posted(s)
    ensures var s' := Hold(s, input); var id := |s.transactions|;
            Appends(s, s', Transaction(Some(input.order), RESERVE, input.requester, input.amount),
                    s'.ledger[2 * id], s'.ledger[2 * id + 1])
  {
  }

  lemma HoldBacks(s: CreditState, input: ReservationInput)
    requires CanHold(s, input) && Linked(s) && Backed(s)
    ensures Backed(Hold(s, input))
  {
    var s' := Hold(s, input);
    forall u: UserId
      ensures ReservedOf(s', u) == OpenReservations(s'.transactions, s'.terminalOps.Keys, u)
    {
      OpenAppend(s.transactions, s'.transactions[|s.transactions|], s.terminalOps.Keys, u);
      assert ReservedOf(s, u) == OpenReservations(s.transactions, s.terminalOps.Keys, u);
    }
  }

  lemma HoldLinks(s: CreditState, input: ReservationInput)
    requires CanHold(s, input) && Linked(s)
    ensures Linked(Record(Hold(s, input), input, ReservationHeld(|s.transactions|)))
  {
    var s' := Record(Hold(s, input), input, ReservationHeld(|s.transactions|));
    LinksSurvive(s, s');
    assert ReserveLinked(s', input.order) && OperationLinked(s', |s.transactions|);
  }

  lemma HoldKeeps(s: CreditState, input: ReservationInput)
    requires Inv(s) && CanHold(s, input)
    ensures Inv(Record(Hold(s, input), input, ReservationHeld(|s.transactions|)))
  {
    var id := |s.transactions|;
    var held := Hold(s, input);
    var t := Transaction(Some(input.order), RESERVE, input.requester, input.amount);
    HoldAppends(s, input);
    AppendKeepsBooks(s, held, t, held.ledger[2 * id], held.ledger[2 * id + 1]);
    HoldBacks(s, input);
    HoldLinks(s, input);
    HeldUpdated(s.wallets, input.requester, held.wallets[input.requester]);
    IssuedAppend(s.transactions, t);
    BooksCarry(held, Record(held, input, ReservationHeld(id)));
  }

  lemma ReserveKeeps(s: CreditState, input: ReservationInput)
    requires Inv(s)
    ensures Inv(After(s, Reserve(s, input)))
  {
    if !Storable(input.amount) {
    } else if input.order in s.reserveOps {
      SameEconomyKeeps(s, After(s, Reserve(s, input)));
    } else if input.amount > MAX_RESERVATION_AMOUNT {
      DenialKeeps(s, input, ReservationDenied(AmountOutOfRange, None));
    } else if input.requester !in s.wallets {
    } else if s.wallets[input.requester].available < input.amount {
      DenialKeeps(s, input,
                  ReservationDenied(InsufficientCredits, Some(s.wallets[input.requester].available)));
    } else if s.wallets[input.requester].reserved + input.amount <= INT_MAX {
      HoldKeeps(s, input);
    }
  }

  /** The one reservation a settled order takes out of the open ones. */
  lemma ReservedOnce(s: CreditState, order: OrderId)
    requires Linked(s) && order in s.reserveOps && s.reserveOps[order].decision.Succeeded?
    ensures ReservesOnce(s.transactions, order, s.reserveOps[order].decision.txId)
  {
    assert ReserveLinked(s, order);
    var reserve := s.reserveOps[order].decision.txId;
    forall i | 0 <= i < |s.transactions| && s.transactions[i].kind.RESERVE? && s.transactions[i].order == Some(order)
      ensures i == reserve
    {
      assert OperationLinked(s, i);
    }
  }

  /** An unsettled reservation is always backed: its requester holds at least its amount reserved. */
  lemma ReservationIsBacked(s: CreditState, order: OrderId)
    requires Inv(s) && order in s.reserveOps && s.reserveOps[order].decision.Succeeded? && order !in s.terminalOps
    ensures s.reserveOps[order].requester in s.wallets
    ensures s.wallets[s.reserveOps[order].requester].reserved >= s.reserveOps[order].amount
  {
    assert ReserveLinked(s, order);
    var id := s.reserveOps[order].decision.txId;
    var t := s.transactions[id];
    forall i | 0 <= i < |s.transactions| ensures s.transactions[i].amount >= 0 {
      assert WellShaped(s, s.transactions[i]);
    }
    OpenIncludes(s.transactions, s.terminalOps.Keys, id);
    assert ReservedOf(s, t.wallet) == OpenReservations(s.transactions, s.terminalOps.Keys, t.wallet);
    assert WellShaped(s, t);
  }

  lemma SettleBacks(s: CreditState, s': CreditState, t: Transaction, order: OrderId)
    requires Inv(s) && order in s.reserveOps && s.reserveOps[order].decision.Succeeded? && order !in s.terminalOps
    requires s'.transactions == s.transactions + [t] && !t.kind.RESERVE?
    requires s'.terminalOps.Keys == s.terminalOps.Keys + {order}
    requires forall u: UserId :: ReservedOf(s', u) == ReservedOf(s, u)
               - if u == s.reserveOps[order].requester then s.reserveOps[order].amount else 0
    ensures Backed(s')
  {
    ReservedOnce(s, order);
    assert ReserveLinked(s, order);
    forall u: UserId
      ensures ReservedOf(s', u) == OpenReservations(s'.transactions, s'.terminalOps.Keys, u)
    {
      OpenAppend(s.transactions, t, s.terminalOps.Keys + {order}, u);
      SettleOne(s.transactions, s.terminalOps.Keys, order, s.reserveOps[order].decision.txId, u);
      assert ReservedOf(s, u) == OpenReservations(s.transactions, s.terminalOps.Keys, u);
    }
  }

  lemma PayAppends(s: CreditState, input: TransferInput)
    requires input.requester in s.wallets && input.courier in s.wallets && input.requester != input.courier
    requires Posted(s) && Storable(input.amount)
    ensures var s' := Pay(s, input).1; var id := |s.transactions|;
            Appends(s, s', Transaction(Some(input.order), TRANSFER, input.requester, input.amount),
                    s'.ledger[2 * id], s'.ledger[2 * id + 1])
  {
  }

  lemma PayHolds(s: CreditState, input: TransferInput)
    requires input.requester in s.wallets && input.courier in s.wallets && input.requester != input.courier
    ensures Held(Pay(s, input).1.wallets) == Held(s.wallets)
  {
    var s' := Pay(s, input).1;
    var w := s.wallets[input.requester := s'.wallets[input.requester]];
    HeldUpdated(s.wallets, input.requester, s'.wallets[input.requester]);
    HeldUpdated(w, input.courier, s'.wallets[input.courier]);
    assert s'.wallets == w[input.courier := s'.wallets[input.courier]];
  }

  lemma PayKeeps(s: CreditState, input: TransferInput)
    requires Inv(s) && input.requester in s.wallets && input.courier in s.wallets && input.requester != input.courier
    requires Decided(s, input.order) && Invalid(s, input.order, input.requester, input.amount).None?
    requires input.order !in s.terminalOps
    requires s.wallets[input.requester].reserved >= input.amount
    requires s.wallets[input.courier].available + input.amount <= INT_MAX
    ensures Inv(Pay(s, input).1)
  {
    var id := |s.transactions|;
    var s' := Pay(s, input).1;
    var t := Transaction(Some(input.order), TRANSFER, input.requester, input.amount);
    assert ReserveLinked(s, input.order);
    assert WellShaped(s, s.transactions[s.reserveOps[input.order].decision.txId]);
    PayAppends(s, input);
    AppendKeepsBooks(s, s', t, s'.ledger[2 * id], s'.ledger[2 * id + 1]);
    PayHolds(s, input);
    IssuedAppend(s.transactions, t);
    LinksSurvive(s, s');
    assert TerminalLinked(s', input.order) && OperationLinked(s', id);
    SettleBacks(s, s', t, input.order);
  }

  lemma TransferKeeps(s: CreditState, input: TransferInput)
    requires Inv(s)
    ensures Inv(After(s, Transfer(s, input)))
  {
    var r := Transfer(s, input);
    if r.Done? {
      if SameEconomy(s, r.after) {
        SameEconomyKeeps(s, r.after);
      } else {
        PayKeeps(s, input);
      }
    }
  }

  lemma ReturnAppends(s: CreditState, input: ReleaseInput)
    requires input.requester in s.wallets && Posted(s) && Storable(input.amount)
    ensures var s' := Return(s, input).1; var id := |s.transactions|;
            Appends(s, s', Transaction(Some(input.order), RELEASE, input.requester, input.amount),
                    s'.ledger[2 * id], s'.ledger[2 * id + 1])
  {
  }

  lemma ReturnKeeps(s: CreditState, input: ReleaseInput)
    requires Inv(s) && input.requester in s.wallets
    requires Decided(s, input.order) && Invalid(s, input.order, input.requester, input.amount).None?
    requires input.order !in s.terminalOps
    requires s.wallets[input.requester].reserved >= input.amount
    requires s.wallets[input.requester].available + input.amount <= INT_MAX
    ensures Inv(Return(s, input).1)
  {
    var id := |s.transactions|;
    var s' := Return(s, input).1;
    var t := Transaction(Some(input.order), RELEASE, input.requester, input.amount);
    assert ReserveLinked(s, input.order);
    assert WellShaped(s, s.transactions[s.reserveOps[input.order].decision.txId]);
    ReturnAppends(s, input);
    AppendKeepsBooks(s, s', t, s'.ledger[2 * id], s'.ledger[2 * id + 1]);
    HeldUpdated(s.wallets, input.requester, s'.wallets[input.requester]);
    IssuedAppend(s.transactions, t);
    LinksSurvive(s, s');
    assert TerminalLinked(s', input.order) && OperationLinked(s', id);
    SettleBacks(s, s', t, input.order);
  }

  lemma ReleaseKeeps(s: CreditState, input: ReleaseInput)
    requires Inv(s)
    ensures Inv(After(s, Release(s, input)))
  {
    var r := Release(s, input);
    if r.Done? {
      if SameEconomy(s, r.after) {
        SameEconomyKeeps(s, r.after);
      } else {
        ReturnKeeps(s, input);
      }
    }
  }

  lemma ApplyKeeps(s: CreditState, c: Command)
    requires Inv(s)
    ensures Inv(Apply(s, c))
  {
    match c
    case IssueCmd(user, allocation) => IssueKeeps(s, user, allocation);
    case ReserveCmd(input) => ReserveKeeps(s, input);
    case TransferCmd(input) => TransferKeeps(s, input);
    case ReleaseCmd(input) => ReleaseKeeps(s, input);
  }

  lemma {:induction false} RunKeeps(s: CreditState, commands: seq<Command>)
    requires Inv(s)
    ensures Inv(Run(s, commands))
    decreases |commands|
  {
    if commands != [] {
      ApplyKeeps(s, commands[0]);
      RunKeeps(Apply(s, commands[0]), commands[1..]);
    }
  }

  /** The closed economy: after any run of movements with any inputs, every check returns nothing. */
  lemma EveryRunIsClosed(commands: seq<Command>)
    ensures Inv(Run(EMPTY, commands)) && ClosedEconomy(Run(EMPTY, commands))
  {
    assert Inv(EMPTY);
    RunKeeps(EMPTY, commands);
    InvariantClosesEconomy(Run(EMPTY, commands));
  }
}
