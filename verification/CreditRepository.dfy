/** Credit's persistence, statement by statement, in the caller's transaction. Every method is proved
    against the function of the same name in `CreditLedger`; a fault at any boundary, like any error,
    leaves the tables as they were once the transaction rolls back. */
module CreditRepository {
  import opened Wrappers
  import opened CreditTypes
  import Ledger = CreditLedger

  datatype Boundary =
    | ReservationLocked | OperationClaimed | WalletUpdated | RequesterWalletUpdated | CourierWalletUpdated
    | TransactionWritten | LedgerWritten | OperationFinalized | OutboxWritten

  class CreditDatabase {
    var wallets: map<UserId, Wallet>
    var reserveOps: map<OrderId, ReserveOperation>
    var terminalOps: map<OrderId, TerminalOperation>
    var transactions: seq<Transaction>
    var ledger: seq<Entry>
    var alerts: seq<Alert>
    var outbox: seq<Reply>
    const initialAllocation: Allocation

    constructor (allocation: Allocation)
      ensures Tables() == EMPTY && initialAllocation == allocation
    {
      initialAllocation := allocation;
      wallets, reserveOps, terminalOps := map[], map[], map[];
      transactions, ledger, alerts, outbox := [], [], [], [];
    }

    function Tables(): CreditState
      reads this
    {
      CreditState(wallets, reserveOps, terminalOps, transactions, ledger, alerts, outbox)
    }

    /** Puts every table back as it was when the transaction began. */
    method Rollback(saved: CreditState)
      modifies this
      ensures Tables() == saved
    {
      wallets, reserveOps, terminalOps := saved.wallets, saved.reserveOps, saved.terminalOps;
      transactions, ledger, alerts, outbox := saved.transactions, saved.ledger, saved.alerts, saved.outbox;
    }

    /** What a transaction may do, given what its movement does when nothing interrupts it. */
    ghost predicate CommitsOrRollsBack<R(!new)>(before: CreditState, fault: Option<Boundary>,
                                               r: Result<R, CreditError>, spec: Ledger.Attempted<R>)
      reads this
    {
      match r
      case Success(value) => spec == Done(value, Tables())
      case Failure(error) =>
        Tables() == before
        && if error.FaultInjected? then fault.Some? else spec == Thrown(error)
    }

    method IssueInitial(user: UserId) returns (r: Result<bool, CreditError>)
      modifies this
      ensures CommitsOrRollsBack(old(Tables()), None, r, Ledger.IssueInitial(old(Tables()), user, initialAllocation))
    {
      if user in wallets {
        return Success(false);
      }
      wallets := wallets[user := Wallet(initialAllocation, 0)];
      var id := |transactions|;
      transactions := transactions + [Transaction(None, ISSUE, user, initialAllocation)];
      ledger := ledger + [Entry(id, None, PlatformIssuance, Debit, initialAllocation, None),
                          Entry(id, Some(user), Available, Credit, initialAllocation,
                                Some(Wallet(initialAllocation, 0)))];
      return Success(true);
    }

    method Reserve(input: ReservationInput, fault: Option<Boundary>)
      returns (r: Result<ReservationOutcome, CreditError>)
      modifies this
      ensures CommitsOrRollsBack(old(Tables()), fault, r, Ledger.Reserve(old(Tables()), input))
      ensures fault.None? ==> (r.Success? <==> Ledger.Reserve(old(Tables()), input).Done?)
    {
      var saved := Tables();
      r := ReserveUnderTransaction(input, fault);
      if r.Failure? {
        Rollback(saved);
      }
    }

    /** As the transaction runs: after a failure the tables may be half written. */
    ghost predicate Agrees<R(!new)>(fault: Option<Boundary>, r: Result<R, CreditError>, spec: Ledger.Attempted<R>)
      reads this
    {
      match r
      case Success(value) => spec == Done(value, Tables())
      case Failure(error) => if error.FaultInjected? then fault.Some? else spec == Thrown(error)
    }

    method ReserveUnderTransaction(input: ReservationInput, fault: Option<Boundary>)
      returns (r: Result<ReservationOutcome, CreditError>)
      modifies this
      ensures Agrees(fault, r, Ledger.Reserve(old(Tables()), input))
    {
      ghost var s := Tables();
      if !Ledger.Storable(input.amount) {
        return Failure(ConstraintViolated);
      }
      if input.order in reserveOps {
        r := ReplayOrRejectConflict(input);
        return;
      }
      reserveOps := reserveOps[input.order := ReserveOperation(input.requester, input.amount, Pending)];
      if fault == Some(OperationClaimed) { return Failure(FaultInjected); }

      if input.amount > MAX_RESERVATION_AMOUNT {
        r := FinishReservation(s, input, ReservationDenied(AmountOutOfRange, None), fault);
        return;
      }
      if input.requester !in wallets {
        return Failure(WalletNotReady(input.requester));
      }
      var w := wallets[input.requester];
      if w.available < input.amount {
        r := FinishReservation(s, input, ReservationDenied(InsufficientCredits, Some(w.available)), fault);
        return;
      }
      if w.reserved + input.amount > INT_MAX {
        return Failure(ConstraintViolated);
      }
      wallets := wallets[input.requester := Wallet(w.available - input.amount, w.reserved + input.amount)];
      if fault == Some(WalletUpdated) { return Failure(FaultInjected); }

      var id := |transactions|;
      transactions := transactions + [Transaction(Some(input.order), RESERVE, input.requester, input.amount)];
      if fault == Some(TransactionWritten) { return Failure(FaultInjected); }
      ledger := ledger + [Entry(id, Some(input.requester), Available, Debit, input.amount, Some(wallets[input.requester])),
                          Entry(id, Some(input.requester), Reserved, Credit, input.amount, Some(wallets[input.requester]))];
      if fault == Some(LedgerWritten) { return Failure(FaultInjected); }
      r := FinishReservation(Ledger.Hold(s, input), input, ReservationHeld(id), fault);
    }

    /** Turns the pending operation into the decision and writes the reply. */
    method FinishReservation(ghost s: CreditState, input: ReservationInput, outcome: ReservationOutcome,
                             fault: Option<Boundary>)
      returns (r: Result<ReservationOutcome, CreditError>)
      requires Tables() == s.(reserveOps := s.reserveOps[input.order :=
                                               ReserveOperation(input.requester, input.amount, Pending)])
      modifies this`reserveOps, this`outbox
      ensures r.Success? ==> r.value == outcome && Tables() == Ledger.Record(s, input, outcome)
      ensures r.Failure? ==> r.error == FaultInjected && fault.Some?
    {
      reserveOps := reserveOps[input.order :=
                                 ReserveOperation(input.requester, input.amount, Ledger.DecisionOf(outcome))];
      if fault == Some(OperationFinalized) { return Failure(FaultInjected); }
      outbox := outbox + [Ledger.ReplyTo(input, outcome)];
      if fault == Some(OutboxWritten) { return Failure(FaultInjected); }
      return Success(outcome);
    }

    method ReplayOrRejectConflict(input: ReservationInput) returns (r: Result<ReservationOutcome, CreditError>)
      requires input.order in reserveOps
      modifies this
      ensures Agrees(None, r, Ledger.ReplayReservation(old(Tables()), input))
    {
      var op := reserveOps[input.order];
      var outcome;
      if op.requester != input.requester || op.amount != input.amount {
        alerts := alerts + [Alert(input.order, RESERVE, RequestConflict)];
        outcome := ReservationDenied(ConflictingRequest, None);
      } else if op.decision.Pending? {
        return Failure(OutcomeStillPending);
      } else {
        outcome := Ledger.OutcomeOf(op.decision);
      }
      outbox := outbox + [Ledger.ReplyTo(input, outcome)];
      return Success(outcome);
    }

    method Transfer(input: TransferInput, fault: Option<Boundary>) returns (r: Result<TransferOutcome, CreditError>)
      modifies this
      ensures CommitsOrRollsBack(old(Tables()), fault, r, Ledger.Transfer(old(Tables()), input))
      ensures fault.None? ==> (r.Success? <==> Ledger.Transfer(old(Tables()), input).Done?)
    {
      var saved := Tables();
      r := TransferUnderTransaction(input, fault);
      if r.Failure? {
        Rollback(saved);
      }
    }

    method RejectTerminal(order: OrderId, kind: TxKind, why: TerminalRejection)
      modifies this`alerts
      ensures Tables() == Ledger.RejectTerminal(old(Tables()), order, kind, why)
    {
      alerts := alerts + [Alert(order, kind, why)];
    }

    method TransferUnderTransaction(input: TransferInput, fault: Option<Boundary>)
      returns (r: Result<TransferOutcome, CreditError>)
      modifies this
      ensures Agrees(fault, r, Ledger.Transfer(old(Tables()), input))
    {
      if !Ledger.Decided(Tables(), input.order) {
        return Failure(ReservationNotReady(input.order));
      }
      if fault == Some(ReservationLocked) { return Failure(FaultInjected); }
      var invalid := Ledger.Invalid(Tables(), input.order, input.requester, input.amount);
      if invalid.Some? {
        RejectTerminal(input.order, TRANSFER, invalid.value);
        return Success(TransferRefused(invalid.value));
      }
      if input.requester == input.courier {
        RejectTerminal(input.order, TRANSFER, InvalidParticipants);
        return Success(TransferRefused(InvalidParticipants));
      }
      if input.order in terminalOps {
        r := ReplayTransferOrReject(input);
        return;
      }
      if input.courier !in wallets { return Failure(WalletNotReady(input.courier)); }
      if input.requester !in wallets { return Failure(WalletNotReady(input.requester)); }
      if !Ledger.Storable(input.amount) { return Failure(ConstraintViolated); }
      ghost var s := Tables();
      terminalOps := terminalOps[input.order := TransferOperation(input.requester, input.courier, input.amount, None)];
      if fault == Some(OperationClaimed) { return Failure(FaultInjected); }

      if wallets[input.requester].reserved < input.amount {
        return Failure(NotBackedByReservedCredit(input.order));
      }
      wallets := wallets[input.requester :=
                           Wallet(wallets[input.requester].available, wallets[input.requester].reserved - input.amount)];
      if fault == Some(RequesterWalletUpdated) { return Failure(FaultInjected); }
      if wallets[input.courier].available + input.amount > INT_MAX {
        return Failure(ConstraintViolated);
      }
      wallets := wallets[input.courier :=
                           Wallet(wallets[input.courier].available + input.amount, wallets[input.courier].reserved)];
      if fault == Some(CourierWalletUpdated) { return Failure(FaultInjected); }

      r := FinishTransfer(s, input, fault);
    }

    /** Writes the movement, the decision and the reply; the wallets have moved. */
    method FinishTransfer(ghost s: CreditState, input: TransferInput, fault: Option<Boundary>)
      returns (r: Result<TransferOutcome, CreditError>)
      requires input.requester in s.wallets && input.courier in s.wallets && input.requester != input.courier
      requires var after := Ledger.Pay(s, input).1;
               Tables() == s.(wallets := after.wallets,
                              terminalOps := s.terminalOps[input.order :=
                                TransferOperation(input.requester, input.courier, input.amount, None)])
      modifies this`transactions, this`ledger, this`terminalOps, this`outbox
      ensures r.Success? ==> r.value == Transferred(Ledger.Pay(s, input).0) && Tables() == Ledger.Pay(s, input).1
      ensures r.Failure? ==> r.error == FaultInjected && fault.Some?
    {
      var id := |transactions|;
      transactions := transactions + [Transaction(Some(input.order), TRANSFER, input.requester, input.amount)];
      if fault == Some(TransactionWritten) { return Failure(FaultInjected); }
      ledger := ledger + [Entry(id, Some(input.requester), Reserved, Debit, input.amount, Some(wallets[input.requester])),
                          Entry(id, Some(input.courier), Available, Credit, input.amount, Some(wallets[input.courier]))];
      if fault == Some(LedgerWritten) { return Failure(FaultInjected); }

      var paid := TransferResult(input.order, input.requester, input.courier, input.amount, id,
                                 wallets[input.requester], wallets[input.courier]);
      terminalOps := terminalOps[input.order :=
                                   TransferOperation(input.requester, input.courier, input.amount, Some(paid))];
      if fault == Some(OperationFinalized) { return Failure(FaultInjected); }
      outbox := outbox + [CreditsTransferred(paid)];
      if fault == Some(OutboxWritten) { return Failure(FaultInjected); }
      return Success(Transferred(paid));
    }

    method ReplayTransferOrReject(input: TransferInput) returns (r: Result<TransferOutcome, CreditError>)
      requires input.order in terminalOps
      modifies this
      ensures Agrees(None, r, Ledger.ReplayTransfer(old(Tables()), input))
    {
      var prior := terminalOps[input.order];
      if prior.ReleaseOperation? || prior.requester != input.requester || prior.courier != input.courier
         || prior.amount != input.amount {
        var why := if prior.TransferOperation? then RequestConflict else TerminalOperationConflict;
        RejectTerminal(input.order, TRANSFER, why);
        return Success(TransferRefused(why));
      }
      if prior.paid.None? { return Failure(OutcomeStillPending); }
      outbox := outbox + [CreditsTransferred(prior.paid.value)];
      return Success(Transferred(prior.paid.value));
    }

    method Release(input: ReleaseInput, fault: Option<Boundary>) returns (r: Result<ReleaseOutcome, CreditError>)
      modifies this
      ensures CommitsOrRollsBack(old(Tables()), fault, r, Ledger.Release(old(Tables()), input))
      ensures fault.None? ==> (r.Success? <==> Ledger.Release(old(Tables()), input).Done?)
    {
      var saved := Tables();
      r := ReleaseUnderTransaction(input, fault);
      if r.Failure? {
        Rollback(saved);
      }
    }

    method ReleaseUnderTransaction(input: ReleaseInput, fault: Option<Boundary>)
      returns (r: Result<ReleaseOutcome, CreditError>)
      modifies this
      ensures Agrees(fault, r, Ledger.Release(old(Tables()), input))
    {
      if !Ledger.Decided(Tables(), input.order) {
        return Failure(ReservationNotReady(input.order));
      }
      if fault == Some(ReservationLocked) { return Failure(FaultInjected); }
      var invalid := Ledger.Invalid(Tables(), input.order, input.requester, input.amount);
      if invalid.Some? {
        RejectTerminal(input.order, RELEASE, invalid.value);
        return Success(ReleaseRefused(invalid.value));
      }
      if input.order in terminalOps {
        r := ReplayReleaseOrReject(input);
        return;
      }
      if !Ledger.Storable(input.amount) { return Failure(ConstraintViolated); }
      ghost var s := Tables();
      terminalOps := terminalOps[input.order := ReleaseOperation(input.requester, input.amount, None)];
      if fault == Some(OperationClaimed) { return Failure(FaultInjected); }

      if input.requester !in wallets || wallets[input.requester].reserved < input.amount {
        return Failure(NotBackedByReservedCredit(input.order));
      }
      var w := wallets[input.requester];
      if w.available + input.amount > INT_MAX { return Failure(ConstraintViolated); }
      wallets := wallets[input.requester := Wallet(w.available + input.amount, w.reserved - input.amount)];
      if fault == Some(RequesterWalletUpdated) { return Failure(FaultInjected); }

      r := FinishRelease(s, input, fault);
    }

    /** Writes the movement, the decision and the reply; the wallet has moved. */
    method FinishRelease(ghost s: CreditState, input: ReleaseInput, fault: Option<Boundary>)
      returns (r: Result<ReleaseOutcome, CreditError>)
      requires input.requester in s.wallets
      requires Tables() == s.(wallets := Ledger.Return(s, input).1.wallets,
                              terminalOps := s.terminalOps[input.order :=
                                ReleaseOperation(input.requester, input.amount, None)])
      modifies this`transactions, this`ledger, this`terminalOps, this`outbox
      ensures r.Success? ==> r.value == Released(Ledger.Return(s, input).0) && Tables() == Ledger.Return(s, input).1
      ensures r.Failure? ==> r.error == FaultInjected && fault.Some?
    {
      var id := |transactions|;
      transactions := transactions + [Transaction(Some(input.order), RELEASE, input.requester, input.amount)];
      if fault == Some(TransactionWritten) { return Failure(FaultInjected); }
      ledger := ledger + [Entry(id, Some(input.requester), Reserved, Debit, input.amount, Some(wallets[input.requester])),
                          Entry(id, Some(input.requester), Available, Credit, input.amount, Some(wallets[input.requester]))];
      if fault == Some(LedgerWritten) { return Failure(FaultInjected); }

      var returned := ReleaseResult(input.order, input.requester, input.amount, id, wallets[input.requester]);
      terminalOps := terminalOps[input.order := ReleaseOperation(input.requester, input.amount, Some(returned))];
      if fault == Some(OperationFinalized) { return Failure(FaultInjected); }
      outbox := outbox + [CreditsReleased(returned)];
      if fault == Some(OutboxWritten) { return Failure(FaultInjected); }
      return Success(Released(returned));
    }

    method ReplayReleaseOrReject(input: ReleaseInput) returns (r: Result<ReleaseOutcome, CreditError>)
      requires input.order in terminalOps
      modifies this
      ensures Agrees(None, r, Ledger.ReplayRelease(old(Tables()), input))
    {
      var prior := terminalOps[input.order];
      if prior.TransferOperation? || prior.requester != input.requester || prior.amount != input.amount {
        var why := if prior.ReleaseOperation? then RequestConflict else TerminalOperationConflict;
        RejectTerminal(input.order, RELEASE, why);
        return Success(ReleaseRefused(why));
      }
      if prior.returned.None? { return Failure(OutcomeStillPending); }
      outbox := outbox + [CreditsReleased(prior.returned.value)];
      return Success(Released(prior.returned.value));
    }
  }
}
