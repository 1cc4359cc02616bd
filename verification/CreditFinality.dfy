/** Whatever Credit has answered once, it answers for ever; and a request fails only because
    something it needs has not arrived yet. */
module CreditFinality {
  import opened Wrappers
  import opened CreditTypes
  import opened CreditSums
  import opened CreditInvariants
  import opened CreditLedger
  import opened CreditPreservation

  /** Rows once committed are never changed or deleted. */
  predicate Extends(s: CreditState, s': CreditState) {
    && s.wallets.Keys <= s'.wallets.Keys
    && s.transactions <= s'.transactions && s.ledger <= s'.ledger
    && (forall o <- s.reserveOps :: o in s'.reserveOps && s'.reserveOps[o] == s.reserveOps[o])
    && (forall o <- s.terminalOps :: o in s'.terminalOps && s'.terminalOps[o] == s.terminalOps[o])
  }

  lemma ReserveExtends(s: CreditState, input: ReservationInput)
    ensures Extends(s, After(s, Reserve(s, input)))
  {
  }

  lemma TransferExtends(s: CreditState, input: TransferInput)
    ensures Extends(s, After(s, Transfer(s, input)))
  {
  }

  lemma ReleaseExtends(s: CreditState, input: ReleaseInput)
    ensures Extends(s, After(s, Release(s, input)))
  {
  }

  lemma ApplyExtends(s: CreditState, c: Command)
    ensures Extends(s, Apply(s, c))
  {
    match c
    case IssueCmd(user, allocation) =>
    case ReserveCmd(input) => ReserveExtends(s, input);
    case TransferCmd(input) => TransferExtends(s, input);
    case ReleaseCmd(input) => ReleaseExtends(s, input);
  }

  lemma ExtendsTransitive(s: CreditState, t: CreditState, u: CreditState)
    requires Extends(s, t) && Extends(t, u)
    ensures Extends(s, u)
  {
  }

  lemma {:induction false} RunExtends(s: CreditState, commands: seq<Command>)
    ensures Extends(s, Run(s, commands))
    decreases |commands|
  {
    if commands != [] {
      ApplyExtends(s, commands[0]);
      RunExtends(Apply(s, commands[0]), commands[1..]);
      ExtendsTransitive(s, Apply(s, commands[0]), Run(s, commands));
    }
  }

  /** The operation row that makes an answer final. */
  predicate ReserveRow(s: CreditState, input: ReservationInput, outcome: ReservationOutcome) {
    && Storable(input.amount) && input.order in s.reserveOps
    && var op := s.reserveOps[input.order];
       if op.requester != input.requester || op.amount != input.amount
       then outcome == ReservationDenied(ConflictingRequest, None)
       else !op.decision.Pending? && outcome == OutcomeOf(op.decision)
  }

  lemma ReserveWritesRow(s: CreditState, input: ReservationInput)
    requires Reserve(s, input).Done?
    ensures ReserveRow(Reserve(s, input).after, input, Reserve(s, input).result)
  {
  }

  lemma ReserveRowAnswers(s: CreditState, input: ReservationInput, outcome: ReservationOutcome)
    requires ReserveRow(s, input, outcome)
    ensures var again := Reserve(s, input);
            && again.Done? && again.result == outcome && SameEconomy(s, again.after)
            && again.after.outbox == s.outbox + [ReplyTo(input, outcome)]
  {
  }

  /** A reservation request decided once gets the same answer after any further run, and changes
      nothing but alerts and the reply it sends again. */
  lemma ReserveAnswerIsFinal(s: CreditState, input: ReservationInput, commands: seq<Command>)
    requires Reserve(s, input).Done?
    ensures var outcome := Reserve(s, input).result;
            var later := Run(Reserve(s, input).after, commands);
            var again := Reserve(later, input);
            && again.Done? && again.result == outcome && SameEconomy(later, again.after)
            && again.after.outbox == later.outbox + [ReplyTo(input, outcome)]
  {
    var first := Reserve(s, input);
    ReserveWritesRow(s, input);
    RunExtends(first.after, commands);
    ReserveRowAnswers(Run(first.after, commands), input, first.result);
  }

  /** The rows that decide a transfer request. */
  predicate TransferRows(s: CreditState, input: TransferInput, outcome: TransferOutcome) {
    && Decided(s, input.order)
    && var invalid := Invalid(s, input.order, input.requester, input.amount);
       if invalid.Some? then outcome == TransferRefused(invalid.value)
       else if input.requester == input.courier then outcome == TransferRefused(InvalidParticipants)
       else
         && input.order in s.terminalOps
         && ReplayTransfer(s, input).Done? && ReplayTransfer(s, input).result == outcome
  }

  lemma TransferWritesRows(s: CreditState, input: TransferInput)
    requires Transfer(s, input).Done?
    ensures TransferRows(Transfer(s, input).after, input, Transfer(s, input).result)
  {
  }

  lemma TransferRowsAnswer(s: CreditState, input: TransferInput, outcome: TransferOutcome)
    requires TransferRows(s, input, outcome)
    ensures var again := Transfer(s, input);
            && again.Done? && again.result == outcome && SameEconomy(s, again.after)
            && again.after.outbox
               == s.outbox + if outcome.Transferred? then [CreditsTransferred(outcome.paid)] else []
  {
  }

  /** The same for a transfer: its transaction and both balance snapshots, or its refusal. */
  lemma TransferAnswerIsFinal(s: CreditState, input: TransferInput, commands: seq<Command>)
    requires Transfer(s, input).Done?
    ensures var outcome := Transfer(s, input).result;
            var later := Run(Transfer(s, input).after, commands);
            var again := Transfer(later, input);
            && again.Done? && again.result == outcome && SameEconomy(later, again.after)
            && again.after.outbox
               == later.outbox + if outcome.Transferred? then [CreditsTransferred(outcome.paid)] else []
  {
    var first := Transfer(s, input);
    TransferWritesRows(s, input);
    RunExtends(first.after, commands);
    TransferRowsAnswer(Run(first.after, commands), input, first.result);
  }

  predicate ReleaseRows(s: CreditState, input: ReleaseInput, outcome: ReleaseOutcome) {
    && Decided(s, input.order)
    && var invalid := Invalid(s, input.order, input.requester, input.amount);
       if invalid.Some? then outcome == ReleaseRefused(invalid.value)
       else
         && input.order in s.terminalOps
         && ReplayRelease(s, input).Done? && ReplayRelease(s, input).result == outcome
  }

  lemma ReleaseWritesRows(s: CreditState, input: ReleaseInput)
    requires Release(s, input).Done?
    ensures ReleaseRows(Release(s, input).after, input, Release(s, input).result)
  {
  }

  lemma ReleaseRowsAnswer(s: CreditState, input: ReleaseInput, outcome: ReleaseOutcome)
    requires ReleaseRows(s, input, outcome)
    ensures var again := Release(s, input);
            && again.Done? && again.result == outcome && SameEconomy(s, again.after)
            && again.after.outbox
               == s.outbox + if outcome.Released? then [CreditsReleased(outcome.returned)] else []
  {
  }

  lemma ReleaseAnswerIsFinal(s: CreditState, input: ReleaseInput, commands: seq<Command>)
    requires Release(s, input).Done?
    ensures var outcome := Release(s, input).result;
            var later := Run(Release(s, input).after, commands);
            var again := Release(later, input);
            && again.Done? && again.result == outcome && SameEconomy(later, again.after)
            && again.after.outbox
               == later.outbox + if outcome.Released? then [CreditsReleased(outcome.returned)] else []
  {
    var first := Release(s, input);
    ReleaseWritesRows(s, input);
    RunExtends(first.after, commands);
    ReleaseRowsAnswer(Run(first.after, commands), input, first.result);
  }

  /** How far an order's credits have come. */
  predicate NotBefore(before: (CreditStatus, StatusDetail), now: (CreditStatus, StatusDetail)) {
    match before.0
    case NONE => before.1 == WasRefused ==> now == before
    case RESERVED => !now.0.NONE?
    case _ => now == before
  }

  lemma StatusNeverMovesBack(s: CreditState, commands: seq<Command>, order: OrderId)
    requires Inv(s)
    ensures OrderStatus(s, order).1 != InFlight
    ensures NotBefore(OrderStatus(s, order), OrderStatus(Run(s, commands), order))
  {
    RunExtends(s, commands);
    RunKeeps(s, commands);
    var s' := Run(s, commands);
    if order in s.reserveOps {
      assert ReserveLinked(s, order) && ReserveLinked(s', order);
    }
    if order in s'.terminalOps {
      assert TerminalLinked(s', order);
    }
  }

  /** Transfer and release exclude each other: whichever answers first, the other is refused. */
  lemma OneTerminalPerOrder(s: CreditState, paid: TransferInput, returned: ReleaseInput, commands: seq<Command>)
    requires paid.order == returned.order
    ensures Transfer(s, paid).Done? && Transfer(s, paid).result.Transferred? ==>
              var later := Release(Run(Transfer(s, paid).after, commands), returned);
              later.Done? && later.result.ReleaseRefused?
    ensures Release(s, returned).Done? && Release(s, returned).result.Released? ==>
              var later := Transfer(Run(Release(s, returned).after, commands), paid);
              later.Done? && later.result.TransferRefused?
  {
    if Transfer(s, paid).Done? {
      RunExtends(Transfer(s, paid).after, commands);
    }
    if Release(s, returned).Done? {
      RunExtends(Release(s, returned).after, commands);
    }
  }

  // ----- what can fail

  lemma WalletsAreNonNegative(s: CreditState, gone: set<UserId>)
    requires NonNegative(s)
    ensures Held(s.wallets - gone) >= 0
  {
    forall u | u in s.wallets - gone ensures (s.wallets - gone)[u].Total() >= 0 {
      assert u in s.wallets;
    }
    HeldNonNegative(s.wallets - gone);
  }

  /** No wallet can overflow while fewer credits were issued than a column holds. */
  lemma TwoWalletsFit(s: CreditState, u: UserId, v: UserId)
    requires Inv(s) && u in s.wallets && v in s.wallets && u != v
    ensures s.wallets[u].Total() + s.wallets[v].Total() <= Issued(s.transactions)
  {
    HeldWithout(s.wallets, u);
    HeldWithout(s.wallets - {u}, v);
    assert s.wallets - {u} - {v} == s.wallets - {u, v};
    WalletsAreNonNegative(s, {u, v});
  }

  lemma OneWalletFits(s: CreditState, u: UserId)
    requires Inv(s) && u in s.wallets
    ensures s.wallets[u].Total() <= Issued(s.transactions)
  {
    HeldWithout(s.wallets, u);
    WalletsAreNonNegative(s, {u});
  }

  ghost predicate Fits(s: CreditState) { Issued(s.transactions) <= INT_MAX }

  predicate Throws<R>(a: Attempted<R>, error: CreditError) { a.Thrown? && a.error == error }

  /** Whether a reservation gets as far as its requester's wallet. */
  predicate AsksWallet(s: CreditState, input: ReservationInput) {
    Storable(input.amount) && input.order !in s.reserveOps && input.amount <= MAX_RESERVATION_AMOUNT
  }

  /** Exactly when a reservation throws, and what. An overflow needs more credit issued than a column holds. */
  lemma ReserveFailsOnlyUnready(s: CreditState, input: ReservationInput)
    requires Inv(s)
    ensures var a := Reserve(s, input);
            && (Throws(a, WalletNotReady(input.requester)) <==> AsksWallet(s, input) && input.requester !in s.wallets)
            && (Throws(a, ConstraintViolated) <==>
                  !Storable(input.amount)
                  || (AsksWallet(s, input) && HasAvailable(s, input)
                      && s.wallets[input.requester].reserved + input.amount > INT_MAX))
            && (a.Thrown? ==> a.error == WalletNotReady(input.requester) || a.error == ConstraintViolated)
            && (Throws(a, ConstraintViolated) && Storable(input.amount) ==> !Fits(s))
  {
    if input.order in s.reserveOps {
      assert ReserveLinked(s, input.order);
    } else if input.requester in s.wallets {
      OneWalletFits(s, input.requester);
    }
  }

  predicate HasAvailable(s: CreditState, input: ReservationInput) {
    input.requester in s.wallets && s.wallets[input.requester].available >= input.amount
  }

  /** Whether a transfer or release gets as far as the wallets. */
  predicate Unsettled(s: CreditState, order: OrderId, requester: UserId, amount: int) {
    Decided(s, order) && Invalid(s, order, requester, amount).None? && order !in s.terminalOps
  }

  /** What backs an unsettled reservation that a request names. */
  lemma UnsettledIsBacked(s: CreditState, order: OrderId, requester: UserId, amount: int)
    requires Inv(s) && Unsettled(s, order, requester, amount)
    ensures requester in s.wallets && s.wallets[requester].reserved >= amount && Storable(amount)
  {
    ReservationIsBacked(s, order);
    assert ReserveLinked(s, order);
    assert WellShaped(s, s.transactions[s.reserveOps[order].decision.txId]);
  }

  /** Exactly when a transfer throws, and what: "not backed by reserved credit" is never raised, and an
      overflow needs more credit issued than a column holds. */
  lemma TransferFailsOnlyUnready(s: CreditState, input: TransferInput)
    requires Inv(s)
    ensures var a := Transfer(s, input);
            var pays := Unsettled(s, input.order, input.requester, input.amount) && input.requester != input.courier;
            && (Throws(a, ReservationNotReady(input.order)) <==> input.order !in s.reserveOps)
            && (Throws(a, WalletNotReady(input.courier)) <==> pays && input.courier !in s.wallets)
            && (Throws(a, ConstraintViolated) <==>
                  pays && input.courier in s.wallets && s.wallets[input.courier].available + input.amount > INT_MAX)
            && (a.Thrown? ==> || a.error == ReservationNotReady(input.order) || a.error == WalletNotReady(input.courier)
                              || a.error == ConstraintViolated)
            && (Throws(a, ConstraintViolated) ==> !Fits(s))
  {
    if input.order in s.reserveOps {
      assert ReserveLinked(s, input.order);
      if input.order in s.terminalOps {
        assert TerminalLinked(s, input.order);
      } else if Invalid(s, input.order, input.requester, input.amount).None? {
        UnsettledIsBacked(s, input.order, input.requester, input.amount);
        if input.courier in s.wallets && input.courier != input.requester {
          TwoWalletsFit(s, input.requester, input.courier);
        }
      }
    }
  }

  /** Exactly when a release throws, and what. */
  lemma ReleaseFailsOnlyUnready(s: CreditState, input: ReleaseInput)
    requires Inv(s)
    ensures var a := Release(s, input);
            && (Throws(a, ReservationNotReady(input.order)) <==> input.order !in s.reserveOps)
            && (Throws(a, ConstraintViolated) <==>
                  && Unsettled(s, input.order, input.requester, input.amount) && input.requester in s.wallets
                  && s.wallets[input.requester].available + input.amount > INT_MAX)
            && (a.Thrown? ==> a.error == ReservationNotReady(input.order) || a.error == ConstraintViolated)
            && (Throws(a, ConstraintViolated) ==> !Fits(s))
  {
    if input.order in s.reserveOps {
      assert ReserveLinked(s, input.order);
      if input.order in s.terminalOps {
        assert TerminalLinked(s, input.order);
      } else if Invalid(s, input.order, input.requester, input.amount).None? {
        UnsettledIsBacked(s, input.order, input.requester, input.amount);
        OneWalletFits(s, input.requester);
      }
    }
  }
}
