/** The checks as they run: each lists its violations, and the economy check runs five of the six.
    (`creditEconomyViolations` leaves out the wallet-against-ledger check, which the ledger audit
    adds.) */
module CreditChecks {
  import opened Wrappers
  import opened CreditTypes
  import opened CreditSums
  import opened CreditInvariants

  method WalletLedgerViolations(s: CreditState) returns (out: seq<Violation>)
    ensures forall v :: v in out <==> v.LedgerMismatch? && Violates(s, v)
  {
    out := [];
    var rest := s.wallets.Keys;
    while rest != {}
      invariant rest <= s.wallets.Keys
      invariant forall v :: v in out <==> v.LedgerMismatch? && v.user !in rest && Violates(s, v)
      decreases rest
    {
      var u :| u in rest;
      if s.wallets[u].available != LedgerBalance(s.ledger, u, Available)
         || s.wallets[u].reserved != LedgerBalance(s.ledger, u, Reserved) {
        out := out + [LedgerMismatch(u)];
      }
      rest := rest - {u};
    }
  }

  method BalanceViolations(s: CreditState) returns (out: seq<Violation>)
    ensures forall v :: v in out <==> v.NegativeWallet? && Violates(s, v)
  {
    out := [];
    var rest := s.wallets.Keys;
    while rest != {}
      invariant rest <= s.wallets.Keys
      invariant forall v :: v in out <==> v.NegativeWallet? && v.user !in rest && Violates(s, v)
      decreases rest
    {
      var u :| u in rest;
      if s.wallets[u].available < 0 || s.wallets[u].reserved < 0 {
        out := out + [NegativeWallet(u)];
      }
      rest := rest - {u};
    }
  }

  lemma {:induction false} NetOfAbsent(ledger: seq<Entry>, id: TxId)
    requires forall e <- ledger :: e.txId != id
    ensures Net(ledger, id) == 0
  {
    if ledger != [] {
      NetOfAbsent(ledger[..|ledger| - 1], id);
    }
  }

  method UnbalancedTransactionViolations(s: CreditState) returns (out: seq<Violation>)
    ensures forall v :: v in out <==> v.Unbalanced? && Violates(s, v)
  {
    out := [];
    var ids := set e <- s.ledger :: e.txId;
    var rest := ids;
    while rest != {}
      invariant rest <= ids
      invariant forall v :: v in out <==> v.Unbalanced? && v.txId in ids - rest && Violates(s, v)
      decreases rest
    {
      var id :| id in rest;
      if Net(s.ledger, id) != 0 {
        out := out + [Unbalanced(id)];
      }
      rest := rest - {id};
    }
    forall v: Violation | v.Unbalanced? && v.txId !in ids
      ensures !Violates(s, v)
    {
      NetOfAbsent(s.ledger, v.txId);
    }
  }

  method ConservationViolations(s: CreditState) returns (out: seq<Violation>)
    ensures forall v :: v in out <==> v.NotConserved? && Violates(s, v)
  {
    var held := 0;
    var rest := s.wallets;
    while rest != map[]
      invariant held + Held(rest) == Held(s.wallets)
      decreases rest.Keys
    {
      var u :| u in rest;
      HeldWithout(rest, u);
      held := held + rest[u].available + rest[u].reserved;
      rest := rest - {u};
    }
    out := if held == Issued(s.transactions) then [] else [NotConserved];
  }

  lemma {:induction false} CountsOfAbsent(txs: seq<Transaction>, order: OrderId)
    requires forall t <- txs :: t.order != Some(order)
    ensures Reserves(txs, order) == Terminals(txs, order) == 0
  {
    if txs != [] {
      CountsOfAbsent(txs[..|txs| - 1], order);
    }
  }

  predicate OutcomeViolation(v: Violation) { v.ReservedOften? || v.SettledOften? || v.SettledUnreserved? }

  method OrderOutcomeViolations(s: CreditState) returns (out: seq<Violation>)
    ensures forall v :: v in out <==> OutcomeViolation(v) && Violates(s, v)
  {
    out := [];
    var orders := set t <- s.transactions | t.order.Some? :: t.order.value;
    var rest := orders;
    while rest != {}
      invariant rest <= orders
      invariant forall v :: v in out <==> OutcomeViolation(v) && v.order in orders - rest && Violates(s, v)
      decreases rest
    {
      var o :| o in rest;
      var reserves, terminals := Reserves(s.transactions, o), Terminals(s.transactions, o);
      if reserves > 1 {
        out := out + [ReservedOften(o)];
      }
      if terminals > 1 {
        out := out + [SettledOften(o)];
      }
      if terminals > 0 && reserves == 0 {
        out := out + [SettledUnreserved(o)];
      }
      rest := rest - {o};
    }
    forall v | OutcomeViolation(v) && v.order !in orders
      ensures !Violates(s, v)
    {
      forall t | t in s.transactions ensures t.order != Some(v.order) {
        assert t.order.Some? ==> t.order.value in orders;
      }
      CountsOfAbsent(s.transactions, v.order);
    }
  }

  method ReservedBackingViolations(s: CreditState) returns (out: seq<Violation>)
    ensures forall v :: v in out <==> v.Unbacked? && Violates(s, v)
  {
    out := [];
    var settled := SettledOrders(s.transactions);
    var rest := s.wallets.Keys;
    while rest != {}
      invariant rest <= s.wallets.Keys
      invariant forall v :: v in out <==> v.Unbacked? && v.user !in rest && Violates(s, v)
      decreases rest
    {
      var u :| u in rest;
      if s.wallets[u].reserved != OpenReservations(s.transactions, settled, u) {
        out := out + [Unbacked(u)];
      }
      rest := rest - {u};
    }
  }

  lemma EmptyListsNothing(out: seq<Violation>)
    ensures out == [] <==> forall v :: v !in out
  {
    if out != [] { assert out[0] in out; }
  }

  method CreditEconomyViolations(s: CreditState) returns (out: seq<Violation>)
    ensures forall v :: v in out <==> !v.LedgerMismatch? && Violates(s, v)
    ensures Inv(s) ==> out == []
  {
    out := BalanceViolations(s);
    var more := UnbalancedTransactionViolations(s);
    out := out + more;
    more := ConservationViolations(s);
    out := out + more;
    more := OrderOutcomeViolations(s);
    out := out + more;
    more := ReservedBackingViolations(s);
    out := out + more;
    if Inv(s) {
      InvariantClosesEconomy(s);
      EmptyListsNothing(out);
    }
  }

  /** The economy is closed: wallets are what the ledger sums to, never negative and reserving just what open
      orders hold; each transaction balances; credits held are credits issued; and no order is settled more
      often than reserved, or reserved more than once. */
  ghost predicate IsClosed(s: CreditState) {
    && (forall u <- s.wallets ::
          && s.wallets[u] == Wallet(LedgerBalance(s.ledger, u, Available), LedgerBalance(s.ledger, u, Reserved))
          && s.wallets[u].available >= 0 && s.wallets[u].reserved >= 0
          && s.wallets[u].reserved == OpenReservations(s.transactions, SettledOrders(s.transactions), u))
    && (forall id: TxId :: Net(s.ledger, id) == 0)
    && Held(s.wallets) == Issued(s.transactions)
    && (forall o: OrderId :: Terminals(s.transactions, o) <= Reserves(s.transactions, o) <= 1)
  }

  /** The six checks together find nothing exactly when the economy is closed. */
  lemma ClosedExactly(s: CreditState)
    ensures ClosedEconomy(s) <==> IsClosed(s)
  {
    if ClosedEconomy(s) {
      assert !Violates(s, NotConserved);
      forall u | u in s.wallets
        ensures && s.wallets[u] == Wallet(LedgerBalance(s.ledger, u, Available), LedgerBalance(s.ledger, u, Reserved))
                && s.wallets[u].available >= 0 && s.wallets[u].reserved >= 0
                && s.wallets[u].reserved == OpenReservations(s.transactions, SettledOrders(s.transactions), u)
      {
        assert !Violates(s, LedgerMismatch(u)) && !Violates(s, NegativeWallet(u)) && !Violates(s, Unbacked(u));
      }
      forall id: TxId ensures Net(s.ledger, id) == 0 { assert !Violates(s, Unbalanced(id)); }
      forall o: OrderId ensures Terminals(s.transactions, o) <= Reserves(s.transactions, o) <= 1 {
        assert !Violates(s, ReservedOften(o)) && !Violates(s, SettledOften(o)) && !Violates(s, SettledUnreserved(o));
      }
    }
  }
}
