/** The sums that the closed-economy checks take over wallets, transactions and ledger entries, and
    how each changes when a row is written. */
module CreditSums {
  import opened Wrappers
  import opened CreditTypes

  // ----- wallets

  /** Everything the wallets hold. */
  ghost function Held(wallets: map<UserId, Wallet>): int {
    if wallets == map[] then 0
    else
      var u :| u in wallets;
      wallets[u].Total() + Held(wallets - {u})
  }

  lemma {:induction false} HeldWithout(wallets: map<UserId, Wallet>, u: UserId)
    requires u in wallets
    ensures Held(wallets) == wallets[u].Total() + Held(wallets - {u})
    decreases |wallets|
  {
    var v :| v in wallets && Held(wallets) == wallets[v].Total() + Held(wallets - {v});
    if v != u {
      HeldWithout(wallets - {v}, u);
      HeldWithout(wallets - {u}, v);
      assert wallets - {v} - {u} == wallets - {u} - {v};
    }
  }

  lemma HeldUpdated(wallets: map<UserId, Wallet>, u: UserId, w: Wallet)
    ensures Held(wallets[u := w]) == Held(wallets) + w.Total() - if u in wallets then wallets[u].Total() else 0
  {
    HeldWithout(wallets[u := w], u);
    assert wallets[u := w] - {u} == wallets - {u};
    if u in wallets {
      HeldWithout(wallets, u);
    } else {
      assert wallets - {u} == wallets;
    }
  }

  lemma {:induction false} HeldNonNegative(wallets: map<UserId, Wallet>)
    requires forall u <- wallets :: wallets[u].Total() >= 0
    ensures Held(wallets) >= 0
    decreases |wallets|
  {
    if wallets != map[] {
      var u :| u in wallets && Held(wallets) == wallets[u].Total() + Held(wallets - {u});
      HeldNonNegative(wallets - {u});
    }
  }

  // ----- transactions

  /** The amounts of all ISSUE transactions. */
  function Issued(txs: seq<Transaction>): int {
    if txs == [] then 0
    else
      var t := txs[|txs| - 1];
      Issued(txs[..|txs| - 1]) + if t.kind.ISSUE? then t.amount else 0
  }

  predicate IsOpen(t: Transaction, settled: set<OrderId>, u: UserId) {
    t.kind.RESERVE? && t.wallet == u && !(t.order.Some? && t.order.value in settled)
  }

  /** What a user's reservations still hold, given the orders already settled. */
  function OpenReservations(txs: seq<Transaction>, settled: set<OrderId>, u: UserId): int {
    if txs == [] then 0
    else
      var t := txs[|txs| - 1];
      OpenReservations(txs[..|txs| - 1], settled, u) + if IsOpen(t, settled, u) then t.amount else 0
  }

  lemma IssuedAppend(txs: seq<Transaction>, t: Transaction)
    ensures Issued(txs + [t]) == Issued(txs) + if t.kind.ISSUE? then t.amount else 0
  {
    assert (txs + [t])[..|txs|] == txs;
  }

  lemma OpenAppend(txs: seq<Transaction>, t: Transaction, settled: set<OrderId>, u: UserId)
    ensures OpenReservations(txs + [t], settled, u)
         == OpenReservations(txs, settled, u) + if IsOpen(t, settled, u) then t.amount else 0
  {
    assert (txs + [t])[..|txs|] == txs;
  }

  predicate ReservesOnce(txs: seq<Transaction>, order: OrderId, id: TxId) {
    && id < |txs| && txs[id].kind.RESERVE? && txs[id].order == Some(order)
    && forall i | 0 <= i < |txs| && txs[i].kind.RESERVE? && txs[i].order == Some(order) :: i == id
  }

  lemma {:induction false} OpenIgnoresStrangers(txs: seq<Transaction>, settled: set<OrderId>, order: OrderId, u: UserId)
    requires forall i | 0 <= i < |txs| && txs[i].kind.RESERVE? :: txs[i].order != Some(order)
    ensures OpenReservations(txs, settled + {order}, u) == OpenReservations(txs, settled, u)
  {
    if txs != [] {
      OpenIgnoresStrangers(txs[..|txs| - 1], settled, order, u);
    }
  }

  /** Settling an order takes its one reservation, and nothing else, out of its requester's sum. */
  lemma {:induction false} SettleOne(txs: seq<Transaction>, settled: set<OrderId>, order: OrderId, id: TxId, u: UserId)
    requires ReservesOnce(txs, order, id) && order !in settled
    ensures OpenReservations(txs, settled + {order}, u)
         == OpenReservations(txs, settled, u) - if txs[id].wallet == u then txs[id].amount else 0
  {
    var n := |txs| - 1;
    if id == n {
      OpenIgnoresStrangers(txs[..n], settled, order, u);
    } else {
      SettleOne(txs[..n], settled, order, id, u);
    }
  }

  /** An open reservation is part of its requester's sum. */
  lemma {:induction false} OpenIncludes(txs: seq<Transaction>, settled: set<OrderId>, id: TxId)
    requires id < |txs| && IsOpen(txs[id], settled, txs[id].wallet)
    requires forall i | 0 <= i < |txs| :: txs[i].amount >= 0
    ensures OpenReservations(txs, settled, txs[id].wallet) >= txs[id].amount
  {
    var n := |txs| - 1;
    if id == n {
      OpenNonNegative(txs[..n], settled, txs[id].wallet);
    } else {
      OpenIncludes(txs[..n], settled, id);
    }
  }

  lemma {:induction false} OpenNonNegative(txs: seq<Transaction>, settled: set<OrderId>, u: UserId)
    requires forall i | 0 <= i < |txs| :: txs[i].amount >= 0
    ensures OpenReservations(txs, settled, u) >= 0
  {
    if txs != [] {
      OpenNonNegative(txs[..|txs| - 1], settled, u);
    }
  }

  // ----- ledger entries

  predicate Moves(e: Entry, u: UserId, account: Account) { e.wallet == Some(u) && e.account == account }

  /** What the ledger says one account of one wallet holds. */
  function LedgerBalance(ledger: seq<Entry>, u: UserId, account: Account): int {
    if ledger == [] then 0
    else
      var e := ledger[|ledger| - 1];
      LedgerBalance(ledger[..|ledger| - 1], u, account) + if Moves(e, u, account) then e.Signed() else 0
  }

  /** Credits less debits of one transaction. */
  function Net(ledger: seq<Entry>, id: TxId): int {
    if ledger == [] then 0
    else
      var e := ledger[|ledger| - 1];
      Net(ledger[..|ledger| - 1], id) + if e.txId == id then e.Signed() else 0
  }

  lemma BalanceAppend(ledger: seq<Entry>, e: Entry, u: UserId, account: Account)
    ensures LedgerBalance(ledger + [e], u, account)
         == LedgerBalance(ledger, u, account) + if Moves(e, u, account) then e.Signed() else 0
  {
    assert (ledger + [e])[..|ledger|] == ledger;
  }

  lemma BalanceAppendTwo(ledger: seq<Entry>, e: Entry, f: Entry, u: UserId, account: Account)
    ensures LedgerBalance(ledger + [e, f], u, account)
         == LedgerBalance(ledger, u, account)
            + (if Moves(e, u, account) then e.Signed() else 0)
            + (if Moves(f, u, account) then f.Signed() else 0)
  {
    assert ledger + [e, f] == ledger + [e] + [f];
    BalanceAppend(ledger, e, u, account);
    BalanceAppend(ledger + [e], f, u, account);
  }

  lemma NetAppend(ledger: seq<Entry>, e: Entry, id: TxId)
    ensures Net(ledger + [e], id) == Net(ledger, id) + if e.txId == id then e.Signed() else 0
  {
    assert (ledger + [e])[..|ledger|] == ledger;
  }
}
