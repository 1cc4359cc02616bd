/** Why the closed economy is closed: for any tables at all, balanced transactions, wallets that
    match their ledger, and no unowned entry but the ISSUE debits, already force the wallets to hold
    exactly what was issued. The sums group the same entries by transaction and by wallet. */
module DoubleEntry {
  import opened Wrappers
  import opened CreditTypes
  import opened CreditSums
  import opened CreditInvariants

  /** All entries, credits less debits. */
  function TotalSigned(ledger: seq<Entry>): int {
    if ledger == [] then 0 else TotalSigned(ledger[..|ledger| - 1]) + ledger[|ledger| - 1].Signed()
  }

  // ----- grouped by transaction

  ghost function SumNets(ledger: seq<Entry>, ids: set<TxId>): int {
    if ids == {} then 0
    else
      var id :| id in ids;
      Net(ledger, id) + SumNets(ledger, ids - {id})
  }

  lemma {:induction false} SumNetsAppend(ledger: seq<Entry>, e: Entry, ids: set<TxId>)
    ensures SumNets(ledger + [e], ids) == SumNets(ledger, ids) + if e.txId in ids then e.Signed() else 0
    decreases ids
  {
    if ids != {} {
      var id :| id in ids;
      SumNetsWithout(ledger + [e], ids, id);
      SumNetsWithout(ledger, ids, id);
      NetAppend(ledger, e, id);
      SumNetsAppend(ledger, e, ids - {id});
    }
  }

  lemma {:induction false} SumNetsWithout(ledger: seq<Entry>, ids: set<TxId>, id: TxId)
    requires id in ids
    ensures SumNets(ledger, ids) == Net(ledger, id) + SumNets(ledger, ids - {id})
    decreases ids
  {
    var first :| first in ids && SumNets(ledger, ids) == Net(ledger, first) + SumNets(ledger, ids - {first});
    if first != id {
      SumNetsWithout(ledger, ids - {first}, id);
      SumNetsWithout(ledger, ids - {id}, first);
      assert ids - {first} - {id} == ids - {id} - {first};
    }
  }

  lemma {:induction false} GroupedByTransaction(ledger: seq<Entry>, ids: set<TxId>)
    requires forall e <- ledger :: e.txId in ids
    ensures SumNets(ledger, ids) == TotalSigned(ledger)
  {
    if ledger == [] {
      NoNets(ids);
    } else {
      var front, e := ledger[..|ledger| - 1], ledger[|ledger| - 1];
      assert ledger == front + [e];
      GroupedByTransaction(front, ids);
      SumNetsAppend(front, e, ids);
    }
  }

  lemma {:induction false} NoNets(ids: set<TxId>)
    ensures SumNets([], ids) == 0
    decreases ids
  {
    if ids != {} {
      var id :| id in ids;
      SumNetsWithout([], ids, id);
      NoNets(ids - {id});
    }
  }

  lemma {:induction false} BalancedSumsToNothing(ledger: seq<Entry>, ids: set<TxId>)
    requires forall id: TxId :: Net(ledger, id) == 0
    ensures SumNets(ledger, ids) == 0
    decreases ids
  {
    if ids != {} {
      var id :| id in ids;
      SumNetsWithout(ledger, ids, id);
      BalancedSumsToNothing(ledger, ids - {id});
    }
  }

  lemma BalancedTotal(ledger: seq<Entry>)
    requires forall id: TxId :: Net(ledger, id) == 0
    ensures TotalSigned(ledger) == 0
  {
    var ids := set e <- ledger :: e.txId;
    forall e | e in ledger ensures e.txId in ids { }
    GroupedByTransaction(ledger, ids);
    BalancedSumsToNothing(ledger, ids);
  }

  // ----- grouped by wallet

  /** What the ledger says these wallets hold together. */
  ghost function SumBalances(ledger: seq<Entry>, users: set<UserId>): int {
    if users == {} then 0
    else
      var u :| u in users;
      LedgerBalance(ledger, u, Available) + LedgerBalance(ledger, u, Reserved) + SumBalances(ledger, users - {u})
  }

  function WalletShare(e: Entry, users: set<UserId>): int {
    if e.wallet.Some? && e.wallet.value in users && !e.account.PlatformIssuance? then e.Signed() else 0
  }

  lemma {:induction false} SumBalancesWithout(ledger: seq<Entry>, users: set<UserId>, u: UserId)
    requires u in users
    ensures SumBalances(ledger, users)
         == LedgerBalance(ledger, u, Available) + LedgerBalance(ledger, u, Reserved) + SumBalances(ledger, users - {u})
    decreases users
  {
    var first :| first in users && SumBalances(ledger, users)
      == LedgerBalance(ledger, first, Available) + LedgerBalance(ledger, first, Reserved)
         + SumBalances(ledger, users - {first});
    if first != u {
      SumBalancesWithout(ledger, users - {first}, u);
      SumBalancesWithout(ledger, users - {u}, first);
      assert users - {first} - {u} == users - {u} - {first};
    }
  }

  lemma {:induction false} SumBalancesAppend(ledger: seq<Entry>, e: Entry, users: set<UserId>)
    ensures SumBalances(ledger + [e], users) == SumBalances(ledger, users) + WalletShare(e, users)
    decreases users
  {
    if users != {} {
      var u :| u in users;
      SumBalancesWithout(ledger + [e], users, u);
      SumBalancesWithout(ledger, users, u);
      SumBalancesAppend(ledger, e, users - {u});
      BalanceAppend(ledger, e, u, Available);
      BalanceAppend(ledger, e, u, Reserved);
    }
  }

  /** Entries of no wallet: credits less debits. */
  function Unowned(ledger: seq<Entry>): seq<Entry> {
    if ledger == [] then []
    else
      var e := ledger[|ledger| - 1];
      Unowned(ledger[..|ledger| - 1]) + if e.wallet.None? then [e] else []
  }

  lemma TotalSignedAppend(ledger: seq<Entry>, e: Entry)
    ensures TotalSigned(ledger + [e]) == TotalSigned(ledger) + e.Signed()
  {
    assert (ledger + [e])[..|ledger|] == ledger;
  }

  lemma {:induction false} GroupedByWallet(ledger: seq<Entry>, users: set<UserId>)
    requires forall e <- ledger | e.wallet.Some? :: e.wallet.value in users && !e.account.PlatformIssuance?
    ensures TotalSigned(ledger) == SumBalances(ledger, users) + TotalSigned(Unowned(ledger))
  {
    if ledger == [] {
      NoBalances(users);
    } else {
      var front, e := ledger[..|ledger| - 1], ledger[|ledger| - 1];
      assert ledger == front + [e];
      GroupedByWallet(front, users);
      SumBalancesAppend(front, e, users);
      if e.wallet.None? {
        TotalSignedAppend(Unowned(front), e);
      } else {
        assert Unowned(ledger) == Unowned(front);
      }
    }
  }

  lemma {:induction false} NoBalances(users: set<UserId>)
    ensures SumBalances([], users) == 0
    decreases users
  {
    if users != {} {
      var u :| u in users;
      SumBalancesWithout([], users, u);
      NoBalances(users - {u});
    }
  }

  predicate Matches(ledger: seq<Entry>, u: UserId, w: Wallet) {
    w.available == LedgerBalance(ledger, u, Available) && w.reserved == LedgerBalance(ledger, u, Reserved)
  }

  lemma {:induction false} MatchingWalletsHold(ledger: seq<Entry>, wallets: map<UserId, Wallet>)
    requires forall u <- wallets :: Matches(ledger, u, wallets[u])
    ensures SumBalances(ledger, wallets.Keys) == Held(wallets)
    decreases wallets.Keys
  {
    if wallets != map[] {
      var u :| u in wallets;
      assert Matches(ledger, u, wallets[u]);
      SumBalancesWithout(ledger, wallets.Keys, u);
      HeldWithout(wallets, u);
      MatchingWalletsHold(ledger, wallets - {u});
      assert (wallets - {u}).Keys == wallets.Keys - {u};
    }
  }

  // ----- the ISSUE debits

  /** The debit each ISSUE transaction posts against no wallet. */
  function IssueDebits(txs: seq<Transaction>, first: TxId): seq<Entry> {
    if txs == [] then []
    else
      (if txs[0].kind.ISSUE? then [Entry(first, None, PlatformIssuance, Debit, txs[0].amount, None)] else [])
      + IssueDebits(txs[1..], first + 1)
  }

  lemma {:induction false} SignedAdds(a: seq<Entry>, b: seq<Entry>)
    ensures TotalSigned(a + b) == TotalSigned(a) + TotalSigned(b)
  {
    if b == [] {
      assert a + b == a;
    } else {
      var front, e := b[..|b| - 1], b[|b| - 1];
      assert a + b == (a + front) + [e] && b == front + [e];
      SignedAdds(a, front);
      TotalSignedAppend(a + front, e);
    }
  }

  lemma SignedWithout(front: seq<Entry>, e: Entry, back: seq<Entry>)
    ensures TotalSigned(front + [e] + back) == e.Signed() + TotalSigned(front + back)
  {
    SignedAdds(front + [e], back);
    TotalSignedAppend(front, e);
    SignedAdds(front, back);
  }

  lemma WithoutOne<T>(s: seq<T>, i: nat) returns (front: seq<T>, back: seq<T>)
    requires i < |s|
    ensures s == front + [s[i]] + back
    ensures multiset(front + back) == multiset(s) - multiset{s[i]}
  {
    front, back := s[..i], s[i + 1..];
    assert s == front + [s[i]] + back;
  }

  lemma {:induction false} SignedIgnoresOrder(a: seq<Entry>, b: seq<Entry>)
    requires multiset(a) == multiset(b)
    ensures TotalSigned(a) == TotalSigned(b)
    decreases |a|
  {
    if a == [] {
      assert |b| == |multiset(b)| == 0;
    } else {
      assert a[0] in multiset(b);
      var i :| 0 <= i < |b| && b[i] == a[0];
      var frontA, backA := WithoutOne(a, 0);
      var frontB, backB := WithoutOne(b, i);
      SignedWithout(frontA, a[0], backA);
      SignedWithout(frontB, a[0], backB);
      SignedIgnoresOrder(frontA + backA, frontB + backB);
    }
  }

  lemma {:induction false} IssuedAdds(t: Transaction, rest: seq<Transaction>)
    ensures Issued([t] + rest) == (if t.kind.ISSUE? then t.amount else 0) + Issued(rest)
  {
    if rest == [] {
      assert [t] + rest == [] + [t];
      IssuedAppend([], t);
    } else {
      var front, last := rest[..|rest| - 1], rest[|rest| - 1];
      assert [t] + rest == ([t] + front) + [last] && rest == front + [last];
      IssuedAdds(t, front);
      IssuedAppend([t] + front, last);
    }
  }

  lemma {:induction false} IssueDebitsSum(txs: seq<Transaction>, first: TxId)
    ensures TotalSigned(IssueDebits(txs, first)) == -Issued(txs)
  {
    if txs != [] {
      IssueDebitsSum(txs[1..], first + 1);
      assert txs == [txs[0]] + txs[1..];
      IssuedAdds(txs[0], txs[1..]);
      var head := if txs[0].kind.ISSUE? then [Entry(first, None, PlatformIssuance, Debit, txs[0].amount, None)] else [];
      SignedAdds(head, IssueDebits(txs[1..], first + 1));
      if txs[0].kind.ISSUE? {
        TotalSignedAppend([], head[0]);
        assert [] + [head[0]] == head;
      }
    }
  }

  /** Double entry implies conservation. */
  lemma DoubleEntryConserves(s: CreditState)
    requires forall id: TxId :: !Violates(s, Unbalanced(id))
    requires forall u: UserId :: !Violates(s, LedgerMismatch(u))
    requires forall e <- s.ledger | e.wallet.Some? :: e.wallet.value in s.wallets && !e.account.PlatformIssuance?
    requires multiset(Unowned(s.ledger)) == multiset(IssueDebits(s.transactions, 0))
    ensures !Violates(s, NotConserved)
  {
    forall id: TxId ensures Net(s.ledger, id) == 0 { assert !Violates(s, Unbalanced(id)); }
    forall u | u in s.wallets ensures Matches(s.ledger, u, s.wallets[u]) {
      assert !Violates(s, LedgerMismatch(u));
    }
    BooksConserve(s);
  }

  lemma BooksConserve(s: CreditState)
    requires forall id: TxId :: Net(s.ledger, id) == 0
    requires forall u <- s.wallets :: Matches(s.ledger, u, s.wallets[u])
    requires forall e <- s.ledger | e.wallet.Some? :: e.wallet.value in s.wallets && !e.account.PlatformIssuance?
    requires multiset(Unowned(s.ledger)) == multiset(IssueDebits(s.transactions, 0))
    ensures Held(s.wallets) == Issued(s.transactions)
  {
    BalancedTotal(s.ledger);
    MatchingWalletsHold(s.ledger, s.wallets);
    GroupedByWallet(s.ledger, s.wallets.Keys);
    SignedIgnoresOrder(Unowned(s.ledger), IssueDebits(s.transactions, 0));
    IssueDebitsSum(s.transactions, 0);
  }

  /** An ISSUE whose credit went partly into `reserved`, where no reservation holds it. */
  const STRANDED: CreditState :=
    CreditState(map[7 := Wallet(9, 1)], map[], map[], [Transaction(None, ISSUE, 7, 10)],
                [Entry(0, None, PlatformIssuance, Debit, 10, None),
                 Entry(0, Some(7), Available, Credit, 9, Some(Wallet(9, 0))),
                 Entry(0, Some(7), Reserved, Credit, 1, Some(Wallet(9, 1)))], [], [])

  lemma ThreeEntries(a: Entry, b: Entry, c: Entry, u: UserId, account: Account, id: TxId)
    ensures LedgerBalance([a, b, c], u, account)
         == (if Moves(a, u, account) then a.Signed() else 0) + (if Moves(b, u, account) then b.Signed() else 0)
            + (if Moves(c, u, account) then c.Signed() else 0)
    ensures Net([a, b, c], id)
         == (if a.txId == id then a.Signed() else 0) + (if b.txId == id then b.Signed() else 0)
            + (if c.txId == id then c.Signed() else 0)
  {
    BalanceAppend([], a, u, account);
    BalanceAppendTwo([] + [a], b, c, u, account);
    NetAppend([], a, id);
    NetAppend([] + [a], b, id);
    NetAppend([] + [a] + [b], c, id);
    assert [] + [a] + [b, c] == [a, b, c] == [] + [a] + [b] + [c];
  }

  lemma OnlyIssue(order: OrderId)
    ensures Reserves(STRANDED.transactions, order) == 0 && Terminals(STRANDED.transactions, order) == 0
  {
    CountsFromIndex(STRANDED.transactions, order, 1, 1);
  }

  /** Backing is an independent check: all the others can pass while it fails. */
  lemma BackingIsIndependent()
    ensures forall v :: Violates(STRANDED, v) <==> v == Unbacked(7)
  {
    var l, t := STRANDED.ledger, STRANDED.transactions;
    HeldWithout(STRANDED.wallets, 7);
    assert STRANDED.wallets - {7} == map[];
    IssuedAppend([], t[0]);
    OpenAppend([], t[0], {}, 7);
    assert t == [] + [t[0]] && t[..0] == [];
    assert SettledOrders(t) == {};
    forall v
      ensures Violates(STRANDED, v) <==> v == Unbacked(7)
    {
      ThreeEntries(l[0], l[1], l[2], 7, Available, if v.Unbalanced? then v.txId else 0);
      ThreeEntries(l[0], l[1], l[2], 7, Reserved, 0);
      match v
      case ReservedOften(o) => OnlyIssue(o);
      case SettledOften(o) => OnlyIssue(o);
      case SettledUnreserved(o) => OnlyIssue(o);
      case _ =>
    }
  }
}
