/** What the ledger says, entry by entry, in every reachable state: which accounts a movement debits and
    credits, and what each entry and each recorded result tell of a wallet, by the ledger's own sums. */
module CreditPostings {
  import opened Wrappers
  import opened CreditTypes
  import opened CreditSums
  import opened CreditInvariants
  import opened CreditLedger
  import Keep = CreditPreservation

  // ----- which accounts a movement moves

  predicate Posts(e: Entry, wallet: Option<UserId>, account: Account) { e.wallet == wallet && e.account == account }

  /** Who a recorded transfer paid. */
  function PaidTo(s: CreditState, order: OrderId): Option<UserId> {
    if order in s.terminalOps && s.terminalOps[order].TransferOperation? then Some(s.terminalOps[order].courier) else None
  }

  /** Issuing credits the new wallet, holding moves from available to reserved, paying from the requester's
      reserved to the courier's available, and returning back to available. */
  predicate Booked(s: CreditState, id: TxId)
    requires id < |s.transactions| && |s.ledger| == 2 * |s.transactions|
  {
    var t, from, to := s.transactions[id], s.ledger[2 * id], s.ledger[2 * id + 1];
    match t.kind
    case ISSUE => Posts(from, None, PlatformIssuance) && Posts(to, Some(t.wallet), Available)
    case RESERVE => Posts(from, Some(t.wallet), Available) && Posts(to, Some(t.wallet), Reserved)
    case RELEASE => Posts(from, Some(t.wallet), Reserved) && Posts(to, Some(t.wallet), Available)
    case TRANSFER =>
      Posts(from, Some(t.wallet), Reserved) && to.account.Available?
      && t.order.Some? && to.wallet == PaidTo(s, t.order.value) && to.wallet.Some?
  }

  // ----- what the entries and results tell

  /** A wallet by the sums of the ledger up to and with a transaction's entries. */
  function WalletAfter(ledger: seq<Entry>, id: TxId, u: UserId): Wallet
    requires 2 * id + 2 <= |ledger|
  {
    var upTo := ledger[..2 * id + 2];
    Wallet(LedgerBalance(upTo, u, Available), LedgerBalance(upTo, u, Reserved))
  }

  /** An entry of a user tells their wallet as its transaction left it; others tell none. */
  predicate TellsWallet(ledger: seq<Entry>, id: TxId, e: Entry)
    requires 2 * id + 2 <= |ledger|
  {
    e.resulting == if e.wallet.Some? then Some(WalletAfter(ledger, id, e.wallet.value)) else None
  }

  /** A recorded result tells the wallets as its own transaction left them. */
  predicate ResultTells(s: CreditState, op: TerminalOperation)
    requires |s.ledger| == 2 * |s.transactions|
  {
    match op
    case TransferOperation(r, c, _, Some(p)) =>
      p.txId < |s.transactions|
      && p.requesterBalance == WalletAfter(s.ledger, p.txId, r) && p.courierBalance == WalletAfter(s.ledger, p.txId, c)
    case ReleaseOperation(r, _, Some(p)) =>
      p.txId < |s.transactions| && p.requesterBalance == WalletAfter(s.ledger, p.txId, r)
    case _ => true
  }

  predicate EntriesTell(s: CreditState)
    requires |s.ledger| == 2 * |s.transactions|
  {
    forall id | 0 <= id < |s.transactions| ::
      Booked(s, id) && TellsWallet(s.ledger, id, s.ledger[2 * id]) && TellsWallet(s.ledger, id, s.ledger[2 * id + 1])
  }

  predicate Tells(s: CreditState) {
    && |s.ledger| == 2 * |s.transactions| && EntriesTell(s)
    && forall o <- s.terminalOps :: ResultTells(s, s.terminalOps[o])
  }

  // ----- every movement keeps it

  lemma WalletStays(ledger: seq<Entry>, after: seq<Entry>, id: TxId, u: UserId)
    requires ledger <= after && 2 * id + 2 <= |ledger|
    ensures WalletAfter(after, id, u) == WalletAfter(ledger, id, u)
  {
    assert after[..2 * id + 2] == ledger[..2 * id + 2];
  }

  /** What is written stays told while rows are only added. */
  lemma TellsStays(s: CreditState, after: CreditState)
    requires Tells(s) && |after.ledger| == 2 * |after.transactions|
    requires s.transactions <= after.transactions && s.ledger <= after.ledger
    requires forall o <- s.terminalOps :: o in after.terminalOps && after.terminalOps[o] == s.terminalOps[o]
    ensures forall id | 0 <= id < |s.transactions| ::
              && Booked(after, id) && TellsWallet(after.ledger, id, after.ledger[2 * id])
              && TellsWallet(after.ledger, id, after.ledger[2 * id + 1])
    ensures forall o <- s.terminalOps :: ResultTells(after, after.terminalOps[o])
  {
    forall id, u: UserId | 0 <= id < |s.transactions| ensures WalletAfter(after.ledger, id, u) == WalletAfter(s.ledger, id, u) {
      WalletStays(s.ledger, after.ledger, id, u);
    }
    forall id | 0 <= id < |s.transactions|
      ensures && Booked(after, id) && TellsWallet(after.ledger, id, after.ledger[2 * id])
              && TellsWallet(after.ledger, id, after.ledger[2 * id + 1])
    {
      assert Booked(s, id) && TellsWallet(s.ledger, id, s.ledger[2 * id]) && TellsWallet(s.ledger, id, s.ledger[2 * id + 1]);
    }
    forall o | o in s.terminalOps ensures ResultTells(after, after.terminalOps[o]) {
      assert ResultTells(s, s.terminalOps[o]);
    }
  }

  // ----- one more movement

  /** One transaction more, its two entries, and at most one terminal operation. */
  predicate Adds(s: CreditState, after: CreditState) {
    && |s.ledger| == 2 * |s.transactions| && |after.ledger| == 2 * |after.transactions|
    && |after.transactions| == |s.transactions| + 1 && s.transactions <= after.transactions && s.ledger <= after.ledger
    && (forall o <- s.terminalOps :: o in after.terminalOps && after.terminalOps[o] == s.terminalOps[o])
    && Booked(after, |s.transactions|)
  }

  /** An entry carries its user's wallet as it is now. */
  predicate Carries(s: CreditState, e: Entry) {
    if e.wallet.Some? then e.wallet.value in s.wallets && e.resulting == Some(s.wallets[e.wallet.value]) else e.resulting.None?
  }

  predicate ResultCarries(s: CreditState, op: TerminalOperation) {
    match op
    case TransferOperation(r, c, _, Some(p)) =>
      p.txId == |s.transactions| - 1 && r in s.wallets && c in s.wallets
      && p.requesterBalance == s.wallets[r] && p.courierBalance == s.wallets[c]
    case ReleaseOperation(r, _, Some(p)) =>
      p.txId == |s.transactions| - 1 && r in s.wallets && p.requesterBalance == s.wallets[r]
    case _ => true
  }

  predicate NewCarries(s: CreditState, after: CreditState)
    requires Adds(s, after)
  {
    && Carries(after, after.ledger[2 * |s.transactions|]) && Carries(after, after.ledger[2 * |s.transactions| + 1])
    && forall o <- after.terminalOps | o !in s.terminalOps :: ResultCarries(after, after.terminalOps[o])
  }

  /** The sums of the whole ledger are the wallets there are. */
  lemma LastTells(s: CreditState, u: UserId)
    requires Ledgered(s) && |s.ledger| == 2 * |s.transactions| && |s.transactions| > 0 && u in s.wallets
    ensures WalletAfter(s.ledger, |s.transactions| - 1, u) == s.wallets[u]
  {
    assert s.ledger[..2 * (|s.transactions| - 1) + 2] == s.ledger;
    assert AvailableOf(s, u) == LedgerBalance(s.ledger, u, Available);
  }

  lemma AddedTells(s: CreditState, after: CreditState)
    requires Tells(s) && Adds(s, after) && NewCarries(s, after) && Ledgered(after)
    ensures Tells(after)
  {
    TellsStays(s, after);
    var n := |s.transactions|;
    forall u | u in after.wallets ensures WalletAfter(after.ledger, n, u) == after.wallets[u] {
      LastTells(after, u);
    }
    forall id | 0 <= id < |after.transactions|
      ensures && Booked(after, id) && TellsWallet(after.ledger, id, after.ledger[2 * id])
              && TellsWallet(after.ledger, id, after.ledger[2 * id + 1])
    {
      if id < n {
        assert Booked(after, id);
      }
    }
    forall o | o in after.terminalOps ensures ResultTells(after, after.terminalOps[o]) {
      if o !in s.terminalOps {
        assert ResultCarries(after, after.terminalOps[o]);
      }
    }
  }

  /** Operation rows, alerts and replies alone tell nothing new. */
  predicate SameBooks(s: CreditState, after: CreditState) {
    after.transactions == s.transactions && after.ledger == s.ledger && after.terminalOps == s.terminalOps
  }

  lemma SameBooksTell(s: CreditState, after: CreditState)
    requires Tells(s) && SameBooks(s, after)
    ensures Tells(after)
  {
    TellsStays(s, after);
  }

  predicate Carried(s: CreditState, after: CreditState) {
    SameBooks(s, after) || (Adds(s, after) && NewCarries(s, after))
  }

  lemma IssueCarries(s: CreditState, user: UserId, allocation: Allocation)
    requires |s.ledger| == 2 * |s.transactions|
    ensures Carried(s, Apply(s, IssueCmd(user, allocation)))
  {
  }

  lemma ReserveCarries(s: CreditState, input: ReservationInput)
    requires |s.ledger| == 2 * |s.transactions|
    ensures Carried(s, Apply(s, ReserveCmd(input)))
  {
  }

  lemma TransferCarries(s: CreditState, input: TransferInput)
    requires |s.ledger| == 2 * |s.transactions|
    ensures Carried(s, Apply(s, TransferCmd(input)))
  {
  }

  lemma ReleaseCarries(s: CreditState, input: ReleaseInput)
    requires |s.ledger| == 2 * |s.transactions|
    ensures Carried(s, Apply(s, ReleaseCmd(input)))
  {
  }

  lemma ApplyTells(s: CreditState, c: Command)
    requires Inv(s) && Tells(s)
    ensures Inv(Apply(s, c)) && Tells(Apply(s, c))
  {
    Keep.ApplyKeeps(s, c);
    match c {
      case IssueCmd(user, allocation) => IssueCarries(s, user, allocation);
      case ReserveCmd(input) => ReserveCarries(s, input);
      case TransferCmd(input) => TransferCarries(s, input);
      case ReleaseCmd(input) => ReleaseCarries(s, input);
    }
    if SameBooks(s, Apply(s, c)) {
      SameBooksTell(s, Apply(s, c));
    } else {
      AddedTells(s, Apply(s, c));
    }
  }

  lemma {:induction false} RunTells(s: CreditState, commands: seq<Command>)
    requires Inv(s) && Tells(s)
    ensures Inv(Run(s, commands)) && Tells(Run(s, commands))
    decreases |commands|
  {
    if commands != [] {
      ApplyTells(s, commands[0]);
      RunTells(Apply(s, commands[0]), commands[1..]);
    }
  }

  /** What one transaction's entries are, and which of them tell of no wallet. */
  predicate ToldAt(s: CreditState, id: TxId)
    requires id < |s.transactions| && |s.ledger| == 2 * |s.transactions|
  {
    Booked(s, id) && EntryToldAt(s, id, s.ledger[2 * id]) && EntryToldAt(s, id, s.ledger[2 * id + 1])
  }

  predicate EntryToldAt(s: CreditState, id: TxId, e: Entry)
    requires id < |s.transactions| && |s.ledger| == 2 * |s.transactions|
  {
    TellsWallet(s.ledger, id, e) && (e.resulting.None? <==> s.transactions[id].kind.ISSUE? && e.direction.Debit?)
  }

  lemma TellsAt(s: CreditState, id: TxId)
    requires Tells(s) && Posted(s) && id < |s.transactions|
    ensures ToldAt(s, id)
  {
    assert Booked(s, id) && PostedAs(s.transactions[id].amount, id, s.ledger[2 * id], s.ledger[2 * id + 1]);
  }

  /** In every reachable state, each transaction debits and credits the accounts its kind says; each entry of
      a user tells that user's wallet as the ledger's sums give it once its transaction is posted, and only
      the debits of an issue tell none; and so do the balances of every recorded transfer and release. */
  lemma EveryEntryTells(commands: seq<Command>, id: TxId, order: OrderId)
    ensures var s := Run(EMPTY, commands);
            && |s.ledger| == 2 * |s.transactions|
            && (id < |s.transactions| ==> ToldAt(s, id))
            && (order in s.terminalOps ==> ResultTells(s, s.terminalOps[order]))
  {
    assert Inv(EMPTY) && Tells(EMPTY);
    RunTells(EMPTY, commands);
    if id < |Run(EMPTY, commands).transactions| {
      TellsAt(Run(EMPTY, commands), id);
    }
  }
}
