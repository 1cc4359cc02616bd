/** The two services with Credit's transactions interleaved statement by statement under row locks. Every
    message may be in any number of Credit's transactions at once, which may stop at any statement and be
    delivered again. Whatever they commit, some run of whole movements has the same tables and messages. */
module SagaConcurrency {
  import opened Wrappers
  import opened CreditTypes
  import opened OrderTypes
  import opened OrderHandlers
  import opened CreditInvariants
  import Ledger = CreditLedger
  import Bank = CreditConcurrency
  import Whole = Saga
  import Theorems = SagaTheorems

  datatype World = World(order: OrderState, bank: Bank.World, looks: set<Whole.Look>)

  const START := World(OrderState(map[], [], map[], {}), Bank.START, {})

  /** Order's side moves in whole steps of its own; a message is delivered to a new transaction of Credit,
      which then executes, commits or aborts. */
  datatype Step =
    | Ours(ours: Whole.Step)
    | Deliver(t: Bank.TxnId, message: nat)
    | Theirs(theirs: Bank.Step)

  /** What whole movements see: the committed tables. */
  function Committed(w: World): Whole.World { Whole.World(w.order, w.bank.db, w.looks) }

  predicate IsOurs(step: Whole.Step) { !step.CreditReceives? && !step.CreditDeniesLate? }

  predicate Enabled(w: World, step: Step) {
    match step
    case Ours(step) => IsOurs(step) && Whole.Enabled(Committed(w), step)
    case Deliver(t, i) =>
      i < |w.order.outbox| && Bank.Enabled(w.bank, Bank.Begin(t, Whole.CommandOf(w.order.outbox[i])))
    case Theirs(step) => !step.Begin? && Bank.Enabled(w.bank, step)
  }

  function Next(w: World, step: Step): World
    requires Enabled(w, step)
  {
    match step
    case Ours(step) =>
      var next := Whole.Next(Committed(w), step);
      World(next.order, w.bank.(db := next.credit), next.looks)
    case Deliver(t, i) => w.(bank := Bank.Next(w.bank, Bank.Begin(t, Whole.CommandOf(w.order.outbox[i]))))
    case Theirs(step) => w.(bank := Bank.Next(w.bank, step))
  }

  predicate Runs(w: World, steps: seq<Step>)
    decreases |steps|
  {
    steps == [] || (Enabled(w, steps[0]) && Runs(Next(w, steps[0]), steps[1..]))
  }

  function End(w: World, steps: seq<Step>): World
    requires Runs(w, steps)
    decreases |steps|
  {
    if steps == [] then w else End(Next(w, steps[0]), steps[1..])
  }

  // ----- every transaction carries a message

  predicate Sent(outbox: seq<Request>, command: Ledger.Command) {
    exists i :: 0 <= i < |outbox| && Whole.CommandOf(outbox[i]) == command
  }

  ghost predicate Good(w: World) {
    Bank.LocksInv(w.bank) && forall t <- w.bank.txns :: Sent(w.order.outbox, Bank.CommandOf(w.bank.txns[t]))
  }

  lemma StillSent(outbox: seq<Request>, after: seq<Request>, command: Ledger.Command)
    requires outbox <= after && Sent(outbox, command)
    ensures Sent(after, command)
  {
    var i :| 0 <= i < |outbox| && Whole.CommandOf(outbox[i]) == command;
    assert Whole.CommandOf(after[i]) == command;
  }

  /** Order sends more and unsends nothing; of Credit's tables it changes none. */
  lemma OursGrows(w: Whole.World, step: Whole.Step)
    requires IsOurs(step) && Whole.Enabled(w, step)
    ensures w.order.outbox <= Whole.Next(w, step).order.outbox
    ensures Whole.Next(w, step).credit
         == if step.Activate? then Ledger.Apply(w.credit, Ledger.IssueCmd(step.user, step.allocation)) else w.credit
  {
  }

  lemma ExecuteCarriesOn(w: Bank.World, t: Bank.TxnId)
    requires Bank.Enabled(w, Bank.Execute(t))
    ensures Bank.CommandOf(Bank.Next(w, Bank.Execute(t)).txns[t]) == Bank.CommandOf(w.txns[t])
  {
  }

  lemma OursKeeps(w: World, step: Whole.Step)
    requires Good(w) && Enabled(w, Ours(step))
    ensures Good(Next(w, Ours(step)))
  {
    var next := Next(w, Ours(step));
    OursGrows(Committed(w), step);
    if step.Activate? {
      Bank.IssueKeeps(w.bank, step.user, step.allocation);
    }
    forall t <- next.bank.txns ensures Sent(next.order.outbox, Bank.CommandOf(next.bank.txns[t])) {
      StillSent(w.order.outbox, next.order.outbox, Bank.CommandOf(w.bank.txns[t]));
    }
  }

  lemma StepKeeps(w: World, step: Step)
    requires Good(w) && Enabled(w, step)
    ensures Good(Next(w, step))
  {
    match step
    case Ours(step) => OursKeeps(w, step);
    case Deliver(t, i) => Bank.StepKeeps(w.bank, Bank.Begin(t, Whole.CommandOf(w.order.outbox[i])));
    case Theirs(step) =>
      Bank.StepKeeps(w.bank, step);
      if step.Execute? {
        ExecuteCarriesOn(w.bank, step.t);
      }
  }

  // ----- what whole movements do of it

  /** At most one whole step leads between the same tables and messages. */
  predicate Matches(w: Whole.World, after: Whole.World, step: Option<Whole.Step>) {
    if step.None? then after == w else Whole.Enabled(w, step.value) && Whole.Next(w, step.value) == after
  }

  /** What a transaction serially does is one whole movement of the message it carries, or its late denial. */
  lemma SerialMatches(w: Whole.World, after: CreditState, i: nat) returns (step: Whole.Step)
    requires i < |w.order.outbox| && Bank.Serial(w.credit, after, Whole.CommandOf(w.order.outbox[i]))
    ensures Matches(w, w.(credit := after), Some(step))
  {
    var command := Whole.CommandOf(w.order.outbox[i]);
    if after == Ledger.Apply(w.credit, command) {
      step := Whole.CreditReceives(i);
    } else {
      var seen: int :| after == Ledger.Record(w.credit, command.reservation, Ledger.Short(seen));
      step := Whole.CreditDeniesLate(i, seen);
    }
  }

  lemma CommitMatches(w: World, t: Bank.TxnId) returns (step: Whole.Step)
    requires Good(w) && Enabled(w, Theirs(Bank.Commit(t)))
    ensures Matches(Committed(w), Committed(w).(credit := Bank.Next(w.bank, Bank.Commit(t)).db), Some(step))
  {
    Bank.CommitKeeps(w.bank, t);
    var i :| 0 <= i < |w.order.outbox| && Whole.CommandOf(w.order.outbox[i]) == Bank.CommandOf(w.bank.txns[t]);
    step := SerialMatches(Committed(w), Bank.Next(w.bank, Bank.Commit(t)).db, i);
  }

  lemma StepMatches(w: World, step: Step) returns (whole: Option<Whole.Step>)
    requires Good(w) && Enabled(w, step)
    ensures Matches(Committed(w), Committed(Next(w, step)), whole)
  {
    match step
    case Ours(step) => whole := Some(step);
    case Deliver(_, _) => whole := None;
    case Theirs(step) =>
      if step.Commit? {
        var one := CommitMatches(w, step.t);
        whole := Some(one);
      } else {
        whole := None;
      }
  }

  lemma {:induction false} RunMatches(w: World, steps: seq<Step>) returns (whole: seq<Whole.Step>)
    requires Good(w) && Runs(w, steps)
    ensures |whole| <= |steps|
    ensures Whole.Runs(Committed(w), whole) && Whole.End(Committed(w), whole) == Committed(End(w, steps))
    ensures Good(End(w, steps))
    decreases |steps|
  {
    if steps == [] {
      whole := [];
    } else {
      StepKeeps(w, steps[0]);
      var first := StepMatches(w, steps[0]);
      whole := RunMatches(Next(w, steps[0]), steps[1..]);
      if first.Some? {
        Whole.RunsCons(Committed(w), first.value, whole);
        whole := [first.value] + whole;
      }
    }
  }

  /** Refinement: from the beginning, every interleaving of statements, deliveries and Order's steps leaves
      the tables and messages of some run of whole movements. */
  lemma EveryInterleavingIsARun(steps: seq<Step>)
    requires Runs(START, steps)
    ensures exists whole :: Whole.Runs(Whole.START, whole) && Whole.End(Whole.START, whole) == Committed(End(START, steps))
    ensures Bank.LocksInv(End(START, steps).bank)
  {
    assert Inv(EMPTY) && Good(START);
    var whole := RunMatches(START, steps);
  }

  /** So in every interleaving the two services agree about every errand, no reply is set aside, nothing is
      alerted, the economy is closed and no transactions wait for one another in a ring. */
  lemma EveryInterleavingAgrees(steps: seq<Step>, id: OrderId, i: nat, suspended: bool, ring: seq<Bank.TxnId>)
    requires Runs(START, steps)
    ensures var w := End(START, steps);
            && (id in w.order.orders ==>
                  var kinds, status := Theorems.TransactionsFor(w.bank.db.transactions, id), w.order.orders[id].status;
                  && (kinds in Theorems.Expected(status) <==> !status.DISPUTED?)
                  && (status.DISPUTED? ==> kinds == [RESERVE]))
            && w.bank.db.alerts == [] && w.order.conflicts == {}
            && (i < |w.bank.db.outbox| ==> Whole.Quiet(HandleReply(w.order, w.bank.db.outbox[i], suspended).0))
            && ClosedEconomy(w.bank.db)
            && (|ring| >= 2 && Bank.Chain(w.bank, ring) ==> ring[0] != ring[|ring| - 1])
  {
    var w := End(START, steps);
    EveryInterleavingIsARun(steps);
    var whole :| Whole.Runs(Whole.START, whole) && Whole.End(Whole.START, whole) == Committed(w);
    if id in w.order.orders {
      Theorems.EveryRunAgrees(whole, id);
    }
    Theorems.NoFalseAlarm(whole, i, suspended);
    InvariantClosesEconomy(w.bank.db);
    if |ring| >= 2 && Bank.Chain(w.bank, ring) {
      Bank.NoDeadlock(w.bank, ring);
    }
  }
}
