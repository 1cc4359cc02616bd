/** Repair by asking again. Once messages stop being lost and nobody commands anything, one round for
    a waiting errand (read it, ask Credit, send its request again, deliver the request and the
    answer) brings it strictly closer to rest, so any order of rounds ends with nothing waiting. */
module SagaConvergence {
  import opened Wrappers
  import opened CreditTypes
  import opened OrderTypes
  import opened OrderHandlers
  import opened CreditInvariants
  import opened Saga
  import Theorems = SagaTheorems
  import Sums = CreditSums
  import Ledger = CreditLedger
  import Final = CreditFinality
  import Keep = CreditPreservation

  // ----- the measure

  /** How many more of Credit's answers an errand can wait for. */
  function Remaining(status: Status): nat {
    if status.PENDING_CREDIT? then 2
    else if status.COMPLETION_PENDING_CREDIT? || status.RELEASE_PENDING_CREDIT? then 1
    else 0
  }

  ghost function TotalRemaining(orders: map<OrderId, Order>): nat {
    if orders == map[] then 0
    else
      var id :| id in orders;
      Remaining(orders[id].status) + TotalRemaining(orders - {id})
  }

  lemma {:induction false} TotalWithout(orders: map<OrderId, Order>, id: OrderId)
    requires id in orders
    ensures TotalRemaining(orders) == Remaining(orders[id].status) + TotalRemaining(orders - {id})
    decreases |orders|
  {
    var first :| first in orders
      && TotalRemaining(orders) == Remaining(orders[first].status) + TotalRemaining(orders - {first});
    if first != id {
      TotalWithout(orders - {first}, id);
      TotalWithout(orders - {id}, first);
      assert orders - {first} - {id} == orders - {id} - {first};
    }
  }

  lemma TotalMoves(orders: map<OrderId, Order>, id: OrderId, next: Order)
    requires id in orders
    ensures TotalRemaining(orders[id := next]) + Remaining(orders[id].status)
         == TotalRemaining(orders) + Remaining(next.status)
  {
    TotalWithout(orders, id);
    TotalWithout(orders[id := next], id);
    assert orders[id := next] - {id} == orders - {id};
  }

  // ----- one round

  /** Everyone taking part has a wallet, and no column can overflow. */
  ghost predicate Ready(w: World) {
    && Final.Fits(w.credit)
    && forall id <- w.order.orders ::
         w.order.orders[id].requester in w.credit.wallets
         && (w.order.orders[id].courier.Some? ==> w.order.orders[id].courier.value in w.credit.wallets)
  }

  predicate Waits(w: World, id: OrderId) { id in w.order.orders && WaitsOnCredit(w.order.orders[id].status) }

  function Seen(w: World, id: OrderId): Candidate
    requires id in w.order.orders
  {
    Candidate(id, w.order.orders[id].status, w.order.orders[id].version)
  }

  function RoundSteps(w: World, id: OrderId, suspended: bool): seq<Step>
    requires Waits(w, id)
  {
    var asked := Look(Seen(w, id), Some(Ledger.OrderStatus(w.credit, id).0));
    [Observe(id), AskCredit(Look(Seen(w, id), None)), RecordLook(asked),
     CreditReceives(|w.order.outbox|), OrderReceives(|w.credit.outbox|, suspended)]
  }

  /** Credit's answer to the request a waiting errand waits on: exactly one genuine reply. */
  ghost predicate Answers(c: CreditState, after: CreditState, id: OrderId) {
    && |after.outbox| == |c.outbox| + 1 && ReplyOk(after, after.outbox[|c.outbox|])
    && ReplyOrder(after.outbox[|c.outbox|]) == id
    && after.wallets.Keys == c.wallets.Keys && Final.Fits(after)
  }

  lemma IssuedStays(s: CreditState, t: Transaction)
    requires !t.kind.ISSUE?
    ensures Sums.Issued(s.transactions + [t]) == Sums.Issued(s.transactions)
  {
    Sums.IssuedAppend(s.transactions, t);
  }

  lemma ReserveSends(c: CreditState, input: ReservationInput)
    requires Ledger.Reserve(c, input).Done?
    ensures var a := Ledger.Reserve(c, input);
            && a.after.outbox == c.outbox + [Ledger.ReplyTo(input, a.result)]
            && a.after.wallets.Keys == c.wallets.Keys
            && (a.after.transactions == c.transactions
                || a.after.transactions
                   == c.transactions + [Transaction(Some(input.order), RESERVE, input.requester, input.amount)])
  {
  }

  lemma ReservationAnswered(w: World, id: OrderId)
    requires SagaInv(w) && Ready(w) && id in w.order.orders && w.order.orders[id].status.PENDING_CREDIT?
    ensures var o := w.order.orders[id];
            var after := Ledger.Apply(w.credit, Ledger.ReserveCmd(ReservationInput(id, o.requester, o.reward)));
            Answers(w.credit, after, id)
            && (after.outbox[|w.credit.outbox|].CreditsReserved? || after.outbox[|w.credit.outbox|].ReservationRejected?)
  {
    var o := w.order.orders[id];
    var input := ReservationInput(id, o.requester, o.reward);
    assert OrderOk(o, Reservation(w.credit, id), Terminal(w.credit, id));
    Final.ReserveFailsOnlyUnready(w.credit, input);
    ReservationReplies(w.credit, input);
    ReserveSends(w.credit, input);
    IssuedStays(w.credit, Transaction(Some(id), RESERVE, o.requester, o.reward));
  }

  lemma CompletionAnswered(w: World, id: OrderId)
    requires SagaInv(w) && Ready(w) && id in w.order.orders && w.order.orders[id].status.COMPLETION_PENDING_CREDIT?
    ensures w.order.orders[id].courier.Some?
    ensures var o := w.order.orders[id];
            var after := Ledger.Apply(w.credit, Ledger.TransferCmd(TransferInput(id, o.requester, o.courier.value, o.reward)));
            Answers(w.credit, after, id) && after.outbox[|w.credit.outbox|].CreditsTransferred?
  {
    var o := w.order.orders[id];
    assert OrderOk(o, Reservation(w.credit, id), Terminal(w.credit, id));
    Theorems.CompletionWelcome(w, TransferInput(id, o.requester, o.courier.value, o.reward));
    CompletionAgrees(w.credit, id, o);
    IssuedStays(w.credit, Transaction(Some(id), TRANSFER, o.requester, o.reward));
  }

  lemma ReleaseAnswered(w: World, id: OrderId)
    requires SagaInv(w) && Ready(w) && id in w.order.orders && w.order.orders[id].status.RELEASE_PENDING_CREDIT?
    ensures var o := w.order.orders[id];
            var after := Ledger.Apply(w.credit, Ledger.ReleaseCmd(ReleaseInput(id, o.requester, o.reward)));
            Answers(w.credit, after, id) && after.outbox[|w.credit.outbox|].CreditsReleased?
  {
    var o := w.order.orders[id];
    assert OrderOk(o, Reservation(w.credit, id), Terminal(w.credit, id));
    Theorems.ReleaseWelcome(w, ReleaseInput(id, o.requester, o.reward));
    ReleaseAgrees(w.credit, id, o);
    IssuedStays(w.credit, Transaction(Some(id), RELEASE, o.requester, o.reward));
  }

  lemma RequestAnswered(w: World, id: OrderId)
    requires SagaInv(w) && Ready(w) && Waits(w, id)
    ensures CreditRequest(id, w.order.orders[id]).Some?
    ensures var request := CreditRequest(id, w.order.orders[id]).value;
            var after := Ledger.Apply(w.credit, CommandOf(request));
            && RequestOk(w.order.orders, request) && request.order == id
            && Answers(w.credit, after, id)
            && match w.order.orders[id].status
               case PENDING_CREDIT => after.outbox[|w.credit.outbox|].CreditsReserved?
                                      || after.outbox[|w.credit.outbox|].ReservationRejected?
               case COMPLETION_PENDING_CREDIT => after.outbox[|w.credit.outbox|].CreditsTransferred?
               case _ => after.outbox[|w.credit.outbox|].CreditsReleased?
  {
    assert OrderOk(w.order.orders[id], Reservation(w.credit, id), Terminal(w.credit, id));
    match w.order.orders[id].status
    case PENDING_CREDIT => ReservationAnswered(w, id);
    case COMPLETION_PENDING_CREDIT => CompletionAnswered(w, id);
    case RELEASE_PENDING_CREDIT => ReleaseAnswered(w, id);
  }

  /** Credit's answer moves a waiting errand on, whatever the User Service says of its requester. */
  lemma AnswerMoves(s: OrderState, id: OrderId, r: Option<ReserveOperation>, t: Option<TerminalOperation>,
                    reply: Reply, suspended: bool)
    requires id in s.orders && WaitsOnCredit(s.orders[id].status) && ReplyOrder(reply) == id
    requires var (h, after) := HandleReply(s, reply, suspended); Quiet(h) && Moves(s, after, id, r, t)
    requires match s.orders[id].status
             case PENDING_CREDIT => reply.CreditsReserved? || reply.ReservationRejected?
             case COMPLETION_PENDING_CREDIT => reply.CreditsTransferred?
             case _ => reply.CreditsReleased?
    requires OrderOk(s.orders[id], r, t)
    ensures var after := HandleReply(s, reply, suspended).1;
            && id in after.orders && after.orders == s.orders[id := after.orders[id]]
            && Remaining(after.orders[id].status) < Remaining(s.orders[id].status)
            && after.orders[id].requester == s.orders[id].requester
            && (after.orders[id].courier.None? || after.orders[id].courier == s.orders[id].courier)
  {
  }

  /** What one round leaves behind. */
  ghost predicate Progress(w: World, after: World, id: OrderId)
    requires Waits(w, id)
  {
    && SagaInv(after) && Ready(after)
    && id in after.order.orders && after.order.orders == w.order.orders[id := after.order.orders[id]]
    && Remaining(after.order.orders[id].status) < Remaining(w.order.orders[id].status)
    && TotalRemaining(after.order.orders) < TotalRemaining(w.order.orders)
  }

  lemma FiveSteps(w: World, s0: Step, s1: Step, s2: Step, s3: Step, s4: Step)
    requires Enabled(w, s0)
    requires Enabled(Next(w, s0), s1)
    requires Enabled(Next(Next(w, s0), s1), s2)
    requires Enabled(Next(Next(Next(w, s0), s1), s2), s3)
    requires Enabled(Next(Next(Next(Next(w, s0), s1), s2), s3), s4)
    ensures Runs(w, [s0, s1, s2, s3, s4])
    ensures End(w, [s0, s1, s2, s3, s4]) == Next(Next(Next(Next(Next(w, s0), s1), s2), s3), s4)
  {
    var w1 := Next(w, s0);
    var w2 := Next(w1, s1);
    var w3 := Next(w2, s2);
    RunsCons(Next(w3, s3), s4, []);
    RunsCons(w3, s3, [s4] + []);
    RunsCons(w2, s2, [s3] + ([s4] + []));
    RunsCons(w1, s1, [s2] + ([s3] + ([s4] + [])));
    RunsCons(w, s0, [s1] + ([s2] + ([s3] + ([s4] + []))));
    assert [s0, s1, s2, s3, s4] == [s0] + ([s1] + ([s2] + ([s3] + ([s4] + []))));
  }

  /** What Credit says of a waiting errand always calls for its request to be sent again. */
  lemma DecidesToReissue(w: World, id: OrderId)
    requires SagaInv(w) && Waits(w, id)
    ensures ReconciliationDecision(w.order.orders[id].status, Ledger.OrderStatus(w.credit, id).0) == REISSUE
  {
    assert OrderOk(w.order.orders[id], Reservation(w.credit, id), Terminal(w.credit, id));
    if id in w.credit.reserveOps {
      assert ReserveLinked(w.credit, id);
    }
  }

  /** Reading the errand and Credit's record of it leads to its request being sent again. */
  lemma Reissues(w: World, id: OrderId)
    requires Waits(w, id) && CreditRequest(id, w.order.orders[id]).Some?
    requires ReconciliationDecision(w.order.orders[id].status, Ledger.OrderStatus(w.credit, id).0) == REISSUE
    ensures var steps := RoundSteps(w, id, false);
            && Enabled(w, steps[0]) && Enabled(Next(w, steps[0]), steps[1])
            && var w2 := Next(Next(w, steps[0]), steps[1]);
               && Enabled(w2, steps[2])
               && Next(w2, steps[2]).credit == w.credit
               && Next(w2, steps[2]).order
                  == w.order.(outbox := w.order.outbox + [CreditRequest(id, w.order.orders[id]).value])
  {
  }

  /** The request then reaches Credit, and its answer reaches Order. */
  lemma RoundPath(w: World, id: OrderId, suspended: bool)
    requires SagaInv(w) && Waits(w, id)
    requires CreditRequest(id, w.order.orders[id]).Some?
    requires var c := Ledger.Apply(w.credit, CommandOf(CreditRequest(id, w.order.orders[id]).value));
             |c.outbox| > |w.credit.outbox|
    ensures var request := CreditRequest(id, w.order.orders[id]).value;
            var c := Ledger.Apply(w.credit, CommandOf(request));
            var s := w.order.(outbox := w.order.outbox + [request]);
            && Runs(w, RoundSteps(w, id, suspended))
            && End(w, RoundSteps(w, id, suspended)).order == HandleReply(s, c.outbox[|w.credit.outbox|], suspended).1
            && End(w, RoundSteps(w, id, suspended)).credit == c
  {
    DecidesToReissue(w, id);
    Reissues(w, id);
    var steps := RoundSteps(w, id, suspended);
    FiveSteps(w, steps[0], steps[1], steps[2], steps[3], steps[4]);
  }

  lemma MovesOn(w: World, id: OrderId, suspended: bool)
    requires SagaInv(w) && Ready(w) && Waits(w, id)
    ensures CreditRequest(id, w.order.orders[id]).Some?
    ensures var request := CreditRequest(id, w.order.orders[id]).value;
            var c := Ledger.Apply(w.credit, CommandOf(request));
            && Answers(w.credit, c, id)
            && var o := HandleReply(w.order.(outbox := w.order.outbox + [request]), c.outbox[|w.credit.outbox|], suspended).1;
               && id in o.orders && o.orders == w.order.orders[id := o.orders[id]]
               && Remaining(o.orders[id].status) < Remaining(w.order.orders[id].status)
               && o.orders[id].requester == w.order.orders[id].requester
               && (o.orders[id].courier.None? || o.orders[id].courier == w.order.orders[id].courier)
  {
    RequestAnswered(w, id);
    var request := CreditRequest(id, w.order.orders[id]).value;
    var c := Ledger.Apply(w.credit, CommandOf(request));
    var s := w.order.(outbox := w.order.outbox + [request]);
    var reply := c.outbox[|w.credit.outbox|];
    RequestServed(w, request);
    CreditLinked(w.credit, CommandOf(request));
    ReplyMoves(c, s, reply, suspended);
    AnswerMoves(s, id, Reservation(c, id), Terminal(c, id), reply, suspended);
  }

  lemma CreditLinked(c: CreditState, command: Ledger.Command)
    requires Inv(c)
    ensures Linked(Ledger.Apply(c, command))
  {
    Keep.ApplyKeeps(c, command);
  }

  /** Every round, for any waiting errand and any answer about its requester, makes progress. */
  lemma RoundProgresses(w: World, id: OrderId, suspended: bool)
    requires SagaInv(w) && Ready(w) && Waits(w, id)
    ensures Runs(w, RoundSteps(w, id, suspended))
    ensures Progress(w, End(w, RoundSteps(w, id, suspended)), id)
  {
    MovesOn(w, id, suspended);
    RoundPath(w, id, suspended);
    RunKeeps(w, RoundSteps(w, id, suspended));
    TotalMoves(w.order.orders, id, End(w, RoundSteps(w, id, suspended)).order.orders[id]);
  }

  /** Nothing is awaited, credits moved at most once each way, and Credit recorded exactly what the
      agreement table asks (a disputed errand, which it leaves out, still holds its reservation). */
  predicate AtRest(w: World, id: OrderId)
    requires id in w.order.orders
  {
    && !Waits(w, id)
    && Reserves(w.credit.transactions, id) <= 1 && Terminals(w.credit.transactions, id) <= 1
    && var kinds := Theorems.TransactionsFor(w.credit.transactions, id);
       if w.order.orders[id].status.DISPUTED? then kinds == [RESERVE]
       else kinds in Theorems.Expected(w.order.orders[id].status)
  }

  /** Errands at rest stay as they were, and no errand appears or disappears. */
  predicate RestUntouched(w: World, after: World) {
    && after.order.orders.Keys == w.order.orders.Keys
    && forall id <- w.order.orders | !Waits(w, id) :: after.order.orders[id] == w.order.orders[id]
  }

  lemma ProgressLeavesRest(w: World, next: World, id: OrderId, after: World)
    requires Waits(w, id) && id in next.order.orders && next.order.orders == w.order.orders[id := next.order.orders[id]]
    requires RestUntouched(next, after)
    ensures RestUntouched(w, after)
  {
    forall k | k in w.order.orders && !Waits(w, k) ensures after.order.orders[k] == w.order.orders[k] {
      assert next.order.orders[k] == w.order.orders[k] && !Waits(next, k);
    }
  }

  /** From any reachable state, rounds settle every errand: nothing waits, Order and Credit agree
      exactly, and no errand's credits moved twice. `suspended` answers for each requester. */
  lemma {:induction false} Converges(w: World, suspended: UserId -> bool) returns (steps: seq<Step>)
    requires SagaInv(w) && Ready(w)
    ensures Runs(w, steps) && |steps| <= 5 * TotalRemaining(w.order.orders)
    ensures SagaInv(End(w, steps)) && RestUntouched(w, End(w, steps))
    ensures forall id <- End(w, steps).order.orders :: AtRest(End(w, steps), id)
    decreases TotalRemaining(w.order.orders)
  {
    if id :| id in w.order.orders && Waits(w, id) {
      var answer := suspended(w.order.orders[id].requester);
      var round := RoundSteps(w, id, answer);
      RoundProgresses(w, id, answer);
      var next := End(w, round);
      var rest := Converges(next, suspended);
      RunsAppend(w, round, rest);
      ProgressLeavesRest(w, next, id, End(next, rest));
      steps := round + rest;
    } else {
      steps := [];
      forall id | id in w.order.orders ensures AtRest(w, id) {
        OutcomeCounts(w.credit, id);
        Theorems.Agreement(w, id);
      }
    }
  }
}
