/** Repair amid disorder. Once nobody commands anything, every step of the two services, be it a repeated or
    late delivery of any message or any read of a reconciler, leaves each errand alone or brings it closer
    to rest. While an errand waits there is a step that helps it, and however such steps are mixed with
    others, only so many can be taken before nothing waits. */
module SagaRepair {
  import opened Wrappers
  import opened CreditTypes
  import opened OrderTypes
  import opened OrderHandlers
  import opened CreditInvariants
  import opened Saga
  import opened SagaConvergence
  import Theorems = SagaTheorems
  import Sums = CreditSums
  import Ledger = CreditLedger
  import Life = OrderTransitions

  /** Where the two outboxes stood when messages stopped being lost; only later ones are counted on. */
  datatype Since = Since(requests: nat, replies: nat)

  /** Neither a person nor a timer acts, and no wallet is issued. */
  predicate IsQuiet(step: Step) { !step.Activate? && !step.Post? && !step.TakeErrand? && !step.Act? }

  // ----- how far an errand is from rest

  predicate Fitting(status: Status, reply: Reply) {
    match status
    case PENDING_CREDIT => reply.CreditsReserved? || reply.ReservationRejected?
    case COMPLETION_PENDING_CREDIT => reply.CreditsTransferred?
    case RELEASE_PENDING_CREDIT => reply.CreditsReleased?
    case _ => false
  }

  predicate IsAnswer(w: World, id: OrderId, since: Since, j: nat)
    requires id in w.order.orders
  {
    since.replies <= j < |w.credit.outbox| && ReplyOrder(w.credit.outbox[j]) == id
    && Fitting(w.order.orders[id].status, w.credit.outbox[j])
  }

  predicate IsRequest(w: World, id: OrderId, since: Since, i: nat)
    requires id in w.order.orders
  {
    since.requests <= i < |w.order.outbox| && CreditRequest(id, w.order.orders[id]) == Some(w.order.outbox[i])
  }

  predicate IsLook(w: World, id: OrderId, asked: bool, look: Look)
    requires id in w.order.orders
  {
    look in w.looks && look.seen == Seen(w, id)
    && (asked ==> look.credit.Some?)
  }

  /** How many of the five steps of a round are still to be taken for a waiting errand. */
  ghost function StepsLeft(w: World, id: OrderId, since: Since): nat
    requires id in w.order.orders
  {
    if exists j :: IsAnswer(w, id, since, j) then 1
    else if exists i :: IsRequest(w, id, since, i) then 2
    else if exists look :: IsLook(w, id, true, look) then 3
    else if exists look :: IsLook(w, id, false, look) then 4
    else 5
  }

  ghost function Left(w: World, id: OrderId, since: Since): nat
    requires id in w.order.orders
  {
    if Waits(w, id) then 5 * (Remaining(w.order.orders[id].status) - 1) + StepsLeft(w, id, since) else 0
  }

  /** The step that helps a waiting errand next. */
  ghost predicate Helps(w: World, step: Step, id: OrderId, since: Since) {
    && Waits(w, id)
    && match step
       case OrderReceives(j, _) => StepsLeft(w, id, since) == 1 && IsAnswer(w, id, since, j)
       case CreditReceives(i) => StepsLeft(w, id, since) == 2 && IsRequest(w, id, since, i)
       case RecordLook(look) => StepsLeft(w, id, since) == 3 && IsLook(w, id, true, look)
       case AskCredit(look) => StepsLeft(w, id, since) == 4 && IsLook(w, id, false, look)
       case Observe(k) => StepsLeft(w, id, since) == 5 && k == id
       case _ => false
  }

  ghost predicate Helpful(w: World, step: Step, since: Since) { exists id :: Helps(w, step, id, since) }

  ghost predicate Good(w: World, since: Since) {
    SagaInv(w) && Ready(w) && since.requests <= |w.order.outbox| && since.replies <= |w.credit.outbox|
  }

  lemma SomethingHelps(w: World, id: OrderId, since: Since) returns (step: Step)
    requires Waits(w, id)
    ensures Helps(w, step, id, since) && Enabled(w, step) && IsQuiet(step)
  {
    if exists j :: IsAnswer(w, id, since, j) {
      var j :| IsAnswer(w, id, since, j);
      step := OrderReceives(j, false);
    } else if exists i :: IsRequest(w, id, since, i) {
      var i :| IsRequest(w, id, since, i);
      step := CreditReceives(i);
    } else if exists look :: IsLook(w, id, true, look) {
      var look :| IsLook(w, id, true, look);
      step := RecordLook(look);
    } else if exists look :: IsLook(w, id, false, look) {
      var look :| IsLook(w, id, false, look);
      step := AskCredit(look);
    } else {
      step := Observe(id);
    }
  }

  // ----- no quiet step takes an errand further from rest

  /** The errand is as it was, or it waited and has moved on. */
  predicate Nearer(o: Order, next: Order) {
    next == o
    || (WaitsOnCredit(o.status) && Remaining(next.status) < Remaining(o.status)
        && next.requester == o.requester && next.courier == o.courier)
  }

  lemma CreditMovesNearer(o: Order, action: Action, facts: Facts, patch: Patch)
    requires Decide(o.status, action, CreditActor, facts, o.releaseReason).Some?
    ensures Nearer(o, Patched(Moved(o, action, Decide(o.status, action, CreditActor, facts, o.releaseReason).value), patch))
  {
    Life.CreditMovesExactlyWhatWaits(o.status, action, CreditActor, facts, o.releaseReason);
  }

  predicate AllNearer(s: OrderState, after: OrderState) {
    && after.orders.Keys == s.orders.Keys && s.outbox <= after.outbox
    && forall id <- s.orders :: Nearer(s.orders[id], after.orders[id])
  }

  lemma CreditTransitionNearer(s: OrderState, id: OrderId, action: Action, facts: Facts, patch: Patch)
    ensures var t := Transition(s, id, CreditService, action, facts, None, patch); t.Applied? ==> AllNearer(s, t.after)
  {
    var t := Transition(s, id, CreditService, action, facts, None, patch);
    if t.Applied? {
      CreditMovesNearer(s.orders[id], action, facts, patch);
    }
  }

  /** Whatever reply arrives, genuine or not, no errand is taken further from rest. */
  lemma ReplyNearer(s: OrderState, reply: Reply, suspended: bool)
    ensures AllNearer(s, HandleReply(s, reply, suspended).1)
  {
    match reply
    case CreditsReserved(id, requester, amount) =>
      if NamesOrder(s, id, requester, amount) {
        var facts := NO_FACTS.(requesterSuspended := s.orders[id].status.PENDING_CREDIT? && suspended);
        CreditTransitionNearer(s, id, CREDIT_RESERVED, facts, NoPatch);
      }
    case ReservationRejected(id, requester, amount, reason, available) =>
      CreditTransitionNearer(s, id, CREDIT_REJECTED, NO_FACTS, WithRejection(reason, available));
    case CreditsTransferred(paid) =>
      CreditTransitionNearer(s, paid.order, TRANSFER_CONFIRMED, NO_FACTS, WithTransaction(paid.txId));
    case CreditsReleased(returned) =>
      CreditTransitionNearer(s, returned.order, RELEASE_CONFIRMED, NO_FACTS, WithTransaction(returned.txId));
  }

  /** A movement issues nothing and removes no wallet and no message. */
  predicate Grows(c: CreditState, after: CreditState) {
    c.outbox <= after.outbox && c.wallets.Keys <= after.wallets.Keys
    && Sums.Issued(after.transactions) == Sums.Issued(c.transactions)
  }

  lemma MovementGrows(c: CreditState, m: Request)
    ensures Grows(c, Ledger.Apply(c, CommandOf(m)))
  {
    var after := Ledger.Apply(c, CommandOf(m));
    if after.transactions != c.transactions {
      IssuedStays(c, after.transactions[|c.transactions|]);
      assert after.transactions == c.transactions + [after.transactions[|c.transactions|]];
    }
  }

  /** What every quiet step does. */
  predicate Onward(w: World, after: World) {
    AllNearer(w.order, after.order) && Grows(w.credit, after.credit) && w.looks <= after.looks
  }

  lemma QuietOnward(w: World, step: Step)
    requires Enabled(w, step) && IsQuiet(step)
    ensures Onward(w, Next(w, step))
  {
    match step
    case CreditReceives(i) => MovementGrows(w.credit, w.order.outbox[i]);
    case OrderReceives(i, suspended) => ReplyNearer(w.order, w.credit.outbox[i], suspended);
    case CreditDeniesLate(_, _) =>
    case Observe(_) =>
    case AskCredit(_) =>
    case RecordLook(_) =>
  }

  lemma OnwardLeavesLess(w: World, after: World, id: OrderId, since: Since)
    requires Onward(w, after) && id in w.order.orders
    ensures Left(after, id, since) <= Left(w, id, since)
    ensures after.order.orders[id] != w.order.orders[id] ==> Left(after, id, since) < Left(w, id, since)
  {
    if Waits(w, id) && after.order.orders[id] == w.order.orders[id] {
      if j :| IsAnswer(w, id, since, j) {
        assert IsAnswer(after, id, since, j);
      } else if i :| IsRequest(w, id, since, i) {
        assert IsRequest(after, id, since, i);
      } else if look :| IsLook(w, id, true, look) {
        assert IsLook(after, id, true, look);
      } else if look :| IsLook(w, id, false, look) {
        assert IsLook(after, id, false, look);
      }
    }
  }

  lemma QuietKeeps(w: World, step: Step, since: Since)
    requires Good(w, since) && Enabled(w, step) && IsQuiet(step)
    ensures Good(Next(w, step), since)
  {
    StepKeeps(w, step);
    QuietOnward(w, step);
    var after := Next(w, step);
    forall id <- after.order.orders
      ensures after.order.orders[id].requester in after.credit.wallets
      ensures after.order.orders[id].courier.Some? ==> after.order.orders[id].courier.value in after.credit.wallets
    {
      assert Nearer(w.order.orders[id], after.order.orders[id]);
    }
  }

  // ----- and one that helps brings it closer

  lemma RequestHelps(w: World, i: nat, id: OrderId, since: Since)
    requires Good(w, since) && Helps(w, CreditReceives(i), id, since)
    ensures Left(Next(w, CreditReceives(i)), id, since) < Left(w, id, since)
  {
    var after := Next(w, CreditReceives(i));
    RequestAnswered(w, id);
    assert IsAnswer(after, id, since, |w.credit.outbox|);
  }

  /** An answer that fits moves the errand, however late it comes. */
  lemma ReplyLands(w: World, j: nat, suspended: bool, id: OrderId)
    requires SagaInv(w) && Waits(w, id) && j < |w.credit.outbox| && ReplyOrder(w.credit.outbox[j]) == id
    requires Fitting(w.order.orders[id].status, w.credit.outbox[j])
    ensures var after := HandleReply(w.order, w.credit.outbox[j], suspended).1;
            id in after.orders && after.orders[id] != w.order.orders[id]
  {
    var reply, r, t := w.credit.outbox[j], Reservation(w.credit, id), Terminal(w.credit, id);
    assert ReplyOk(w.credit, reply) && OrderOk(w.order.orders[id], r, t);
    ReplyMoves(w.credit, w.order, reply, suspended);
    AnswerMoves(w.order, id, r, t, reply, suspended);
  }

  lemma RecordHelps(w: World, look: Look, id: OrderId, since: Since)
    requires Good(w, since) && Helps(w, RecordLook(look), id, since)
    ensures Enabled(w, RecordLook(look)) && Left(Next(w, RecordLook(look)), id, since) < Left(w, id, since)
  {
    RecordIsQuiet(w, look);
    assert OrderOk(w.order.orders[id], Reservation(w.credit, id), Terminal(w.credit, id));
    assert IsRequest(Next(w, RecordLook(look)), id, since, |w.order.outbox|);
  }

  lemma NextStepHelps(w: World, step: Step, id: OrderId, since: Since)
    requires Good(w, since) && Helps(w, step, id, since) && Enabled(w, step)
    ensures id in Next(w, step).order.orders && Left(Next(w, step), id, since) < Left(w, id, since)
  {
    var after := Next(w, step);
    QuietOnward(w, step);
    match step
    case OrderReceives(j, suspended) =>
      ReplyLands(w, j, suspended, id);
      OnwardLeavesLess(w, after, id, since);
    case CreditReceives(i) => RequestHelps(w, i, id, since);
    case RecordLook(look) => RecordHelps(w, look, id, since);
    case AskCredit(look) =>
      assert IsLook(after, id, true, look.(credit := Some(Ledger.OrderStatus(w.credit, id).0)));
    case Observe(_) => assert IsLook(after, id, false, Look(Seen(w, id), None));
    case _ =>
  }

  // ----- all errands together

  ghost function AllLeft(w: World, ids: set<OrderId>, since: Since): nat
    requires ids <= w.order.orders.Keys
  {
    if ids == {} then 0
    else var id :| id in ids; Left(w, id, since) + AllLeft(w, ids - {id}, since)
  }

  lemma {:induction false} AllLeftWithout(w: World, ids: set<OrderId>, id: OrderId, since: Since)
    requires ids <= w.order.orders.Keys && id in ids
    ensures AllLeft(w, ids, since) == Left(w, id, since) + AllLeft(w, ids - {id}, since)
    decreases ids
  {
    var first :| first in ids && AllLeft(w, ids, since) == Left(w, first, since) + AllLeft(w, ids - {first}, since);
    if first != id {
      AllLeftWithout(w, ids - {first}, id, since);
      AllLeftWithout(w, ids - {id}, first, since);
      assert ids - {first} - {id} == ids - {id} - {first};
    }
  }

  lemma {:induction false} LeavesLess(w: World, after: World, ids: set<OrderId>, since: Since)
    requires ids <= w.order.orders.Keys && Onward(w, after)
    ensures AllLeft(after, ids, since) <= AllLeft(w, ids, since)
    decreases ids
  {
    if id :| id in ids {
      AllLeftWithout(w, ids, id, since);
      AllLeftWithout(after, ids, id, since);
      OnwardLeavesLess(w, after, id, since);
      LeavesLess(w, after, ids - {id}, since);
    }
  }

  /** What is left of everything: at most five steps for each answer still awaited. */
  ghost function Total(w: World, since: Since): nat { AllLeft(w, w.order.orders.Keys, since) }

  lemma StepLeavesLess(w: World, step: Step, since: Since)
    requires Good(w, since) && Enabled(w, step) && IsQuiet(step)
    ensures Total(Next(w, step), since) + (if Helpful(w, step, since) then 1 else 0) <= Total(w, since)
  {
    var after, ids := Next(w, step), w.order.orders.Keys;
    QuietOnward(w, step);
    LeavesLess(w, after, ids, since);
    if id :| Helps(w, step, id, since) {
      NextStepHelps(w, step, id, since);
      AllLeftWithout(w, ids, id, since);
      AllLeftWithout(after, ids, id, since);
      LeavesLess(w, after, ids - {id}, since);
    }
  }

  lemma {:induction false} TotalBound(w: World, ids: set<OrderId>, orders: map<OrderId, Order>, since: Since)
    requires ids <= w.order.orders.Keys && orders.Keys == ids
    requires forall id <- ids :: orders[id] == w.order.orders[id]
    ensures AllLeft(w, ids, since) <= 5 * TotalRemaining(orders)
    decreases ids
  {
    if id :| id in ids {
      AllLeftWithout(w, ids, id, since);
      TotalWithout(orders, id);
      TotalBound(w, ids - {id}, orders - {id}, since);
    }
  }

  // ----- runs

  predicate AllQuiet(steps: seq<Step>) { forall step <- steps :: IsQuiet(step) }

  /** How many steps of a run help some errand when they are taken. */
  ghost function Helping(w: World, steps: seq<Step>, since: Since): nat
    requires Runs(w, steps)
    decreases |steps|
  {
    if steps == [] then 0
    else (if Helpful(w, steps[0], since) then 1 else 0) + Helping(Next(w, steps[0]), steps[1..], since)
  }

  lemma {:induction false} RunLeavesLess(w: World, steps: seq<Step>, since: Since)
    requires Good(w, since) && Runs(w, steps) && AllQuiet(steps)
    ensures Good(End(w, steps), since)
    ensures Total(End(w, steps), since) + Helping(w, steps, since) <= Total(w, since)
    decreases |steps|
  {
    if steps != [] {
      assert IsQuiet(steps[0]) && AllQuiet(steps[1..]);
      QuietKeeps(w, steps[0], since);
      StepLeavesLess(w, steps[0], since);
      RunLeavesLess(Next(w, steps[0]), steps[1..], since);
    }
  }

  lemma {:induction false} RestStays(w: World, steps: seq<Step>)
    requires Runs(w, steps) && AllQuiet(steps)
    ensures RestUntouched(w, End(w, steps))
    ensures TotalRemaining(End(w, steps).order.orders) <= TotalRemaining(w.order.orders)
    decreases |steps|
  {
    if steps != [] {
      assert IsQuiet(steps[0]) && AllQuiet(steps[1..]);
      var next := Next(w, steps[0]);
      QuietOnward(w, steps[0]);
      NearerRemains(w.order.orders, next.order.orders);
      RestStays(next, steps[1..]);
      forall id | id in w.order.orders && !Waits(w, id) ensures End(w, steps).order.orders[id] == w.order.orders[id] {
        assert Nearer(w.order.orders[id], next.order.orders[id]);
      }
    }
  }

  lemma {:induction false} NearerRemains(orders: map<OrderId, Order>, after: map<OrderId, Order>)
    requires after.Keys == orders.Keys && forall id <- orders :: Nearer(orders[id], after[id])
    ensures TotalRemaining(after) <= TotalRemaining(orders)
    decreases orders.Keys
  {
    if id :| id in orders {
      TotalWithout(orders, id);
      TotalWithout(after, id);
      NearerRemains(orders - {id}, after - {id});
    }
  }

  ghost predicate AllAtRest(w: World) { forall id <- w.order.orders :: AtRest(w, id) }

  lemma NothingLeft(w: World, since: Since)
    requires SagaInv(w) && Total(w, since) == 0
    ensures AllAtRest(w)
  {
    forall id | id in w.order.orders ensures AtRest(w, id) {
      AllLeftWithout(w, w.order.orders.Keys, id, since);
      OutcomeCounts(w.credit, id);
      Theorems.Agreement(w, id);
    }
  }

  /** Some step that helps this errand can be taken now. */
  ghost predicate CanBeHelped(w: World, id: OrderId, since: Since) {
    exists step :: Enabled(w, step) && IsQuiet(step) && Helps(w, step, id, since)
  }

  /** From any reachable state, in any run in which nobody commands anything, whatever is delivered again
      and in whatever order: errands at rest stay as they are; at most five steps for each answer awaited
      help; while an errand waits, a step that helps is there to be taken; and once that many have been
      taken, nothing waits and Order and Credit agree exactly. */
  lemma DisorderConverges(w: World, steps: seq<Step>, since: Since)
    requires Good(w, since) && Runs(w, steps) && AllQuiet(steps)
    ensures var after, bound := End(w, steps), 5 * TotalRemaining(w.order.orders);
            && RestUntouched(w, after) && TotalRemaining(after.order.orders) <= TotalRemaining(w.order.orders)
            && Helping(w, steps, since) <= bound
            && (forall id | Waits(after, id) :: CanBeHelped(after, id, since))
            && (Helping(w, steps, since) == bound ==> AllAtRest(after))
  {
    var after := End(w, steps);
    RunLeavesLess(w, steps, since);
    RestStays(w, steps);
    TotalBound(w, w.order.orders.Keys, w.order.orders, since);
    forall id | Waits(after, id) ensures CanBeHelped(after, id, since) {
      var step := SomethingHelps(after, id, since);
    }
    if Helping(w, steps, since) == 5 * TotalRemaining(w.order.orders) {
      NothingLeft(after, since);
    }
  }
}
