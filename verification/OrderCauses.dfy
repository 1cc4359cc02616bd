/** Why an errand is as it is. Whatever status an errand has, some step of the run brought it there: one of
    the documented causes, given by the person or timer it takes, at a moment its guard held. Causes are told
    by who acts and what the errand then was; what each writes is told column by column. */
module OrderCauses {
  import opened Wrappers
  import opened CreditTypes
  import opened OrderTypes
  import opened OrderTransitions

  // ----- who acts

  predicate IsRequester(o: Order, actor: CommandActor) { actor.Person? && actor.id == o.requester }

  predicate IsCourier(o: Order, actor: CommandActor) {
    actor.Person? && actor.id != o.requester && o.courier == Some(actor.id)
  }

  /** An administrator who is neither the requester nor the courier of the errand. */
  predicate IsArbiter(o: Order, actor: CommandActor) {
    actor.Person? && actor.isAdmin && actor.id != o.requester && o.courier != Some(actor.id)
  }

  // ----- what they do

  /** A command as given to an errand: who, what, and what is then the case. */
  datatype Given = Given(actor: CommandActor, action: Action, facts: Facts)

  /** The reward is reserved for a requester in good standing. */
  predicate Funds(o: Order, g: Given) {
    o.status.PENDING_CREDIT? && g.action.CREDIT_RESERVED? && g.actor.CreditService?
  }

  /** The courier steps back, or does not come for the errand in time. */
  predicate Abandons(o: Order, g: Given) {
    o.status.ACCEPTED?
    && ((g.action.WITHDRAW? && IsCourier(o, g.actor)) || (g.action.PICKUP_TIMEOUT? && g.actor.System?))
  }

  predicate SuspendsCourier(o: Order, g: Given) { g.action.COURIER_SUSPENDED? && g.actor.System? }

  predicate Reopens(o: Order, g: Given) {
    || (Abandons(o, g) && !g.facts.acceptanceDeadlinePassed)
    || (o.status.ACCEPTED? && SuspendsCourier(o, g))
  }

  /** Called off while nobody has picked it up: by its requester, by their suspension, or by an arbiter later. */
  predicate CallsOff(o: Order, g: Given) {
    || (Funds(o, g) && g.facts.requesterSuspended)
    || ((o.status.OPEN? || o.status.ACCEPTED?) && g.action.CANCEL? && IsRequester(o, g.actor))
    || ((o.status.OPEN? || o.status.ACCEPTED?) && g.action.REQUESTER_SUSPENDED? && g.actor.System?)
    || (o.status.DISPUTED? && g.action.RESOLVE_FOR_REQUESTER? && IsArbiter(o, g.actor) && g.facts.reasonProvided)
  }

  /** Nobody takes it, or nobody is left to take it, before the deadline. */
  predicate RunsOut(o: Order, g: Given) {
    || (o.status.OPEN? && g.action.ACCEPTANCE_DEADLINE_PASSED? && g.actor.System?)
    || (Abandons(o, g) && g.facts.acceptanceDeadlinePassed)
  }

  predicate Confirms(o: Order, g: Given) {
    o.status.DELIVERED?
    && ((g.action.CONFIRM_RECEIPT? && IsRequester(o, g.actor)) || (g.action.AUTO_CONFIRM? && g.actor.System?))
  }

  predicate AwardsCourier(o: Order, g: Given) {
    o.status.DISPUTED? && g.action.RESOLVE_FOR_COURIER? && IsArbiter(o, g.actor) && g.facts.reasonProvided
  }

  predicate Disputes(o: Order, g: Given) {
    || (o.status.DELIVERED? && g.action.REPORT_NON_RECEIPT? && IsRequester(o, g.actor) && !g.facts.autoConfirmationPeriodPassed)
    || (o.status.PICKED_UP? && g.action.REPORT_NON_DELIVERY? && IsRequester(o, g.actor) && g.facts.deliveryPeriodPassed)
    || (o.status.PICKED_UP? && SuspendsCourier(o, g))
    || (o.status.PICKED_UP? && g.action.DELIVERY_PERIOD_PASSED? && g.actor.System?
        && g.facts.deliveryPeriodPassed && g.facts.requesterSuspended)
  }

  predicate Refers(o: Order, g: Given) {
    o.status.DISPUTED? && (g.action.ADMIN_ASSIGNED? || g.action.ADMIN_UNASSIGNED?) && g.actor.System?
  }

  predicate Settles(o: Order, g: Given, reason: ReleaseReason) {
    o.status.RELEASE_PENDING_CREDIT? && g.action.RELEASE_CONFIRMED? && g.actor.CreditService? && o.releaseReason == Some(reason)
  }

  /** What brings an errand to each status. */
  predicate Leads(o: Order, g: Given, to: Status) {
    match to
    case PENDING_CREDIT => false
    case OPEN => (Funds(o, g) && !g.facts.requesterSuspended) || Reopens(o, g)
    case ACCEPTED => false
    case PICKED_UP => o.status.ACCEPTED? && g.action.RECORD_PICKUP? && IsCourier(o, g.actor)
    case DELIVERED => o.status.PICKED_UP? && g.action.RECORD_DELIVERY? && IsCourier(o, g.actor)
    case DISPUTED => Disputes(o, g) || Refers(o, g)
    case COMPLETION_PENDING_CREDIT => Confirms(o, g) || AwardsCourier(o, g)
    case RELEASE_PENDING_CREDIT => CallsOff(o, g) || RunsOut(o, g)
    case REJECTED => o.status.PENDING_CREDIT? && g.action.CREDIT_REJECTED? && g.actor.CreditService?
    case COMPLETED => o.status.COMPLETION_PENDING_CREDIT? && g.action.TRANSFER_CONFIRMED? && g.actor.CreditService?
    case CANCELLED => Settles(o, g, AsCancelled)
    case EXPIRED => Settles(o, g, AsExpired)
  }

  function Decided(o: Order, g: Given): Option<Decision> {
    Decide(o.status, g.action, Resolve(o, g.actor), g.facts, o.releaseReason)
  }

  lemma DecidedLeads(o: Order, g: Given, to: Status)
    ensures Decided(o, g).Some? && Decided(o, g).value.to == to <==> Leads(o, g, to)
    ensures Decided(o, g).Some? && Decided(o, g).value.reason == Some(AsCancelled) <==> CallsOff(o, g)
    ensures Decided(o, g).Some? && Decided(o, g).value.reason == Some(AsExpired) <==> RunsOut(o, g)
  {
  }

  // ----- steps

  /** The step is a command to this errand, given about its present version. */
  predicate Commands(s: OrderState, step: Step, id: OrderId) {
    && step.Acts? && step.id == id && id in s.orders
    && (step.expected.Some? ==> step.expected.value == s.orders[id].version)
  }

  function GivenBy(step: Step): Given
    requires step.Acts?
  {
    Given(step.actor, step.action, step.facts)
  }

  /** Someone else takes an open errand in time. */
  predicate TakenBy(s: OrderState, step: Step, id: OrderId) {
    && step.Takes? && step.id == id && id in s.orders && s.orders[id].status.OPEN?
    && step.courier != s.orders[id].requester && !step.deadlinePassed && step.version == s.orders[id].version
  }

  predicate PostedBy(s: OrderState, step: Step, id: OrderId) { step.Posts? && step.id == id && id !in s.orders }

  predicate Causes(s: OrderState, step: Step, id: OrderId, to: Status) {
    match to
    case PENDING_CREDIT => PostedBy(s, step, id)
    case ACCEPTED => TakenBy(s, step, id)
    case _ => Commands(s, step, id) && Leads(s.orders[id], GivenBy(step), to)
  }

  lemma Accepted(s: OrderState, step: Step, id: OrderId)
    requires Kept(s) && Commands(s, step, id)
    ensures Next(s, step).orders
         == if Decided(s.orders[id], GivenBy(step)).None? then s.orders
            else s.orders[id := Patched(Moved(s.orders[id], step.action, Decided(s.orders[id], GivenBy(step)).value), step.patch)]
  {
    ActKeeps(s, id, step.actor, step.action, step.facts, step.expected, step.patch);
  }

  /** A step brings an errand to a status exactly when it is one of the causes of that status. */
  lemma EntersExactly(s: OrderState, step: Step, id: OrderId, to: Status)
    requires Kept(s)
    ensures Enters(s, Next(s, step), id, to) <==> Causes(s, step, id, to)
  {
    if Commands(s, step, id) {
      Accepted(s, step, id);
      DecidedLeads(s.orders[id], GivenBy(step), to);
    }
  }

  // ----- what a cause writes

  /** The courier an errand has after a step. */
  function CourierAfter(s: OrderState, step: Step, id: OrderId): Option<UserId>
    requires id in s.orders
  {
    var o := s.orders[id];
    if TakenBy(s, step, id) then Some(step.courier)
    else if Commands(s, step, id) && (Abandons(o, GivenBy(step)) || Reopens(o, GivenBy(step))) then None
    else o.courier
  }

  function ReasonAfter(s: OrderState, step: Step, id: OrderId): Option<ReleaseReason>
    requires id in s.orders
  {
    if Commands(s, step, id) && CallsOff(s.orders[id], GivenBy(step)) then Some(AsCancelled)
    else if Commands(s, step, id) && RunsOut(s.orders[id], GivenBy(step)) then Some(AsExpired)
    else s.orders[id].releaseReason
  }

  function ReservedAfter(s: OrderState, step: Step, id: OrderId): Option<nat>
    requires id in s.orders
  {
    if Commands(s, step, id) && Funds(s.orders[id], GivenBy(step)) then Some(s.orders[id].version + 1)
    else s.orders[id].reservedAt
  }

  /** What a step writes of an errand: nothing without a cause, and with one a new version and these columns. */
  lemma WritesExactly(s: OrderState, step: Step, id: OrderId)
    requires Kept(s) && id in s.orders
    ensures id in Next(s, step).orders
    ensures var o, n := s.orders[id], Next(s, step).orders[id];
            && n.requester == o.requester && n.reward == o.reward
            && n.version == o.version + (if Causes(s, step, id, n.status) then 1 else 0)
            && (n != o <==> Causes(s, step, id, n.status))
            && n.courier == CourierAfter(s, step, id) && n.releaseReason == ReasonAfter(s, step, id)
            && n.reservedAt == ReservedAfter(s, step, id)
  {
    var o := s.orders[id];
    EntersExactly(s, step, id, Next(s, step).orders[id].status);
    if Commands(s, step, id) {
      Accepted(s, step, id);
      CommandWrites(o, GivenBy(step));
    }
  }

  lemma CommandWrites(o: Order, g: Given)
    ensures Decided(o, g).Some? ==>
              var n := Moved(o, g.action, Decided(o, g).value);
              && n.courier == (if Abandons(o, g) || Reopens(o, g) then None else o.courier)
              && n.releaseReason == (if CallsOff(o, g) then Some(AsCancelled)
                                     else if RunsOut(o, g) then Some(AsExpired) else o.releaseReason)
              && n.reservedAt == if Funds(o, g) then Some(o.version + 1) else o.reservedAt
    ensures Decided(o, g).None? ==> !Abandons(o, g) && !Reopens(o, g) && !CallsOff(o, g) && !RunsOut(o, g) && !Funds(o, g)
  {
    if Decided(o, g).Some? {
      DecidedLeads(o, g, Decided(o, g).value.to);
    } else {
      DecidedLeads(o, g, OPEN);
      DecidedLeads(o, g, RELEASE_PENDING_CREDIT);
    }
  }

  /** A posted errand is its requester's, at the reward posted, and has met with nothing yet. */
  lemma PostedIs(s: OrderState, step: Step, id: OrderId)
    requires PostedBy(s, step, id)
    ensures id in Next(s, step).orders
    ensures var o := Next(s, step).orders[id];
            && o.requester == step.requester && o.reward == step.reward && o.status.PENDING_CREDIT?
            && o.courier.None? && o.releaseReason.None? && o.rejection.None? && o.creditTransaction.None? && o.reservedAt.None?
  {}

  /** Who asks Credit for what: a posting for its reward to be reserved, a confirmation or an award for the
      courier of the errand to be paid, and a calling off or running out for the reward to be returned. */
  function AsksFor(s: OrderState, step: Step): seq<Request> {
    if PostedBy(s, step, step.id) then [ReservationRequested(step.id, step.requester, step.reward)]
    else if !Commands(s, step, step.id) then []
    else
      var o, g := s.orders[step.id], GivenBy(step);
      if (Confirms(o, g) || AwardsCourier(o, g)) && o.courier.Some? then
        [CompletionRequested(step.id, o.requester, o.courier.value, o.reward)]
      else if CallsOff(o, g) || RunsOut(o, g) then [ReleaseRequested(step.id, o.requester, o.reward)]
      else []
  }

  lemma SendsExactly(s: OrderState, step: Step)
    requires Kept(s)
    ensures Next(s, step).outbox == s.outbox + AsksFor(s, step)
    ensures Next(s, step).receipts == s.receipts && Next(s, step).conflicts == s.conflicts
    ensures forall id <- s.orders | id != step.id :: id in Next(s, step).orders && Next(s, step).orders[id] == s.orders[id]
  {
    if Commands(s, step, step.id) {
      var o, g := s.orders[step.id], GivenBy(step);
      ActKeeps(s, step.id, step.actor, step.action, step.facts, step.expected, step.patch);
      DecidedLeads(o, g, COMPLETION_PENDING_CREDIT);
      DecidedLeads(o, g, RELEASE_PENDING_CREDIT);
      if Decided(o, g).Some? {
        RequestsMatchWaiting(o.status, g.action, Resolve(o, g.actor), g.facts, o.releaseReason);
        MoveKeeps(step.id, o, g.action, Resolve(o, g.actor), g.facts, step.patch);
      }
    }
  }

  // ----- the law of each kind, step by step in any run

  ghost predicate Reachable(s: OrderState) { exists steps :: Run(NOTHING, steps) == s }

  lemma ReachableIsKept(s: OrderState)
    requires Reachable(s)
    ensures Kept(s)
  {
    var steps :| Run(NOTHING, steps) == s;
    assert Kept(NOTHING);
    RunKeeps(NOTHING, steps);
  }

  /** Credit is asked to pay for an errand exactly when its requester or the timer confirms its delivery, or an
      arbiter awards it with a reason; and it is asked to pay the courier the errand then names. */
  lemma PaidExactly(s: OrderState, step: Step, id: OrderId)
    requires Reachable(s) && id in s.orders && step.id == id
    ensures var o := s.orders[id];
            var pays := Commands(s, step, id) && (Confirms(o, GivenBy(step)) || AwardsCourier(o, GivenBy(step)));
            && (Enters(s, Next(s, step), id, COMPLETION_PENDING_CREDIT) <==> pays)
            && (pays ==> o.courier.Some? && Next(s, step).outbox
                         == s.outbox + [CompletionRequested(id, o.requester, o.courier.value, o.reward)])
            && (!pays ==> forall c, r, a :: CompletionRequested(id, r, c, a) !in Next(s, step).outbox[|s.outbox|..])
  {
    ReachableIsKept(s);
    EntersExactly(s, step, id, COMPLETION_PENDING_CREDIT);
    SendsExactly(s, step);
    assert Tidy(s.orders[id]);
    assert Next(s, step).outbox[|s.outbox|..] == AsksFor(s, step);
  }

  /** An errand that was picked up becomes disputed exactly when its requester reports it missing after the
      delivery period, that period ends with the requester suspended, or its courier is suspended; a
      delivered one exactly when its requester reports it before the period to confirm has passed. */
  lemma DisputedExactly(s: OrderState, step: Step, id: OrderId)
    requires Reachable(s) && id in s.orders && !s.orders[id].status.DISPUTED?
    ensures var o := s.orders[id];
            Enters(s, Next(s, step), id, DISPUTED) <==>
            Commands(s, step, id)
            && var g := GivenBy(step);
               || (o.status.DELIVERED? && g.action.REPORT_NON_RECEIPT? && IsRequester(o, g.actor)
                   && !g.facts.autoConfirmationPeriodPassed)
               || (o.status.PICKED_UP?
                   && (|| (g.action.REPORT_NON_DELIVERY? && IsRequester(o, g.actor) && g.facts.deliveryPeriodPassed)
                       || (g.action.COURIER_SUSPENDED? && g.actor.System?)
                       || (g.action.DELIVERY_PERIOD_PASSED? && g.actor.System?
                           && g.facts.deliveryPeriodPassed && g.facts.requesterSuspended)))
  {
    ReachableIsKept(s);
    EntersExactly(s, step, id, DISPUTED);
  }

  /** A disputed errand is decided only by an arbiter with a reason, for the courier or for the requester. */
  lemma DecidedByArbiter(s: OrderState, step: Step, id: OrderId)
    requires Reachable(s) && id in s.orders && s.orders[id].status.DISPUTED?
    ensures var o, n := s.orders[id], Next(s, step).orders[id];
            n.status.DISPUTED?
            || (&& Commands(s, step, id) && IsArbiter(o, step.actor) && step.facts.reasonProvided
                && if step.action.RESOLVE_FOR_COURIER? then n.status.COMPLETION_PENDING_CREDIT?
                   else step.action.RESOLVE_FOR_REQUESTER? && n.status.RELEASE_PENDING_CREDIT?
                        && n.releaseReason == Some(AsCancelled))
    ensures id in Next(s, step).orders
  {
    ReachableIsKept(s);
    WritesExactly(s, step, id);
    EntersExactly(s, step, id, Next(s, step).orders[id].status);
  }

  /** When its courier steps back or does not come, an errand loses them: before the acceptance deadline it is
      open again, and after it the reward is to be returned, and however the run goes on it ends, if it
      ends, as expired. */
  lemma AbandonedExactly(s: OrderState, step: Step, id: OrderId, more: seq<Step>)
    requires Reachable(s) && Commands(s, step, id) && Abandons(s.orders[id], GivenBy(step))
    ensures id in Next(s, step).orders && id in Run(Next(s, step), more).orders
    ensures var n, last := Next(s, step).orders[id], Run(Next(s, step), more).orders[id];
            && n.courier.None?
            && (!step.facts.acceptanceDeadlinePassed ==> n.status.OPEN? && Next(s, step).outbox == s.outbox)
            && (step.facts.acceptanceDeadlinePassed ==>
                  && n.status.RELEASE_PENDING_CREDIT? && n.releaseReason == Some(AsExpired)
                  && Next(s, step).outbox == s.outbox + [ReleaseRequested(id, n.requester, n.reward)]
                  && (IsFinal(last.status) ==> last.status.EXPIRED?))
  {
    ReachableIsKept(s);
    WritesExactly(s, step, id);
    SendsExactly(s, step);
    EntersExactly(s, step, id, OPEN);
    EntersExactly(s, step, id, RELEASE_PENDING_CREDIT);
    RunAhead(Next(s, step), more, id);
  }

  // ----- histories

  lemma {:induction false} RunOn(s: OrderState, steps: seq<Step>, step: Step)
    ensures Run(s, steps + [step]) == Next(Run(s, steps), step)
    decreases |steps|
  {
    if steps == [] {
      assert [] + [step] == [step] && [step][1..] == [];
    } else {
      RunOn(Next(s, steps[0]), steps[1..], step);
      assert (steps + [step])[1..] == steps[1..] + [step];
    }
  }

  /** The tables after so many steps. */
  function At(steps: seq<Step>, k: nat): OrderState
    requires k <= |steps|
  {
    Run(NOTHING, steps[..k])
  }

  lemma AtNext(steps: seq<Step>, k: nat)
    requires k < |steps|
    ensures At(steps, k + 1) == Next(At(steps, k), steps[k])
  {
    assert steps[..k + 1] == steps[..k] + [steps[k]];
    RunOn(NOTHING, steps[..k], steps[k]);
  }

  /** The step that brought an errand where it was after `n` steps, and left it there. */
  predicate BroughtBy(steps: seq<Step>, n: nat, id: OrderId, k: nat)
    requires n <= |steps| && id in At(steps, n).orders
  {
    && k < n && Causes(At(steps, k), steps[k], id, At(steps, n).orders[id].status)
    && id in At(steps, k + 1).orders && At(steps, k + 1).orders[id] == At(steps, n).orders[id]
  }

  lemma {:induction false} SomethingBroughtIt(steps: seq<Step>, n: nat, id: OrderId) returns (k: nat)
    requires n <= |steps| && id in At(steps, n).orders
    ensures BroughtBy(steps, n, id, k)
  {
    assert n > 0;
    AtNext(steps, n - 1);
    var before, after := At(steps, n - 1), At(steps, n);
    assert Reachable(before);
    ReachableIsKept(before);
    EntersExactly(before, steps[n - 1], id, after.orders[id].status);
    if id in before.orders && before.orders[id] == after.orders[id] {
      k := SomethingBroughtIt(steps, n - 1, id);
    } else {
      k := n - 1;
    }
  }

  /** Whatever status an errand has after a run, one of the documented causes of that status brought it there
      at some step of the run, and nothing has moved it since. */
  lemma WhyItIsSo(steps: seq<Step>, id: OrderId)
    requires id in At(steps, |steps|).orders
    ensures exists k :: BroughtBy(steps, |steps|, id, k)
  {
    var k := SomethingBroughtIt(steps, |steps|, id);
  }

  /** How many steps of a run changed an errand. */
  function Changes(s: OrderState, steps: seq<Step>, id: OrderId): nat
    decreases |steps|
  {
    if steps == [] then 0
    else
      var after := Next(s, steps[0]);
      (if id in after.orders && (id !in s.orders || after.orders[id] != s.orders[id]) then 1 else 0)
      + Changes(after, steps[1..], id)
  }

  /** An errand's version counts the steps that changed it; and its requester and reward are those posted. */
  lemma {:induction false} VersionCounts(s: OrderState, steps: seq<Step>, id: OrderId)
    requires Kept(s)
    ensures id in Run(s, steps).orders ==>
              var n := Run(s, steps).orders[id];
              && n.version == (if id in s.orders then s.orders[id].version else 0) + Changes(s, steps, id)
              && if id in s.orders then n.requester == s.orders[id].requester && n.reward == s.orders[id].reward
                 else Posts(id, n.requester, n.reward) in steps
    decreases |steps|
  {
    if steps != [] {
      StepKeeps(s, steps[0]);
      if id in s.orders {
        WritesExactly(s, steps[0], id);
      } else {
        EntersExactly(s, steps[0], id, PENDING_CREDIT);
      }
      VersionCounts(Next(s, steps[0]), steps[1..], id);
    }
  }

  // ----- what a user no longer does

  /** The errand is on its way with this courier. */
  predicate CarriedBy(o: Order, user: UserId) { o.courier == Some(user) && (o.status.ACCEPTED? || o.status.PICKED_UP?) }

  predicate OfferedBy(o: Order, user: UserId) { o.requester == user && (o.status.OPEN? || o.status.ACCEPTED?) }

  predicate CarriesNothing(s: OrderState, user: UserId) { forall id <- s.orders :: !CarriedBy(s.orders[id], user) }

  predicate OffersNothing(s: OrderState, user: UserId) { forall id <- s.orders :: !OfferedBy(s.orders[id], user) }

  predicate TakesOn(step: Step, user: UserId) { step.Takes? && step.courier == user }

  /** The reward is reserved, and the User Service says the requester is in good standing. */
  predicate FundsActive(step: Step) { step.Acts? && step.action.CREDIT_RESERVED? && !step.facts.requesterSuspended }

  lemma StepStaysClear(s: OrderState, step: Step, user: UserId)
    requires Kept(s)
    ensures CarriesNothing(s, user) && !TakesOn(step, user) ==> CarriesNothing(Next(s, step), user)
    ensures OffersNothing(s, user) && !FundsActive(step) ==> OffersNothing(Next(s, step), user)
  {
    var after := Next(s, step);
    forall id | id in after.orders
      ensures CarriedBy(after.orders[id], user) ==> (id in s.orders && CarriedBy(s.orders[id], user)) || TakesOn(step, user)
      ensures OfferedBy(after.orders[id], user) ==> (id in s.orders && OfferedBy(s.orders[id], user)) || FundsActive(step)
    {
      EntersExactly(s, step, id, after.orders[id].status);
      if id in s.orders {
        WritesExactly(s, step, id);
      }
    }
  }

  /** A user who is on the way with nothing is so until they take an errand, and one who offers nothing until
      an errand of someone in good standing is funded, whatever else happens. */
  lemma {:induction false} StaysClear(s: OrderState, more: seq<Step>, user: UserId)
    requires Kept(s)
    ensures CarriesNothing(s, user) && (forall step <- more :: !TakesOn(step, user)) ==> CarriesNothing(Run(s, more), user)
    ensures OffersNothing(s, user) && (forall step <- more :: !FundsActive(step)) ==> OffersNothing(Run(s, more), user)
    decreases |more|
  {
    if more != [] {
      StepStaysClear(s, more[0], user);
      StepKeeps(s, more[0]);
      StaysClear(Next(s, more[0]), more[1..], user);
    }
  }
}
