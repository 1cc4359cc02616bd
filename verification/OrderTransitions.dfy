/** Whole lives of errands under the transition table, whoever commands what and in whatever order: what
    Order has asked Credit by any moment, which statuses an errand can still come to, and which it can
    come to more than once. */
module OrderTransitions {
  import opened Wrappers
  import opened CreditTypes
  import opened OrderTypes
  import opened OrderHandlers

  predicate IsFinal(status: Status) {
    status.REJECTED? || status.COMPLETED? || status.CANCELLED? || status.EXPIRED?
  }

  predicate HasCourier(status: Status) {
    status.ACCEPTED? || status.PICKED_UP? || status.DELIVERED? || status.DISPUTED?
    || status.COMPLETION_PENDING_CREDIT? || status.COMPLETED?
  }

  /** Nothing leaves a final status, only Credit moves an errand that waits for it, and it moves nothing else. */
  lemma CreditMovesExactlyWhatWaits(from: Status, action: Action, actor: Actor, facts: Facts, reason: Option<ReleaseReason>)
    requires Decide(from, action, actor, facts, reason).Some?
    ensures !IsFinal(from) && (actor.CreditActor? <==> WaitsOnCredit(from))
  {}

  /** A request to Credit is sent exactly on coming to wait for it, and then it is the one waited for. */
  lemma RequestsMatchWaiting(from: Status, action: Action, actor: Actor, facts: Facts, reason: Option<ReleaseReason>)
    requires Decide(from, action, actor, facts, reason).Some?
    ensures var d := Decide(from, action, actor, facts, reason).value;
            && (d.to.COMPLETION_PENDING_CREDIT? <==> d.emits.Completion?)
            && (d.to.RELEASE_PENDING_CREDIT? <==> d.emits.ReleaseOfReward?)
            && (d.reason.Some? <==> d.to.RELEASE_PENDING_CREDIT?)
            && !d.to.PENDING_CREDIT?
  {}

  // ----- runs

  /** Errands are posted and taken, and anyone may command anything of any of them. */
  datatype Step =
    | Posts(id: OrderId, requester: UserId, reward: int)
    | Takes(id: OrderId, courier: UserId, version: nat, deadlinePassed: bool)
    | Acts(id: OrderId, actor: CommandActor, action: Action, facts: Facts, expected: Option<nat>, patch: Patch)

  function Next(s: OrderState, step: Step): OrderState {
    match step
    case Posts(id, requester, reward) => if id in s.orders then s else Create(s, id, requester, reward)
    case Takes(id, courier, version, passed) => Accept(s, id, courier, version, passed)
    case Acts(id, actor, action, facts, expected, patch) =>
      var t := Transition(s, id, actor, action, facts, expected, patch);
      if t.Applied? then t.after else s
  }

  function Run(s: OrderState, steps: seq<Step>): OrderState
    decreases |steps|
  {
    if steps == [] then s else Run(Next(s, steps[0]), steps[1..])
  }

  const NOTHING := OrderState(map[], [], map[], {})

  // ----- what Credit has been asked

  /** Everything Credit has been asked about one errand, in order. */
  function About(outbox: seq<Request>, id: OrderId): seq<Request> {
    if outbox == [] then []
    else
      var m := outbox[|outbox| - 1];
      About(outbox[..|outbox| - 1], id) + if m.order == id then [m] else []
  }

  lemma AboutAppend(outbox: seq<Request>, m: Request, id: OrderId)
    ensures About(outbox + [m], id) == About(outbox, id) + if m.order == id then [m] else []
  {
    assert (outbox + [m])[..|outbox|] == outbox;
  }

  predicate Pays(status: Status) { status.COMPLETION_PENDING_CREDIT? || status.COMPLETED? }

  predicate Returns(status: Status) { status.RELEASE_PENDING_CREDIT? || status.CANCELLED? || status.EXPIRED? }

  /** What an errand's status says it has asked: the reservation, and one settlement once it has come to one. */
  function Asked(id: OrderId, o: Order): seq<Request> {
    [ReservationRequested(id, o.requester, o.reward)]
    + if Pays(o.status) && o.courier.Some? then [CompletionRequested(id, o.requester, o.courier.value, o.reward)]
      else if Returns(o.status) then [ReleaseRequested(id, o.requester, o.reward)]
      else []
  }

  predicate Tidy(o: Order) {
    && (HasCourier(o.status) ==> o.courier.Some?) && o.courier != Some(o.requester)
    && (Returns(o.status) ==> o.releaseReason.Some?)
    && (o.status.CANCELLED? ==> o.releaseReason == Some(AsCancelled))
    && (o.status.EXPIRED? ==> o.releaseReason == Some(AsExpired))
  }

  predicate AskedRight(s: OrderState, id: OrderId) {
    About(s.outbox, id) == if id in s.orders then Asked(id, s.orders[id]) else []
  }

  ghost predicate Kept(s: OrderState) {
    (forall id <- s.orders :: Tidy(s.orders[id])) && forall id: OrderId :: AskedRight(s, id)
  }

  /** One transition of an errand: it stays tidy, and asks what its new status says it has asked. */
  lemma MoveKeeps(id: OrderId, o: Order, action: Action, actor: Actor, facts: Facts, patch: Patch)
    requires Tidy(o) && Decide(o.status, action, actor, facts, o.releaseReason).Some?
    ensures var decision := Decide(o.status, action, actor, facts, o.releaseReason).value;
            var next := Patched(Moved(o, action, decision), patch);
            && Tidy(next)
            && (decision.emits.NoRequest? ==> Asked(id, next) == Asked(id, o))
            && (!decision.emits.NoRequest? ==>
                  CreditRequest(id, next).Some? && Asked(id, next) == Asked(id, o) + [CreditRequest(id, next).value])
  {
    RequestsMatchWaiting(o.status, action, actor, facts, o.releaseReason);
  }

  /** The tables after one step: they are the same, or one errand moved and at most one request was sent of it. */
  predicate Steps(s: OrderState, after: OrderState, id: OrderId, sent: Option<Request>) {
    && id in after.orders && after.orders == s.orders[id := after.orders[id]]
    && after.outbox == s.outbox + (if sent.Some? then [sent.value] else [])
    && (sent.Some? ==> sent.value.order == id)
    && (id in s.orders || sent.Some?)
    && Asked(id, after.orders[id])
       == (if id in s.orders then Asked(id, s.orders[id]) else []) + (if sent.Some? then [sent.value] else [])
    && Tidy(after.orders[id])
  }

  lemma StepsKeeps(s: OrderState, after: OrderState, id: OrderId, sent: Option<Request>)
    requires Kept(s) && Steps(s, after, id, sent)
    ensures Kept(after)
  {
    forall k: OrderId ensures AskedRight(after, k) {
      assert AskedRight(s, k);
      if sent.Some? {
        AboutAppend(s.outbox, sent.value, k);
      } else {
        assert after.outbox == s.outbox;
      }
    }
  }

  lemma ActKeeps(s: OrderState, id: OrderId, actor: CommandActor, action: Action, facts: Facts, expected: Option<nat>,
                 patch: Patch)
    requires Kept(s)
    ensures Kept(Next(s, Acts(id, actor, action, facts, expected, patch)))
    ensures !Transition(s, id, actor, action, facts, expected, patch).CourierMissing?
  {
    var t := Transition(s, id, actor, action, facts, expected, patch);
    if !t.NotApplied? {
      var o := s.orders[id];
      var decision := Decide(o.status, action, Resolve(o, actor), facts, o.releaseReason).value;
      MoveKeeps(id, o, action, Resolve(o, actor), facts, patch);
      StepsKeeps(s, t.after, id, if decision.emits.NoRequest? then None else CreditRequest(id, t.after.orders[id]));
    }
  }

  lemma StepKeeps(s: OrderState, step: Step)
    requires Kept(s)
    ensures Kept(Next(s, step))
  {
    match step
    case Posts(id, requester, reward) =>
      if id !in s.orders {
        StepsKeeps(s, Next(s, step), id, Some(ReservationRequested(id, requester, reward)));
      }
    case Takes(id, courier, version, passed) =>
      if Next(s, step) != s {
        StepsKeeps(s, Next(s, step), id, None);
      }
    case Acts(id, actor, action, facts, expected, patch) => ActKeeps(s, id, actor, action, facts, expected, patch);
  }

  lemma {:induction false} RunKeeps(s: OrderState, steps: seq<Step>)
    requires Kept(s)
    ensures Kept(Run(s, steps))
    decreases |steps|
  {
    if steps != [] {
      StepKeeps(s, steps[0]);
      RunKeeps(Next(s, steps[0]), steps[1..]);
    }
  }

  /** In every run, whatever is commanded: Credit is asked for an errand's reservation once, then for at most
      one settlement, the one its status names and to the courier it names; and a release that has ended
      ended as the reason recorded. */
  lemma AskedOnce(steps: seq<Step>, id: OrderId)
    ensures var s := Run(NOTHING, steps);
            if id in s.orders then About(s.outbox, id) == Asked(id, s.orders[id]) && Tidy(s.orders[id])
            else About(s.outbox, id) == []
  {
    assert Kept(NOTHING);
    RunKeeps(NOTHING, steps);
    assert AskedRight(Run(NOTHING, steps), id);
  }

  // ----- what an errand can still come to

  /** The statuses an errand can be in now or later. After pickup it opens no more, and no longer expires. */
  predicate Ahead(o: Order, goal: Status) {
    match o.status
    case PENDING_CREDIT => true
    case OPEN => !goal.PENDING_CREDIT? && !goal.REJECTED?
    case ACCEPTED => !goal.PENDING_CREDIT? && !goal.REJECTED?
    case PICKED_UP => goal.PICKED_UP? || goal.DELIVERED? || Contested(goal)
    case DELIVERED => goal.DELIVERED? || Contested(goal)
    case DISPUTED => Contested(goal)
    case COMPLETION_PENDING_CREDIT => Pays(goal)
    case RELEASE_PENDING_CREDIT =>
      goal.RELEASE_PENDING_CREDIT? || goal == if o.releaseReason == Some(AsExpired) then EXPIRED else CANCELLED
    case _ => goal == o.status
  }

  predicate Contested(goal: Status) { goal.DISPUTED? || Pays(goal) || Released(goal) }

  predicate Released(goal: Status) { goal.RELEASE_PENDING_CREDIT? || goal.CANCELLED? }

  /** Where one transition can lead. */
  predicate Hops(from: Status, reason: Option<ReleaseReason>, d: Decision) {
    match from
    case PENDING_CREDIT => d.to.OPEN? || d.to.REJECTED? || d.to.RELEASE_PENDING_CREDIT?
    case OPEN => d.to.RELEASE_PENDING_CREDIT?
    case ACCEPTED => d.to.OPEN? || d.to.PICKED_UP? || d.to.RELEASE_PENDING_CREDIT?
    case PICKED_UP => d.to.DELIVERED? || d.to.DISPUTED?
    case DELIVERED => d.to.DISPUTED? || d.to.COMPLETION_PENDING_CREDIT?
    case DISPUTED =>
      d.to.DISPUTED? || d.to.COMPLETION_PENDING_CREDIT? || (d.to.RELEASE_PENDING_CREDIT? && d.reason == Some(AsCancelled))
    case COMPLETION_PENDING_CREDIT => d.to.COMPLETED?
    case RELEASE_PENDING_CREDIT => reason.Some? && d.to == if reason.value.AsExpired? then EXPIRED else CANCELLED
    case _ => false
  }

  lemma DecideHops(from: Status, action: Action, actor: Actor, facts: Facts, reason: Option<ReleaseReason>)
    requires Decide(from, action, actor, facts, reason).Some?
    ensures Hops(from, reason, Decide(from, action, actor, facts, reason).value)
  {}

  /** A step leaves an errand as it was, or brings it where no more is ahead of it than was. */
  predicate Onward(o: Order, next: Order, goal: Status) {
    next == o || (!IsFinal(o.status) && Ahead(o, next.status) && (Ahead(next, goal) ==> Ahead(o, goal))
                  && (next.status == o.status ==> o.status.DISPUTED?))
  }

  lemma MoveIsOnward(o: Order, action: Action, d: Decision, patch: Patch, goal: Status)
    requires Hops(o.status, o.releaseReason, d) && (d.reason.None? ==> !d.to.RELEASE_PENDING_CREDIT?)
    ensures Onward(o, Patched(Moved(o, action, d), patch), goal)
  {}

  lemma StepIsOnward(s: OrderState, step: Step, id: OrderId, goal: Status)
    requires id in s.orders
    ensures id in Next(s, step).orders && Onward(s.orders[id], Next(s, step).orders[id], goal)
  {
    if step.Acts? && step.id == id {
      var o, actor := s.orders[id], Resolve(s.orders[id], step.actor);
      var decision := Decide(o.status, step.action, actor, step.facts, o.releaseReason);
      if decision.Some? {
        DecideHops(o.status, step.action, actor, step.facts, o.releaseReason);
        RequestsMatchWaiting(o.status, step.action, actor, step.facts, o.releaseReason);
        MoveIsOnward(o, step.action, decision.value, step.patch, goal);
      }
    }
  }

  lemma {:induction false} RunAhead(s: OrderState, steps: seq<Step>, id: OrderId)
    requires id in s.orders
    ensures var after := Run(s, steps);
            && id in after.orders && Ahead(s.orders[id], after.orders[id].status)
            && (IsFinal(s.orders[id].status) ==> after.orders[id] == s.orders[id])
    decreases |steps|
  {
    if steps != [] {
      StepIsOnward(s, steps[0], id, s.orders[id].status);
      RunAhead(Next(s, steps[0]), steps[1..], id);
      StepIsOnward(s, steps[0], id, Run(s, steps).orders[id].status);
    }
  }

  /** How far an errand is from a status ahead of it. */
  function Distance(status: Status, goal: Status): nat {
    if status == goal then 0
    else match status
      case PENDING_CREDIT => 7
      case OPEN => 6
      case ACCEPTED => 5
      case PICKED_UP => 4
      case DELIVERED => 3
      case DISPUTED => 2
      case _ => 1
  }

  /** What to command next to bring an errand to `goal`, of one not waiting for a courier. */
  function Command(o: Order, goal: Status): (CommandActor, Action, Facts) {
    var yes := Facts(true, true, true, false, true);
    var requester := Person(o.requester, false);
    var courier := if o.courier.Some? then Person(o.courier.value, false) else System;
    var admin := Person(o.requester + 1 + if o.courier.Some? then o.courier.value else 0, true);
    match o.status
    case PENDING_CREDIT => (CreditService, if goal.REJECTED? then CREDIT_REJECTED else CREDIT_RESERVED, NO_FACTS)
    case OPEN => if goal.EXPIRED? then (System, ACCEPTANCE_DEADLINE_PASSED, NO_FACTS) else (requester, CANCEL, NO_FACTS)
    case ACCEPTED =>
      if Released(goal) then (requester, CANCEL, NO_FACTS)
      else if goal.EXPIRED? then (System, PICKUP_TIMEOUT, yes)
      else if goal.OPEN? then (System, PICKUP_TIMEOUT, NO_FACTS)
      else (courier, RECORD_PICKUP, NO_FACTS)
    case PICKED_UP =>
      if Released(goal) || goal.DISPUTED? then (System, COURIER_SUSPENDED, NO_FACTS)
      else (courier, RECORD_DELIVERY, NO_FACTS)
    case DELIVERED => (requester, if Pays(goal) then CONFIRM_RECEIPT else REPORT_NON_RECEIPT, NO_FACTS)
    case DISPUTED => (admin, if Pays(goal) then RESOLVE_FOR_COURIER else RESOLVE_FOR_REQUESTER, yes)
    case _ => (CreditService, if Pays(goal) then TRANSFER_CONFIRMED else RELEASE_CONFIRMED, NO_FACTS)
  }

  predicate NeedsCourier(o: Order, goal: Status) { o.status.OPEN? && !Released(goal) && !goal.EXPIRED? }

  function Towards(id: OrderId, o: Order, goal: Status): Step {
    if NeedsCourier(o, goal) then Takes(id, o.requester + 1, o.version, false)
    else var (actor, action, facts) := Command(o, goal); Acts(id, actor, action, facts, None, NoPatch)
  }

  lemma CommandIsAccepted(o: Order, goal: Status)
    requires Tidy(o) && Ahead(o, goal) && o.status != goal && !NeedsCourier(o, goal)
    ensures var (actor, action, facts) := Command(o, goal);
            var d := Decide(o.status, action, Resolve(o, actor), facts, o.releaseReason);
            && d.Some? && Ahead(Moved(o, action, d.value), goal) && Distance(d.value.to, goal) < Distance(o.status, goal)
  {
    match o.status
    case PENDING_CREDIT =>
    case OPEN =>
    case ACCEPTED =>
    case PICKED_UP =>
    case DELIVERED =>
    case DISPUTED =>
    case _ =>
  }

  lemma TowardsIsNearer(s: OrderState, id: OrderId, goal: Status)
    requires Kept(s) && id in s.orders && Ahead(s.orders[id], goal) && s.orders[id].status != goal
    ensures var after := Next(s, Towards(id, s.orders[id], goal));
            && id in after.orders && Ahead(after.orders[id], goal)
            && Distance(after.orders[id].status, goal) < Distance(s.orders[id].status, goal)
  {
    var o := s.orders[id];
    if !NeedsCourier(o, goal) {
      var (actor, action, facts) := Command(o, goal);
      CommandIsAccepted(o, goal);
      ActKeeps(s, id, actor, action, facts, None, NoPatch);
    }
  }

  lemma {:induction false} PathTo(s: OrderState, id: OrderId, goal: Status) returns (steps: seq<Step>)
    requires Kept(s) && id in s.orders && Ahead(s.orders[id], goal)
    ensures id in Run(s, steps).orders && Run(s, steps).orders[id].status == goal
    decreases if id in s.orders then Distance(s.orders[id].status, goal) else 0
  {
    if s.orders[id].status == goal {
      steps := [];
    } else {
      var step := Towards(id, s.orders[id], goal);
      TowardsIsNearer(s, id, goal);
      StepKeeps(s, step);
      var rest := PathTo(Next(s, step), id, goal);
      steps := [step] + rest;
      assert steps[1..] == rest;
    }
  }

  predicate ComesTo(s: OrderState, more: seq<Step>, id: OrderId, goal: Status) {
    id in Run(s, more).orders && Run(s, more).orders[id].status == goal
  }

  /** In every reachable state an errand can still come to exactly the statuses ahead of it: one that was
      picked up never opens again or expires, and every errand can still be settled. One that is settled
      never changes in any column. */
  lemma ComesExactlyTo(steps: seq<Step>, id: OrderId, goal: Status)
    requires id in Run(NOTHING, steps).orders
    ensures var s := Run(NOTHING, steps);
            && ((exists more :: ComesTo(s, more, id, goal)) <==> Ahead(s.orders[id], goal))
            && (exists more, final :: IsFinal(final) && ComesTo(s, more, id, final))
            && (IsFinal(s.orders[id].status) ==>
                  forall more :: id in Run(s, more).orders && Run(s, more).orders[id] == s.orders[id])
  {
    var s := Run(NOTHING, steps);
    var o := s.orders[id];
    assert Kept(NOTHING);
    RunKeeps(NOTHING, steps);
    forall more ensures id in Run(s, more).orders && Ahead(o, Run(s, more).orders[id].status)
                ensures IsFinal(o.status) ==> Run(s, more).orders[id] == o
    {
      RunAhead(s, more, id);
    }
    if Ahead(o, goal) {
      var path := PathTo(s, id, goal);
      assert ComesTo(s, path, id, goal);
    }
    var final := if IsFinal(o.status) then o.status else if Ahead(o, COMPLETED) then COMPLETED
                 else if Ahead(o, CANCELLED) then CANCELLED else EXPIRED;
    var path := PathTo(s, id, final);
    assert ComesTo(s, path, id, final);
  }

  // ----- what an errand can come to again

  /** How often a run brings an errand to a status. */
  function Entries(s: OrderState, steps: seq<Step>, id: OrderId, status: Status): nat
    decreases |steps|
  {
    if steps == [] then 0
    else
      (if Enters(s, Next(s, steps[0]), id, status) then 1 else 0)
      + Entries(Next(s, steps[0]), steps[1..], id, status)
  }

  predicate Enters(s: OrderState, after: OrderState, id: OrderId, status: Status) {
    id in after.orders && after.orders[id].status == status && (id !in s.orders || after.orders[id] != s.orders[id])
  }

  predicate Recurs(status: Status) { status.OPEN? || status.ACCEPTED? || status.DISPUTED? }

  /** The errand is in this status, or has it no longer ahead. */
  predicate Behind(s: OrderState, id: OrderId, status: Status) {
    id in s.orders && (s.orders[id].status == status || !Ahead(s.orders[id], status))
  }

  lemma StepEntersOnce(s: OrderState, step: Step, id: OrderId, status: Status)
    requires !Recurs(status)
    ensures Behind(s, id, status) ==> Behind(Next(s, step), id, status) && !Enters(s, Next(s, step), id, status)
    ensures Enters(s, Next(s, step), id, status) ==> Behind(Next(s, step), id, status)
  {
    if id in s.orders {
      StepIsOnward(s, step, id, status);
    }
  }

  lemma {:induction false} EntersOnce(s: OrderState, steps: seq<Step>, id: OrderId, status: Status)
    requires !Recurs(status)
    ensures Entries(s, steps, id, status) <= if Behind(s, id, status) then 0 else 1
    decreases |steps|
  {
    if steps != [] {
      StepEntersOnce(s, steps[0], id, status);
      EntersOnce(Next(s, steps[0]), steps[1..], id, status);
    }
  }

  lemma {:induction false} Joined(s: OrderState, steps: seq<Step>, more: seq<Step>, id: OrderId, status: Status)
    ensures Run(s, steps + more) == Run(Run(s, steps), more)
    ensures Entries(s, steps + more, id, status) == Entries(s, steps, id, status) + Entries(Run(s, steps), more, id, status)
    decreases |steps|
  {
    if steps == [] {
      assert steps + more == more;
    } else {
      assert (steps + more)[1..] == steps[1..] + more;
      Joined(Next(s, steps[0]), steps[1..], more, id, status);
    }
  }

  lemma {:induction false} ArrivingEnters(s: OrderState, steps: seq<Step>, id: OrderId, goal: Status)
    requires id in s.orders && s.orders[id].status != goal && ComesTo(s, steps, id, goal)
    ensures Entries(s, steps, id, goal) >= 1
    decreases |steps|
  {
    var next := Next(s, steps[0]);
    StepIsOnward(s, steps[0], id, goal);
    if next.orders[id].status != goal {
      ArrivingEnters(next, steps[1..], id, goal);
    }
  }

  /** A step away from a status that recurs, with the status still ahead. */
  function Away(id: OrderId, o: Order): Step {
    match o.status
    case OPEN => Takes(id, o.requester + 1, o.version, false)
    case ACCEPTED => Acts(id, System, PICKUP_TIMEOUT, NO_FACTS, None, NoPatch)
    case _ => Acts(id, System, ADMIN_ASSIGNED, NO_FACTS, None, NoPatch)
  }

  lemma AwayAndBack(s: OrderState, id: OrderId)
    requires Kept(s) && id in s.orders && Recurs(s.orders[id].status)
    ensures var status, after := s.orders[id].status, Next(s, Away(id, s.orders[id]));
            && Kept(after) && id in after.orders && Ahead(after.orders[id], status)
            && if status.DISPUTED? then Enters(s, after, id, status) else after.orders[id].status != status
  {
    StepKeeps(s, Away(id, s.orders[id]));
  }

  lemma {:induction false} EntersAgain(s: OrderState, id: OrderId, status: Status, n: nat) returns (steps: seq<Step>)
    requires Kept(s) && id in s.orders && Ahead(s.orders[id], status) && Recurs(status)
    ensures Entries(s, steps, id, status) >= n
    decreases n, id in s.orders && s.orders[id].status == status
  {
    if n == 0 {
      steps := [];
    } else if s.orders[id].status == status {
      var away := Away(id, s.orders[id]);
      AwayAndBack(s, id);
      var rest := EntersAgain(Next(s, away), id, status, if status.DISPUTED? then n - 1 else n);
      steps := [away] + rest;
      assert steps[1..] == rest;
    } else {
      var path := PathTo(s, id, status);
      ArrivingEnters(s, path, id, status);
      RunKeeps(s, path);
      var rest := EntersAgain(Run(s, path), id, status, n - 1);
      Joined(s, path, rest, id, status);
      steps := path + rest;
    }
  }

  /** Some run brings an errand to a status at least `n` times. */
  ghost predicate CanEnter(status: Status, n: nat) { exists steps, id :: Entries(NOTHING, steps, id, status) >= n }

  /** A run may bring an errand to a status any number of times exactly when it is `OPEN`, `ACCEPTED` or
      `DISPUTED`. To every other status, such as `PICKED_UP`, each errand comes at most once. */
  lemma RecursExactly(status: Status)
    ensures (forall n: nat :: CanEnter(status, n)) <==> Recurs(status)
    ensures !Recurs(status) ==> forall steps, id :: Entries(NOTHING, steps, id, status) <= 1
  {
    if Recurs(status) {
      var post := Posts(0, 0, 1);
      assert Kept(NOTHING);
      StepKeeps(NOTHING, post);
      forall n: nat ensures CanEnter(status, n) {
        var rest := EntersAgain(Next(NOTHING, post), 0, status, n);
        assert ([post] + rest)[1..] == rest;
        assert Entries(NOTHING, [post] + rest, 0, status) >= n;
      }
    } else {
      forall steps, id ensures Entries(NOTHING, steps, id, status) <= 1 {
        EntersOnce(NOTHING, steps, id, status);
      }
      assert !CanEnter(status, 2);
    }
  }
}
