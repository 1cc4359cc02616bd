/** A reservation reply races its requester's suspension. The reply locks the errand and then asks the
    User Service; the suspension asks and then locks every active errand in turn. Each statement is a
    step of its own. Safety rests on two choices of the design, and on both of them. */
module SuspensionRace {
  import opened Wrappers
  import opened CreditTypes
  import opened OrderTypes
  import opened OrderHandlers
  import Service = OrderService

  /** Whether the suspension also locks errands still waiting for their reservation, and whether the
      reply takes the errand's lock before it asks. */
  datatype Design = Design(locksPending: bool, locksBeforeAsking: bool)

  datatype Reply = NotStarted | EarlyAnswer(suspended: bool) | Locked | Answered(suspended: bool)

  function ReplyOf(replies: map<OrderId, Reply>, id: OrderId): Reply {
    if id in replies then replies[id] else NotStarted
  }

  predicate HoldsLock(reply: Reply) { reply.Locked? || reply.Answered? }

  datatype Suspension = Waiting | Asked | Locking(found: set<OrderId>, held: set<OrderId>) | Committed

  /** One requester's errands, as committed; `suspended` is what the User Service would answer. */
  datatype Race = Race(errands: map<OrderId, Status>, suspended: bool, replies: map<OrderId, Reply>,
                       suspension: Suspension)
  {
    /** The row lock is held by a reply that has locked it, or by the suspension. */
    predicate Free(id: OrderId) {
      !HoldsLock(ReplyOf(replies, id)) && !(suspension.Locking? && id in suspension.held)
    }
  }

  const BEFORE := Race(map[], false, map[], Waiting)

  datatype Step =
    | Post(id: OrderId)
    | Suspend
    | ReplyLocks(id: OrderId)
    | ReplyAsks(id: OrderId)
    | ReplyCommits(id: OrderId)
    | ReplyFails(id: OrderId)
    | ReplyRejects(id: OrderId)
    | Accepts(id: OrderId)
    | Acts(id: OrderId, action: Action, actor: Actor, facts: Facts)
    | SuspensionAsks
    | SuspensionFinds
    | SuspensionLocks(id: OrderId)
    | SuspensionCommits(late: set<OrderId>)
    | SuspensionFails

  predicate Found(d: Design, status: Status) {
    (d.locksPending && status.PENDING_CREDIT?) || status.OPEN? || status.ACCEPTED? || status.PICKED_UP?
  }

  /** The rows the suspension's locking read finds, as committed when it starts. */
  function FoundIn(d: Design, errands: map<OrderId, Status>): set<OrderId> {
    set id <- errands | Found(d, errands[id])
  }

  function AfterSuspension(status: Status, late: bool): Status {
    if status.OPEN? || status.ACCEPTED? then RELEASE_PENDING_CREDIT
    else if status.PICKED_UP? && late then DISPUTED
    else status
  }

  function NoReason(status: Status): Option<ReleaseReason> {
    if status.RELEASE_PENDING_CREDIT? then Some(AsCancelled) else None
  }

  /** Of its requester's errands the race follows what the service does: which it locks, and how it leaves each. */
  lemma FollowsTheService(order: Order, user: UserId, late: bool)
    requires order.requester == user && order.courier != Some(user)
    ensures Found(AS_BUILT, order.status) <==> Service.SuspensionTouches(order, user)
    ensures AfterSuspension(order.status, late) == Service.AfterSuspension(order, user, late).status
    ensures Service.RightlySuspended(order, Service.AfterSuspension(order, user, late), user, late)
  {
    Service.SuspensionIsRight(order, user, late);
  }

  predicate Enabled(d: Design, r: Race, step: Step) {
    match step
    case Post(id) => id !in r.errands
    case Suspend => !r.suspended
    case ReplyLocks(id) =>
      id in r.errands && r.Free(id)
      && if d.locksBeforeAsking then ReplyOf(r.replies, id).NotStarted? else ReplyOf(r.replies, id).EarlyAnswer?
    case ReplyAsks(id) =>
      id in r.errands && if d.locksBeforeAsking then ReplyOf(r.replies, id).Locked? else ReplyOf(r.replies, id).NotStarted?
    case ReplyCommits(id) => id in r.errands && ReplyOf(r.replies, id).Answered?
    case ReplyFails(id) => !ReplyOf(r.replies, id).NotStarted?
    case ReplyRejects(id) => id in r.errands && r.Free(id) && r.errands[id].PENDING_CREDIT?
    case Accepts(id) => id in r.errands && r.Free(id) && r.errands[id].OPEN?
    case Acts(id, action, actor, facts) =>
      id in r.errands && r.Free(id) && !actor.CreditActor?
      && Decide(r.errands[id], action, actor, facts, NoReason(r.errands[id])).Some?
    case SuspensionAsks => r.suspension.Waiting? && r.suspended
    case SuspensionFinds => r.suspension.Asked?
    case SuspensionLocks(id) =>
      r.suspension.Locking? && id in r.suspension.found - r.suspension.held && r.Free(id)
      && forall other <- r.suspension.found - r.suspension.held :: id <= other
    case SuspensionCommits(_) => r.suspension.Locking? && r.suspension.held == r.suspension.found
    case SuspensionFails => r.suspension.Asked? || r.suspension.Locking?
  }

  function Next(d: Design, r: Race, step: Step): Race
    requires Enabled(d, r, step)
  {
    match step
    case Post(id) => r.(errands := r.errands[id := PENDING_CREDIT])
    case Suspend => r.(suspended := true)
    case ReplyLocks(id) =>
      r.(replies := r.replies[id := if d.locksBeforeAsking then Locked else Answered(ReplyOf(r.replies, id).suspended)])
    case ReplyAsks(id) =>
      var answer := r.errands[id].PENDING_CREDIT? && r.suspended;
      r.(replies := r.replies[id := if d.locksBeforeAsking then Answered(answer) else EarlyAnswer(answer)])
    case ReplyCommits(id) =>
      var facts := NO_FACTS.(requesterSuspended := ReplyOf(r.replies, id).suspended);
      var decision := Decide(r.errands[id], CREDIT_RESERVED, CreditActor, facts, None);
      r.(errands := if decision.Some? then r.errands[id := decision.value.to] else r.errands,
         replies := r.replies[id := NotStarted])
    case ReplyFails(id) => r.(replies := r.replies[id := NotStarted])
    case ReplyRejects(id) => r.(errands := r.errands[id := REJECTED])
    case Accepts(id) => r.(errands := r.errands[id := ACCEPTED])
    case Acts(id, action, actor, facts) =>
      r.(errands := r.errands[id := Decide(r.errands[id], action, actor, facts, NoReason(r.errands[id])).value.to])
    case SuspensionAsks => r.(suspension := Asked)
    case SuspensionFinds => r.(suspension := Locking(FoundIn(d, r.errands), {}))
    case SuspensionLocks(id) => r.(suspension := Locking(r.suspension.found, r.suspension.held + {id}))
    case SuspensionCommits(late) =>
      r.(errands := map id <- r.errands ::
           if id in r.suspension.held then AfterSuspension(r.errands[id], id in late) else r.errands[id],
         suspension := Committed)
    case SuspensionFails => r.(suspension := Waiting)
  }

  predicate Runs(d: Design, r: Race, steps: seq<Step>)
    decreases |steps|
  {
    steps == [] || (Enabled(d, r, steps[0]) && Runs(d, Next(d, r, steps[0]), steps[1..]))
  }

  function End(d: Design, r: Race, steps: seq<Step>): Race
    requires Runs(d, r, steps)
    decreases |steps|
  {
    if steps == [] then r else End(d, Next(d, r, steps[0]), steps[1..])
  }

  /** Once the suspension has been handled, the requester has nothing open or accepted. */
  predicate Safe(r: Race) {
    r.suspension.Committed? ==> forall id <- r.errands :: !r.errands[id].OPEN? && !r.errands[id].ACCEPTED?
  }

  ghost predicate SafeDesign(d: Design) { forall steps | Runs(d, BEFORE, steps) :: Safe(End(d, BEFORE, steps)) }

  // ----- the design as built is safe

  /** A reply that asked before the suspension may still open its errand. */
  predicate MayOpen(r: Race, id: OrderId) {
    id in r.errands && r.errands[id].PENDING_CREDIT? && ReplyOf(r.replies, id).Answered? && !ReplyOf(r.replies, id).suspended
  }

  predicate Active(r: Race, id: OrderId) { id in r.errands && (r.errands[id].OPEN? || r.errands[id].ACCEPTED?) }

  ghost predicate RaceInv(r: Race) {
    && (!r.suspension.Waiting? ==> r.suspended)
    && (forall id :: HoldsLock(ReplyOf(r.replies, id)) ==> id in r.errands)
    && (forall id :: !ReplyOf(r.replies, id).EarlyAnswer?)
    && match r.suspension
       case Locking(found, held) =>
         && held <= found
         && (forall id | Active(r, id) :: id in found)
         && (forall id | MayOpen(r, id) :: id in found)
         && (forall id <- held :: !HoldsLock(ReplyOf(r.replies, id)))
       case Committed => forall id :: !Active(r, id) && !MayOpen(r, id)
       case _ => true
  }

  const AS_BUILT := Design(true, true)

  lemma StepKeeps(r: Race, step: Step)
    requires RaceInv(r) && Enabled(AS_BUILT, r, step)
    ensures RaceInv(Next(AS_BUILT, r, step))
  {
    var after := Next(AS_BUILT, r, step);
    forall id: OrderId
      ensures Active(after, id) ==> Active(r, id) || MayOpen(r, id)
      ensures MayOpen(after, id) ==> MayOpen(r, id) || !r.suspended
      ensures ReplyOf(after.replies, id).EarlyAnswer? ==> ReplyOf(r.replies, id).EarlyAnswer?
    {
    }
  }

  lemma {:induction false} RunKeeps(r: Race, steps: seq<Step>)
    requires RaceInv(r) && Runs(AS_BUILT, r, steps)
    ensures RaceInv(End(AS_BUILT, r, steps))
    decreases |steps|
  {
    if steps != [] {
      StepKeeps(r, steps[0]);
      RunKeeps(Next(AS_BUILT, r, steps[0]), steps[1..]);
    }
  }

  // ----- and no other design is

  lemma {:induction false} RunsSnoc(d: Design, r: Race, steps: seq<Step>, step: Step)
    requires Runs(d, r, steps) && Enabled(d, End(d, r, steps), step)
    ensures Runs(d, r, steps + [step]) && End(d, r, steps + [step]) == Next(d, End(d, r, steps), step)
    decreases |steps|
  {
    if steps == [] {
      assert [] + [step] == [step];
    } else {
      RunsSnoc(d, Next(d, r, steps[0]), steps[1..], step);
      assert (steps + [step])[1..] == steps[1..] + [step];
    }
  }

  lemma Then(d: Design, steps: seq<Step>, step: Step, race: Race) returns (longer: seq<Step>)
    requires Runs(d, BEFORE, steps) && Enabled(d, End(d, BEFORE, steps), step)
    requires Next(d, End(d, BEFORE, steps), step) == race
    ensures Runs(d, BEFORE, longer) && End(d, BEFORE, longer) == race
  {
    RunsSnoc(d, BEFORE, steps, step);
    longer := steps + [step];
  }

  const ONE_WAITING: map<OrderId, Status> := map[0 := PENDING_CREDIT]

  /** The reply to the only errand has asked, in time to hear that its requester is active. */
  function AskedEarly(d: Design): Reply { if d.locksBeforeAsking then Answered(false) else EarlyAnswer(false) }

  lemma ReplyAsksFirst(d: Design) returns (steps: seq<Step>)
    ensures Runs(d, BEFORE, steps)
    ensures End(d, BEFORE, steps) == Race(ONE_WAITING, false, map[0 := AskedEarly(d)], Waiting)
  {
    steps := Then(d, [], Post(0), Race(ONE_WAITING, false, map[], Waiting));
    if d.locksBeforeAsking {
      steps := Then(d, steps, ReplyLocks(0), Race(ONE_WAITING, false, map[0 := Locked], Waiting));
    }
    steps := Then(d, steps, ReplyAsks(0), Race(ONE_WAITING, false, map[0 := AskedEarly(d)], Waiting));
  }

  lemma SuspensionStarts(d: Design) returns (steps: seq<Step>)
    requires d != AS_BUILT
    ensures Runs(d, BEFORE, steps)
    ensures End(d, BEFORE, steps)
         == Race(ONE_WAITING, true, map[0 := AskedEarly(d)], Locking(if d.locksPending then {0} else {}, {}))
  {
    var replies := map[0 := AskedEarly(d)];
    assert FoundIn(d, ONE_WAITING) == if d.locksPending then {0} else {};
    steps := ReplyAsksFirst(d);
    steps := Then(d, steps, Suspend, Race(ONE_WAITING, true, replies, Waiting));
    steps := Then(d, steps, SuspensionAsks, Race(ONE_WAITING, true, replies, Asked));
    steps := Then(d, steps, SuspensionFinds,
                  Race(ONE_WAITING, true, replies, Locking(FoundIn(d, ONE_WAITING), {})));
  }

  lemma SuspensionPassesBy(d: Design) returns (steps: seq<Step>)
    requires d != AS_BUILT
    ensures Runs(d, BEFORE, steps)
    ensures End(d, BEFORE, steps) == Race(ONE_WAITING, true, map[0 := AskedEarly(d)], Committed)
  {
    var replies := map[0 := AskedEarly(d)];
    steps := SuspensionStarts(d);
    if d.locksPending {
      var none: set<OrderId> := {};
      assert none + {0} == {0};
      steps := Then(d, steps, SuspensionLocks(0), Race(ONE_WAITING, true, replies, Locking({0}, {0})));
    }
    steps := Then(d, steps, SuspensionCommits({}), Race(ONE_WAITING, true, replies, Committed));
  }

  /** The suspension passes the waiting errand by, and the reply opens it on its old answer. */
  lemma UnsafeRun(d: Design) returns (steps: seq<Step>)
    requires d != AS_BUILT
    ensures Runs(d, BEFORE, steps) && !Safe(End(d, BEFORE, steps))
  {
    steps := SuspensionPassesBy(d);
    if !d.locksBeforeAsking {
      steps := Then(d, steps, ReplyLocks(0), Race(ONE_WAITING, true, map[0 := Answered(false)], Committed));
    }
    var last := Race(map[0 := OPEN], true, map[0 := NotStarted], Committed);
    steps := Then(d, steps, ReplyCommits(0), last);
    assert 0 in last.errands && last.errands[0].OPEN?;
  }

  /** Of the four designs, exactly the one that was built leaves nothing open. */
  lemma SafeExactlyAsBuilt(d: Design)
    ensures SafeDesign(d) <==> d.locksPending && d.locksBeforeAsking
  {
    if d == AS_BUILT {
      forall steps | Runs(d, BEFORE, steps) ensures Safe(End(d, BEFORE, steps)) {
        RunKeeps(BEFORE, steps);
        var last := End(d, BEFORE, steps);
        forall id | last.suspension.Committed? && id in last.errands
          ensures !last.errands[id].OPEN? && !last.errands[id].ACCEPTED?
        {
          assert !Active(last, id);
        }
      }
    } else {
      var steps := UnsafeRun(d);
    }
  }
}
