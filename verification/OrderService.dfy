/** The Order Service's consumers and its reconciler, as they run over its tables. */
module OrderService {
  import opened Sets
  import opened Wrappers
  import opened CreditTypes
  import opened OrderTypes
  import opened OrderHandlers
  import Life = OrderTransitions
  import Causes = OrderCauses

  /** The counters a reconciliation run reports. */
  datatype Metrics = Metrics(reissued: nat, alerted: nat, creditUnavailable: nat, skipped: nat)

  /** One candidate, with what the run learns about it: Credit's status, if Credit answers, and whether
      the errand's row is free to lock and outside the retry window. */
  datatype Attempt = Attempt(seen: Candidate, credit: Option<Ledger.CreditStatus>, free: bool)

  function Reconciled(s: OrderState, a: Attempt): Option<OrderState>
    requires WaitsOnCredit(a.seen.status)
  {
    if a.free then RecordReconciliation(s, a.seen, ActionFor(a.seen, a.credit)) else None
  }

  function Reconcile(s: OrderState, attempts: seq<Attempt>): OrderState
    requires forall a <- attempts :: WaitsOnCredit(a.seen.status)
  {
    if attempts == [] then s
    else
      var before := Reconcile(s, attempts[..|attempts| - 1]);
      var recorded := Reconciled(before, attempts[|attempts| - 1]);
      if recorded.Some? then recorded.value else before
  }

  // ----- what becomes of a candidate

  datatype Outcome = Reissued | Alerted | NotAnswered | Passed

  /** Credit's records that an errand waiting with this status may meet. */
  predicate MayMeet(status: Status, credit: Ledger.CreditStatus) {
    match status
    case PENDING_CREDIT => credit.NONE? || credit.RESERVED?
    case COMPLETION_PENDING_CREDIT => credit.RESERVED? || credit.TRANSFERRED?
    case RELEASE_PENDING_CREDIT => credit.RESERVED? || credit.RELEASED?
    case _ => false
  }

  /** The errand is free and still as it was read. */
  predicate IsCurrent(orders: map<OrderId, Order>, a: Attempt) {
    a.free && a.seen.order in orders
    && orders[a.seen.order].status == a.seen.status && orders[a.seen.order].version == a.seen.version
  }

  /** Passed over unless it is current; else its request goes out again if Credit's record may be met, it is
      alerted if not, and counted if Credit did not answer. */
  function OutcomeOf(orders: map<OrderId, Order>, a: Attempt): Outcome {
    if !IsCurrent(orders, a) then Passed
    else if a.credit.None? then NotAnswered
    else if MayMeet(a.seen.status, a.credit.value) then Reissued
    else Alerted
  }

  function CountOf(orders: map<OrderId, Order>, attempts: seq<Attempt>, outcome: Outcome): nat {
    if attempts == [] then 0
    else
      CountOf(orders, attempts[..|attempts| - 1], outcome)
      + if OutcomeOf(orders, attempts[|attempts| - 1]) == outcome then 1 else 0
  }

  /** The requests that go out again, in order: of each errand the last thing it has asked of Credit. */
  function RequestsOf(orders: map<OrderId, Order>, attempts: seq<Attempt>): seq<Request> {
    if attempts == [] then []
    else
      var a := attempts[|attempts| - 1];
      RequestsOf(orders, attempts[..|attempts| - 1])
      + if OutcomeOf(orders, a) == Reissued then [LastAsked(a.seen.order, orders[a.seen.order])] else []
  }

  function LastAsked(id: OrderId, o: Order): Request {
    var asked := Life.Asked(id, o); asked[|asked| - 1]
  }

  /** Recording one decision writes this, of an errand kept as every run keeps it. */
  lemma ReconciledIs(s: OrderState, a: Attempt)
    requires WaitsOnCredit(a.seen.status) && AllTidy(s.orders)
    ensures var r := Reconciled(s, a); var outcome := OutcomeOf(s.orders, a);
            && (r.None? <==> outcome == Passed)
            && (outcome == Reissued ==> r.value == s.(outbox := s.outbox + [LastAsked(a.seen.order, s.orders[a.seen.order])]))
            && (outcome == Alerted ==> r.value == s.(conflicts := s.conflicts + {a.seen.order}))
            && (outcome == NotAnswered ==> r.value == s)
  {}

  function AlertedOf(orders: map<OrderId, Order>, attempts: seq<Attempt>): set<OrderId> {
    set a <- attempts | OutcomeOf(orders, a) == Alerted :: a.seen.order
  }

  lemma AlertedOn(orders: map<OrderId, Order>, before: seq<Attempt>, a: Attempt)
    ensures AlertedOf(orders, before + [a])
         == AlertedOf(orders, before) + if OutcomeOf(orders, a) == Alerted then {a.seen.order} else {}
  {}

  /** What a run adds to its counters for each attempt. */
  function Tallied(s: OrderState, attempts: seq<Attempt>): Metrics
    requires forall a <- attempts :: WaitsOnCredit(a.seen.status)
  {
    if attempts == [] then Metrics(0, 0, 0, 0)
    else
      var a := attempts[|attempts| - 1];
      var m := Tallied(s, attempts[..|attempts| - 1]);
      if Reconciled(Reconcile(s, attempts[..|attempts| - 1]), a).None? then m.(skipped := m.skipped + 1)
      else match ActionFor(a.seen, a.credit)
        case REISSUE => m.(reissued := m.reissued + 1)
        case ALERT => m.(alerted := m.alerted + 1)
        case CREDIT_UNAVAILABLE => m.(creditUnavailable := m.creditUnavailable + 1)
  }

  predicate AllTidy(orders: map<OrderId, Order>) { forall id <- orders :: Life.Tidy(orders[id]) }

  predicate LeavesAttempts(s: OrderState, after: OrderState, attempts: seq<Attempt>) {
    && after.orders == s.orders && after.receipts == s.receipts
    && after.outbox == s.outbox + RequestsOf(s.orders, attempts)
    && after.conflicts == s.conflicts + AlertedOf(s.orders, attempts)
  }

  lemma AttemptLeaves(s: OrderState, mid: OrderState, before: seq<Attempt>, a: Attempt)
    requires WaitsOnCredit(a.seen.status) && AllTidy(s.orders) && LeavesAttempts(s, mid, before)
    ensures var r := Reconciled(mid, a); LeavesAttempts(s, if r.Some? then r.value else mid, before + [a])
  {
    ReconciledIs(mid, a);
    AlertedOn(s.orders, before, a);
    assert (before + [a])[..|before|] == before;
  }

  /** A run of the reconciler moves no errand: it sends again, in order, the last request of each candidate that
      is current and whose record may be met, and alerts exactly those whose record may not; and its counters
      are the numbers of candidates with each outcome. */
  lemma {:induction false} ReconcileIs(s: OrderState, attempts: seq<Attempt>)
    requires (forall a <- attempts :: WaitsOnCredit(a.seen.status)) && AllTidy(s.orders)
    ensures LeavesAttempts(s, Reconcile(s, attempts), attempts)
    ensures Tallied(s, attempts)
         == Metrics(CountOf(s.orders, attempts, Reissued), CountOf(s.orders, attempts, Alerted),
                    CountOf(s.orders, attempts, NotAnswered), CountOf(s.orders, attempts, Passed))
  {
    if attempts == [] {
      assert AlertedOf(s.orders, attempts) == {};
    } else {
      var before, a := attempts[..|attempts| - 1], attempts[|attempts| - 1];
      assert attempts == before + [a];
      ReconcileIs(s, before);
      AttemptLeaves(s, Reconcile(s, before), before, a);
      ReconciledIs(Reconcile(s, before), a);
    }
  }

  // ----- suspensions

  predicate SuspensionTouches(order: Order, user: UserId) {
    || (order.requester == user
        && (order.status.PENDING_CREDIT? || order.status.OPEN? || order.status.ACCEPTED? || order.status.PICKED_UP?))
    || (order.courier == Some(user) && (order.status.ACCEPTED? || order.status.PICKED_UP?))
  }

  /** What a suspension tries on an errand: nothing on one still waiting for its reservation. */
  function SuspensionAction(order: Order, asRequester: bool): Option<Action> {
    match order.status
    case OPEN => if asRequester then Some(REQUESTER_SUSPENDED) else None
    case ACCEPTED => Some(if asRequester then REQUESTER_SUSPENDED else COURIER_SUSPENDED)
    case PICKED_UP => Some(if asRequester then DELIVERY_PERIOD_PASSED else COURIER_SUSPENDED)
    case _ => None
  }

  /** The errand after its participant's suspension; `late` says its delivery period has passed. */
  function Suspended(order: Order, user: UserId, late: bool): Order {
    var asRequester := order.requester == user;
    var action := SuspensionAction(order, asRequester);
    if action.None? then order
    else
      var facts := NO_FACTS.(requesterSuspended := asRequester, deliveryPeriodPassed := late);
      var decision := Decide(order.status, action.value, SystemActor, facts, order.releaseReason);
      if decision.None? then order else Moved(order, action.value, decision.value)
  }

  function AfterSuspension(order: Order, user: UserId, late: bool): Order {
    if SuspensionTouches(order, user) then Suspended(order, user, late) else order
  }

  // ----- what a suspension is to do

  predicate CalledOff(order: Order, user: UserId) {
    order.requester == user && (order.status.OPEN? || order.status.ACCEPTED?)
  }

  /** Of the suspended user's own errands, those open or accepted are called off and those picked up disputed
      once they are late; of those they run for others, the accepted open again without a courier and the
      picked up are disputed. Nothing else of these changes, and nothing of any other errand. */
  predicate RightlySuspended(before: Order, after: Order, user: UserId, late: bool) {
    if CalledOff(before, user) then
      after == before.(status := RELEASE_PENDING_CREDIT, releaseReason := Some(AsCancelled), version := before.version + 1)
    else if before.requester == user then
      after == if before.status.PICKED_UP? && late then before.(status := DISPUTED, version := before.version + 1) else before
    else if before.courier == Some(user) && before.status.ACCEPTED? then
      after == before.(status := OPEN, courier := None, version := before.version + 1)
    else if before.courier == Some(user) && before.status.PICKED_UP? then
      after == before.(status := DISPUTED, version := before.version + 1)
    else after == before
  }

  lemma SuspensionIsRight(order: Order, user: UserId, late: bool)
    ensures RightlySuspended(order, AfterSuspension(order, user, late), user, late)
  {}

  /** A picked-up errand of a suspended requester that is not yet late is marked, to be asked about again. */
  predicate IsMarked(order: Order, user: UserId, late: bool) { order.requester == user && order.status.PICKED_UP? && !late }

  function AskedBackOf(order: Order, id: OrderId, user: UserId): seq<Request> {
    if CalledOff(order, user) then [ReleaseRequested(id, user, order.reward)] else []
  }

  /** The rewards asked back for those of the errands that are called off, in order. */
  function AskedBack(orders: map<OrderId, Order>, ids: seq<OrderId>, user: UserId): seq<Request>
    requires forall id <- ids :: id in orders
  {
    if ids == [] then []
    else
      var id := ids[|ids| - 1];
      AskedBack(orders, ids[..|ids| - 1], user) + AskedBackOf(orders[id], id, user)
  }

  function SuspensionSteps(order: Order, id: OrderId, user: UserId, late: bool): seq<Life.Step> {
    var asRequester := order.requester == user;
    var action := SuspensionAction(order, asRequester);
    if action.None? then []
    else
      var facts := NO_FACTS.(requesterSuspended := asRequester, deliveryPeriodPassed := late);
      [Life.Acts(id, System, action.value, facts, None, NoPatch)]
  }

  class OrderDatabase {
    var orders: map<OrderId, Order>
    var outbox: seq<Request>
    var receipts: map<OrderId, TxId>
    var conflicts: set<OrderId>
    /** Picked-up errands whose requester was suspended within the delivery period. */
    var marked: set<OrderId>

    constructor ()
      ensures Tables() == OrderState(map[], [], map[], {}) && marked == {}
    {
      orders, outbox, receipts, conflicts, marked := map[], [], map[], {}, {};
    }

    function Tables(): OrderState
      reads this
    {
      OrderState(orders, outbox, receipts, conflicts)
    }

    /** Decides under the row lock, then writes the row and the request it emits. */
    method Transition(id: OrderId, actor: CommandActor, action: Action, facts: Facts, expected: Option<nat>, patch: Patch)
      returns (applied: bool, failed: bool)
      modifies this`orders, this`outbox
      ensures var t := OrderTypes.Transition(old(Tables()), id, actor, action, facts, expected, patch);
              && (applied <==> t.Applied?) && (failed <==> t.CourierMissing?)
              && Tables() == if t.Applied? then t.after else old(Tables())
    {
      applied, failed := false, false;
      if id !in orders { return; }
      var order := orders[id];
      var decision := Decide(order.status, action, Resolve(order, actor), facts, order.releaseReason);
      if decision.None? { return; }
      if expected.Some? && expected.value != order.version { return; }
      var next := Patched(Moved(order, action, decision.value), patch);
      orders := orders[id := next];
      if !decision.value.emits.NoRequest? {
        var request := CreditRequest(id, next);
        if request.None? {
          orders := orders[id := order];
          return false, true;
        }
        outbox := outbox + [request.value];
      }
      applied := true;
    }

    method HandleReservationResult(reply: Reply, suspended: bool) returns (h: Handled)
      requires reply.CreditsReserved? || reply.ReservationRejected?
      modifies this`orders, this`outbox
      ensures (h, Tables()) == HandleReply(old(Tables()), reply, suspended)
    {
      if reply.order !in orders { return DeadLettered; }
      var order := orders[reply.order];
      if order.requester != reply.requester || order.reward != reply.amount { return DeadLettered; }
      var applied, failed;
      if reply.CreditsReserved? {
        var requesterSuspended := order.status.PENDING_CREDIT? && suspended;
        applied, failed := Transition(reply.order, CreditService, CREDIT_RESERVED,
                                      NO_FACTS.(requesterSuspended := requesterSuspended), None, NoPatch);
      } else {
        applied, failed := Transition(reply.order, CreditService, CREDIT_REJECTED, NO_FACTS, None,
                                      WithRejection(reply.reason, reply.available));
      }
      if applied { return Acknowledged(true); }
      if failed { return Failed; }
      var repeats := if reply.CreditsReserved? then !order.status.REJECTED?
                     else order.status.REJECTED? && order.rejection == Some((reply.reason, reply.available));
      if !repeats { return DeadLettered; }
      if reply.CreditsReserved? && order.reservedAt.Some? && order.version > order.reservedAt.value {
        return Stale;
      }
      return Acknowledged(false);
    }

    method HandleTransfer(paid: TransferResult) returns (h: Handled)
      modifies this`orders, this`outbox, this`receipts
      ensures (h, Tables()) == HandleTransferred(old(Tables()), paid)
    {
      var before := Tables();
      var applied, failed := Transition(paid.order, CreditService, TRANSFER_CONFIRMED, NO_FACTS, None,
                                        WithTransaction(paid.txId));
      if applied {
        if !TransferMatches(before.orders[paid.order], paid) {
          orders, outbox := before.orders, before.outbox;
          return DeadLettered;
        }
        receipts := receipts[paid.order := paid.txId];
        return Acknowledged(true);
      }
      if failed { return Failed; }
      var duplicate := paid.order in orders && orders[paid.order].status.COMPLETED?
                       && orders[paid.order].creditTransaction == Some(paid.txId)
                       && TransferMatches(orders[paid.order], paid);
      return if duplicate then Acknowledged(false) else DeadLettered;
    }

    method HandleRelease(returned: ReleaseResult) returns (h: Handled)
      modifies this`orders, this`outbox
      ensures (h, Tables()) == HandleReleased(old(Tables()), returned)
    {
      var before := Tables();
      var applied, failed := Transition(returned.order, CreditService, RELEASE_CONFIRMED, NO_FACTS, None,
                                        WithTransaction(returned.txId));
      if applied {
        if !ReleaseMatches(before.orders[returned.order], returned) {
          orders, outbox := before.orders, before.outbox;
          return DeadLettered;
        }
        return Acknowledged(true);
      }
      if failed { return Failed; }
      var duplicate := returned.order in orders
                       && (orders[returned.order].status.CANCELLED? || orders[returned.order].status.EXPIRED?)
                       && orders[returned.order].creditTransaction == Some(returned.txId)
                       && ReleaseMatches(orders[returned.order], returned);
      return if duplicate then Acknowledged(false) else DeadLettered;
    }

    /** Records one decision; false when the errand is not free or has moved on since it was read. */
    method Record(a: Attempt, action: ReconcileAction) returns (recorded: bool)
      modifies this`outbox, this`conflicts
      ensures var r := if a.free then RecordReconciliation(old(Tables()), a.seen, action) else None;
              && (recorded <==> r.Some?)
              && Tables() == if r.Some? then r.value else old(Tables())
    {
      if !a.free || a.seen.order !in orders { return false; }
      var order := orders[a.seen.order];
      if order.status != a.seen.status || order.version != a.seen.version { return false; }
      match action {
        case REISSUE =>
          var request := CreditRequest(a.seen.order, order);
          if request.None? { return false; }
          outbox := outbox + [request.value];
        case ALERT => conflicts := conflicts + {a.seen.order};
        case CREDIT_UNAVAILABLE =>
      }
      return true;
    }

    /** One run over its candidates: every one is counted once, and no errand is moved. */
    method RunReconciler(attempts: seq<Attempt>) returns (m: Metrics)
      requires forall a <- attempts :: WaitsOnCredit(a.seen.status)
      modifies this`outbox, this`conflicts
      ensures Tables() == Reconcile(old(Tables()), attempts)
      ensures m.reissued + m.alerted + m.creditUnavailable + m.skipped == |attempts|
      ensures |outbox| == |old(outbox)| + m.reissued && old(outbox) <= outbox
      ensures m.alerted == 0 ==> conflicts == old(conflicts)
      ensures m == Tallied(old(Tables()), attempts)
    {
      m := Metrics(0, 0, 0, 0);
      ghost var was := Tables();
      for i := 0 to |attempts|
        invariant Tables() == Reconcile(old(Tables()), attempts[..i])
        invariant m.reissued + m.alerted + m.creditUnavailable + m.skipped == i
        invariant |outbox| == |old(outbox)| + m.reissued && old(outbox) <= outbox
        invariant m.alerted == 0 ==> conflicts == old(conflicts)
        invariant m == Tallied(was, attempts[..i])
      {
        var a := attempts[i];
        assert a in attempts;
        assert attempts[..i + 1][..i] == attempts[..i] && attempts[..i + 1][i] == a;
        var action := if a.credit.None? then CREDIT_UNAVAILABLE
                      else ReconciliationDecision(a.seen.status, a.credit.value);
        var recorded := Record(a, action);
        if !recorded {
          m := m.(skipped := m.skipped + 1);
        } else {
          match action {
            case REISSUE => m := m.(reissued := m.reissued + 1);
            case ALERT => m := m.(alerted := m.alerted + 1);
            case CREDIT_UNAVAILABLE => m := m.(creditUnavailable := m.creditUnavailable + 1);
          }
        }
      }
      assert attempts[..|attempts|] == attempts;
    }

    /** The errands a suspension can change, locked in identifier order. */
    method LockActiveErrandsOf(user: UserId) returns (ids: seq<OrderId>)
      ensures forall id :: id in ids <==> id in orders && SuspensionTouches(orders[id], user)
      ensures forall i, j | 0 <= i < j < |ids| :: ids[i] < ids[j]
    {
      ids := [];
      var rest := set id <- orders | SuspensionTouches(orders[id], user);
      while rest != {}
        invariant forall id :: id in ids || id in rest <==> id in orders && SuspensionTouches(orders[id], user)
        invariant forall id <- ids, other <- rest :: id < other
        invariant forall i, j | 0 <= i < j < |ids| :: ids[i] < ids[j]
        decreases rest
      {
        var least := Least(rest);
        forall k | 0 <= k < |ids| ensures ids[k] < least { assert ids[k] in ids; }
        ids := ids + [least];
        rest := rest - {least};
      }
    }

    method SuspendOne(id: OrderId, user: UserId, late: bool) returns (applied: bool)
      requires id in orders
      modifies this`orders, this`outbox, this`marked
      ensures Tables() == Life.Run(old(Tables()), SuspensionSteps(old(orders)[id], id, user, late))
      ensures marked == old(marked) + if IsMarked(old(orders)[id], user, late) then {id} else {}
      ensures applied <==> Suspended(old(orders)[id], user, late) != old(orders)[id]
    {
      var order := orders[id];
      var asRequester := order.requester == user;
      var action := SuspensionAction(order, asRequester);
      applied := false;
      if action.Some? {
        var facts := NO_FACTS.(requesterSuspended := asRequester, deliveryPeriodPassed := late);
        var failed;
        applied, failed := Transition(id, System, action.value, facts, None, NoPatch);
        if !applied && asRequester && order.status.PICKED_UP? {
          marked := marked + {id};
        }
        OneStep(old(Tables()), SuspensionSteps(old(orders)[id], id, user, late));
      }
    }

    /** The errands before have been suspended since `was`, marked as they had to be, and counted. */
    ghost predicate Handled(was: OrderState, marks: set<OrderId>, before: seq<OrderId>, changed: nat, user: UserId,
                            late: set<OrderId>)
      reads this
    {
      && SuspendedSoFar(was, Tables(), before, user, late)
      && marked == marks + MarkedOf(was.orders, before, user, late) && changed == |ChangedOf(was.orders, before, user, late)|
    }

    method SuspendNext(id: OrderId, user: UserId, late: set<OrderId>, changed: nat, ghost was: OrderState,
                       ghost marks: set<OrderId>, ghost before: seq<OrderId>)
      returns (changedNow: nat)
      requires Handled(was, marks, before, changed, user, late) && id in was.orders && id !in before
      modifies this`orders, this`outbox, this`marked
      ensures Handled(was, marks, before + [id], changedNow, user, late)
    {
      SuspendedOn(was, Tables(), before, id, user, late);
      MarkedOn(was.orders, before, id, user, late);
      var applied := SuspendOne(id, user, id in late);
      changedNow := if applied then changed + 1 else changed;
    }

    /** Each of the errands by its own rule. */
    method SuspendAll(ids: seq<OrderId>, user: UserId, late: set<OrderId>) returns (changed: nat)
      requires (forall id <- ids :: id in orders) && Distinct(ids)
      modifies this`orders, this`outbox, this`marked
      ensures Handled(old(Tables()), old(marked), ids, changed, user, late)
    {
      changed := 0;
      ghost var was, marks := Tables(), marked;
      NoneSuspended(was, user, late);
      assert Handled(was, marks, [], changed, user, late) && ids[..0] == [];
      for i := 0 to |ids|
        invariant Handled(was, marks, ids[..i], changed, user, late)
      {
        NextOf(was.orders, ids, i);
        changed := SuspendNext(ids[i], user, late, changed, was, marks, ids[..i]);
      }
      assert ids[..|ids|] == ids;
    }

    /** A suspension message. The User Service has been asked (`suspended`); `late` holds the errands past their
        delivery period. Every errand is then as the suspension is to leave it, the rewards of those called off
        and no others are asked back, those to be asked about again and no others are marked; and the tables
        are as a run of single transitions leaves them. */
    method HandleUserSuspended(user: UserId, suspended: bool, late: set<OrderId>) returns (changed: nat)
      modifies this`orders, this`outbox, this`marked
      ensures orders.Keys == old(orders).Keys
      ensures !suspended ==> Tables() == old(Tables()) && marked == old(marked) && changed == 0
      ensures suspended ==>
                forall id <- orders :: RightlySuspended(old(orders)[id], orders[id], user, id in late)
      ensures suspended ==>
                forall id <- orders | orders[id].requester == user :: !orders[id].status.OPEN? && !orders[id].status.ACCEPTED?
      ensures suspended ==>
                forall id <- orders | orders[id].requester != user && orders[id].courier == Some(user) ::
                  !orders[id].status.ACCEPTED? && !orders[id].status.PICKED_UP?
      ensures old(outbox) <= outbox && receipts == old(receipts) && conflicts == old(conflicts)
      ensures suspended ==>
                forall m :: m in outbox[|old(outbox)|..] <==>
                  exists id :: id in old(orders) && CalledOff(old(orders)[id], user)
                               && m == ReleaseRequested(id, user, old(orders)[id].reward)
      ensures suspended ==>
                forall id :: id in marked <==>
                  id in old(marked) || (id in old(orders) && IsMarked(old(orders)[id], user, id in late))
      ensures changed == |set id <- orders | orders[id] != old(orders)[id]|
      ensures exists steps :: Tables() == Life.Run(old(Tables()), steps)
    {
      changed := 0;
      ghost var was, marks := Tables(), marked;
      if !suspended {
        assert (set id <- orders | orders[id] != was.orders[id]) == {};
        assert Tables() == Life.Run(was, []);
        return;
      }
      var ids := LockActiveErrandsOf(user);
      changed := SuspendAll(ids, user, late);
      HandledRightly(was, Tables(), ids, user, late);
      HandledMarks(was, Tables(), ids, user, late);
    }
  }

  /** Locking every errand a suspension touches, and suspending each, leaves every errand as it is to. */
  lemma HandledRightly(was: OrderState, now: OrderState, ids: seq<OrderId>, user: UserId, late: set<OrderId>)
    requires SuspendedSoFar(was, now, ids, user, late)
    requires forall id :: id in ids <==> id in was.orders && SuspensionTouches(was.orders[id], user)
    ensures now.orders.Keys == was.orders.Keys
    ensures forall id <- was.orders :: RightlySuspended(was.orders[id], now.orders[id], user, id in late)
    ensures was.outbox <= now.outbox && now.receipts == was.receipts && now.conflicts == was.conflicts
    ensures forall m :: m in now.outbox[|was.outbox|..] <==>
              exists id :: id in was.orders && CalledOff(was.orders[id], user)
                           && m == ReleaseRequested(id, user, was.orders[id].reward)
  {
    SuspendedIs(was, now, ids, user, late);
    forall id | id in was.orders ensures RightlySuspended(was.orders[id], now.orders[id], user, id in late) {
      SuspensionIsRight(was.orders[id], user, id in late);
    }
    AskedBackOfAll(was.orders, ids, user);
    assert now.outbox[|was.outbox|..] == AskedBack(was.orders, ids, user);
  }

  lemma HandledMarks(was: OrderState, now: OrderState, ids: seq<OrderId>, user: UserId, late: set<OrderId>)
    requires SuspendedSoFar(was, now, ids, user, late)
    requires forall id :: id in ids <==> id in was.orders && SuspensionTouches(was.orders[id], user)
    ensures now.orders.Keys == was.orders.Keys
    ensures MarkedOf(was.orders, ids, user, late) == set id <- was.orders | IsMarked(was.orders[id], user, id in late)
    ensures ChangedOf(was.orders, ids, user, late) == set id <- now.orders | now.orders[id] != was.orders[id]
  {
    SuspendedIs(was, now, ids, user, late);
  }

  // ----- all the errands of a suspension, one after the other

  lemma OneStep(s: OrderState, steps: seq<Life.Step>)
    requires |steps| == 1
    ensures Life.Run(s, steps) == Life.Next(s, steps[0])
  {
    assert steps[1..] == [];
  }

  predicate Distinct(ids: seq<OrderId>) { forall i, j | 0 <= i < j < |ids| :: ids[i] != ids[j] }

  lemma NextOf(orders: map<OrderId, Order>, ids: seq<OrderId>, i: nat)
    requires (forall id <- ids :: id in orders) && Distinct(ids) && i < |ids|
    ensures ids[i] in orders && ids[i] !in ids[..i] && ids[..i + 1] == ids[..i] + [ids[i]]
  {}

  function AllSteps(orders: map<OrderId, Order>, ids: seq<OrderId>, user: UserId, late: set<OrderId>): seq<Life.Step>
    requires forall id <- ids :: id in orders
  {
    if ids == [] then []
    else
      var id := ids[|ids| - 1];
      AllSteps(orders, ids[..|ids| - 1], user, late) + SuspensionSteps(orders[id], id, user, id in late)
  }

  function MarkedOf(orders: map<OrderId, Order>, ids: seq<OrderId>, user: UserId, late: set<OrderId>): set<OrderId> {
    set id <- ids | id in orders && IsMarked(orders[id], user, id in late)
  }

  function ChangedOf(orders: map<OrderId, Order>, ids: seq<OrderId>, user: UserId, late: set<OrderId>): set<OrderId> {
    set id <- ids | id in orders && Suspended(orders[id], user, id in late) != orders[id]
  }

  lemma StepsOfOne(s: OrderState, id: OrderId, user: UserId, late: bool)
    requires id in s.orders
    ensures var after := Life.Run(s, SuspensionSteps(s.orders[id], id, user, late));
            && after.orders == s.orders[id := Suspended(s.orders[id], user, late)]
            && after.outbox == s.outbox + AskedBackOf(s.orders[id], id, user)
            && after.receipts == s.receipts && after.conflicts == s.conflicts
  {
    var steps := SuspensionSteps(s.orders[id], id, user, late);
    if steps != [] {
      OneStep(s, steps);
    }
  }

  lemma AllStepsOn(s: OrderState, ids: seq<OrderId>, id: OrderId, user: UserId, late: set<OrderId>)
    requires (forall k <- ids :: k in s.orders) && id in s.orders
    ensures Life.Run(s, AllSteps(s.orders, ids + [id], user, late))
         == Life.Run(Life.Run(s, AllSteps(s.orders, ids, user, late)), SuspensionSteps(s.orders[id], id, user, id in late))
  {
    assert (ids + [id])[..|ids|] == ids;
    Life.Joined(s, AllSteps(s.orders, ids, user, late), SuspensionSteps(s.orders[id], id, user, id in late), id, OPEN);
  }

  lemma MarkedOn(orders: map<OrderId, Order>, ids: seq<OrderId>, id: OrderId, user: UserId, late: set<OrderId>)
    requires id in orders && id !in ids
    ensures MarkedOf(orders, ids + [id], user, late)
         == MarkedOf(orders, ids, user, late) + if IsMarked(orders[id], user, id in late) then {id} else {}
    ensures |ChangedOf(orders, ids + [id], user, late)|
         == |ChangedOf(orders, ids, user, late)| + if Suspended(orders[id], user, id in late) != orders[id] then 1 else 0
  {
    var all, some := ChangedOf(orders, ids + [id], user, late), ChangedOf(orders, ids, user, late);
    assert all == if Suspended(orders[id], user, id in late) != orders[id] then some + {id} else some;
  }

  ghost predicate SuspendedSoFar(s: OrderState, now: OrderState, ids: seq<OrderId>, user: UserId, late: set<OrderId>) {
    (forall id <- ids :: id in s.orders) && Distinct(ids) && now == Life.Run(s, AllSteps(s.orders, ids, user, late))
  }

  lemma NoneSuspended(s: OrderState, user: UserId, late: set<OrderId>)
    ensures SuspendedSoFar(s, s, [], user, late)
    ensures MarkedOf(s.orders, [], user, late) == {} && ChangedOf(s.orders, [], user, late) == {}
  {}

  lemma SuspendedOn(s: OrderState, now: OrderState, ids: seq<OrderId>, id: OrderId, user: UserId, late: set<OrderId>)
    requires SuspendedSoFar(s, now, ids, user, late) && id in s.orders && id !in ids
    ensures id in now.orders && now.orders[id] == s.orders[id]
    ensures SuspendedSoFar(s, Life.Run(now, SuspensionSteps(s.orders[id], id, user, id in late)), ids + [id], user, late)
  {
    AllStepsRun(s, ids, user, late);
    AllStepsOn(s, ids, id, user, late);
    OneMore(s.orders, ids, id);
  }

  lemma OneMore(orders: map<OrderId, Order>, ids: seq<OrderId>, id: OrderId)
    requires (forall k <- ids :: k in orders) && Distinct(ids) && id in orders && id !in ids
    ensures (forall k <- ids + [id] :: k in orders) && Distinct(ids + [id])
  {}

  lemma SuspendedIs(s: OrderState, now: OrderState, ids: seq<OrderId>, user: UserId, late: set<OrderId>)
    requires SuspendedSoFar(s, now, ids, user, late)
    ensures now.orders.Keys == s.orders.Keys
    ensures forall id <- s.orders ::
              now.orders[id] == if id in ids then Suspended(s.orders[id], user, id in late) else s.orders[id]
    ensures now.outbox == s.outbox + AskedBack(s.orders, ids, user)
    ensures now.receipts == s.receipts && now.conflicts == s.conflicts
  {
    AllStepsRun(s, ids, user, late);
  }

  /** Errand by errand and request by request. */
  predicate Leaves(s: OrderState, after: OrderState, ids: seq<OrderId>, user: UserId, late: set<OrderId>)
    requires forall id <- ids :: id in s.orders
  {
    && after.orders.Keys == s.orders.Keys
    && (forall id <- s.orders ::
          after.orders[id] == if id in ids then Suspended(s.orders[id], user, id in late) else s.orders[id])
    && after.outbox == s.outbox + AskedBack(s.orders, ids, user)
    && after.receipts == s.receipts && after.conflicts == s.conflicts
  }

  lemma LeavesOn(s: OrderState, mid: OrderState, after: OrderState, ids: seq<OrderId>, id: OrderId, user: UserId,
                 late: set<OrderId>)
    requires (forall k <- ids :: k in s.orders) && id in s.orders && id !in ids && Leaves(s, mid, ids, user, late)
    requires after.orders == mid.orders[id := Suspended(s.orders[id], user, id in late)]
    requires after.outbox == mid.outbox + AskedBackOf(s.orders[id], id, user)
    requires after.receipts == mid.receipts && after.conflicts == mid.conflicts
    ensures (forall k <- ids + [id] :: k in s.orders) && Leaves(s, after, ids + [id], user, late)
  {
    assert (ids + [id])[..|ids|] == ids;
  }

  /** What the steps of a suspension leave. */
  lemma {:induction false} AllStepsRun(s: OrderState, ids: seq<OrderId>, user: UserId, late: set<OrderId>)
    requires (forall id <- ids :: id in s.orders) && Distinct(ids)
    ensures Leaves(s, Life.Run(s, AllSteps(s.orders, ids, user, late)), ids, user, late)
  {
    if ids != [] {
      var before, id := ids[..|ids| - 1], ids[|ids| - 1];
      NextOf(s.orders, ids, |ids| - 1);
      assert before + [id] == ids;
      AllStepsRun(s, before, user, late);
      AllStepsOn(s, before, id, user, late);
      var mid := Life.Run(s, AllSteps(s.orders, before, user, late));
      StepsOfOne(mid, id, user, id in late);
      LeavesOn(s, mid, Life.Run(s, AllSteps(s.orders, ids, user, late)), before, id, user, late);
    }
  }

  lemma {:induction false} AskedBackIs(orders: map<OrderId, Order>, ids: seq<OrderId>, user: UserId)
    requires forall id <- ids :: id in orders
    ensures forall m :: m in AskedBack(orders, ids, user) <==>
              exists id <- ids :: CalledOff(orders[id], user) && m == ReleaseRequested(id, user, orders[id].reward)
  {
    if ids != [] {
      AskedBackIs(orders, ids[..|ids| - 1], user);
      assert ids == ids[..|ids| - 1] + [ids[|ids| - 1]];
    }
  }

  /** Locking every errand a suspension touches misses none that is called off. */
  lemma AskedBackOfAll(orders: map<OrderId, Order>, ids: seq<OrderId>, user: UserId)
    requires forall id :: id in ids <==> id in orders && SuspensionTouches(orders[id], user)
    ensures forall m :: m in AskedBack(orders, ids, user) <==>
              exists id :: id in orders && CalledOff(orders[id], user) && m == ReleaseRequested(id, user, orders[id].reward)
  {
    AskedBackIs(orders, ids, user);
  }

  /** Suspending a requester leaves an errand of theirs neither open nor accepted; one picked up was touched. */
  lemma RequesterHasNothingOpen(order: Order, user: UserId, late: bool)
    ensures var after := AfterSuspension(order, user, late);
            && after.requester == order.requester
            && (order.requester == user ==> !after.status.OPEN? && !after.status.ACCEPTED?)
            && (order.requester == user && after.status.PICKED_UP? ==> SuspensionTouches(order, user))
  {}

  /** Once a suspension has been handled, the suspended user is on the way with no errand and offers none; and
      so it stays, whatever else happens, until they take an errand again, or one of a requester in good
      standing is funded. */
  lemma SuspensionLasts(was: OrderState, now: OrderState, ids: seq<OrderId>, user: UserId, late: set<OrderId>,
                        more: seq<Life.Step>)
    requires Life.Kept(was) && SuspendedSoFar(was, now, ids, user, late)
    requires forall id :: id in ids <==> id in was.orders && SuspensionTouches(was.orders[id], user)
    ensures Causes.CarriesNothing(now, user) && Causes.OffersNothing(now, user)
    ensures (forall step <- more :: !Causes.TakesOn(step, user)) ==> Causes.CarriesNothing(Life.Run(now, more), user)
    ensures (forall step <- more :: !Causes.FundsActive(step)) ==> Causes.OffersNothing(Life.Run(now, more), user)
  {
    HandledRightly(was, now, ids, user, late);
    forall id | id in now.orders ensures !Causes.CarriedBy(now.orders[id], user) && !Causes.OfferedBy(now.orders[id], user) {
      assert RightlySuspended(was.orders[id], now.orders[id], user, id in late) && Life.Tidy(was.orders[id]);
    }
    Life.RunKeeps(was, AllSteps(was.orders, ids, user, late));
    Causes.StaysClear(now, more, user);
  }
}
