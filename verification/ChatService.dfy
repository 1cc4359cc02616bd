/** Who may open, read and send on an errand's channel, decided on every request from the errand alone. */
module ChatService {
  import opened Wrappers
  import opened ChatStorage
  import Retention
  import opened ChatRepository

  /** What the Order Service says of an errand; times in milliseconds. */
  datatype Errand = Errand(requester: UserId, courier: Option<UserId>, endedAt: Option<int>)

  datatype Caller = Caller(user: UserId, isAdmin: bool)

  datatype Role = REQUESTER | COURIER | ADMIN

  datatype Refusal = NotFound | NotParticipant | ChannelClosed | Unavailable | KeyReused | Invalid

  /** `open`: participants may send. */
  datatype Grant = Grant(role: Role, latestSeq: nat, open: bool)

  /** The moment of a request: on the service's clock, and on the database's as a channel is opened, a
      count taken and a message stamped. */
  datatype Moment = Moment(now: int, opening: int, counted: int, stamped: int)

  function RoleOf(e: Errand, caller: Caller): Option<Role> {
    if caller.user == e.requester then Some(REQUESTER)
    else if e.courier == Some(caller.user) then Some(COURIER)
    else if caller.isAdmin then Some(ADMIN)
    else None
  }

  predicate IsOpen(e: Errand) { e.courier.Some? && e.endedAt.None? }

  predicate IsPast(e: Errand, retentionDays: int, now: int) { Retention.PastRetention(e.endedAt, retentionDays, now) }

  /** The decision, and the channel it opens if it opens one. */
  function Admit(c: Chat, order: OrderId, errand: Option<Errand>, caller: Caller, days: int, at: Moment)
    : (Result<Grant, Refusal>, Chat)
  {
    if errand.None? || IsPast(errand.value, days, at.now) then (Failure(NotFound), c)
    else
      var e := errand.value;
      match RoleOf(e, caller)
      case None => (Failure(if order !in c.channels && e.courier.None? then NotFound else NotParticipant), c)
      case Some(role) =>
        if order in c.channels then (Success(Grant(role, c.channels[order].latestSeq, IsOpen(e))), c)
        else if IsOpen(e) && role != ADMIN then (Success(Grant(role, 0, true)), ChatStorage.Open(c, order, at.opening))
        else (Failure(NotFound), c)
  }

  /** What a send and a read mark need: access as requester or courier, not as an administrator only. */
  function AdmitParticipant(c: Chat, order: OrderId, errand: Option<Errand>, caller: Caller, days: int, at: Moment)
    : (Result<Grant, Refusal>, Chat)
  {
    var (access, after) := Admit(c, order, errand, caller, days, at);
    if access.Success? && access.value.role == ADMIN then (Failure(NotParticipant), after) else (access, after)
  }

  /** What a send answers: a message stored now or before, or how long to wait. */
  ghost function Answered(answer: SendAttempt, body: string): Result<SendAttempt, Refusal> {
    match answer
    case Closed => Failure(ChannelClosed)
    case Failed => Failure(Unavailable)
    case Sent(_, message, created) => if !created && message.body != body then Failure(KeyReused) else Success(answer)
    case Limited(_) => Success(answer)
  }

  ghost function SendFor(c: Chat, r: ChatStorage.Request, errand: Option<Errand>, caller: Caller, days: int, at: Moment)
    : (Result<SendAttempt, Refusal>, Chat)
  {
    var (access, after) := AdmitParticipant(c, r.order, errand, caller, days, at);
    if access.Failure? then (Failure(access.error), after)
    else if Matches(after.messages, r) == {} && !access.value.open then (Failure(ChannelClosed), after)
    else
      var (answer, end) := Send(after, r, at.counted, at.stamped);
      (Answered(answer, r.body), end)
  }

  /** Marking read: never past the latest message. */
  function MarkFor(c: Chat, order: OrderId, errand: Option<Errand>, caller: Caller, number: nat, days: int, at: Moment)
    : (Result<nat, Refusal>, Chat)
  {
    var (access, after) := AdmitParticipant(c, order, errand, caller, days, at);
    if access.Failure? then (Failure(access.error), after)
    else if number > access.value.latestSeq then (Failure(Invalid), after)
    else
      var (moved, end) := ChatStorage.MarkRead(after, Reader(order, caller.user), number);
      (if moved.Some? then Success(moved.value) else Failure(Unavailable), end)
  }

  // ----- what the decisions give

  /** Admitted exactly while the errand is known and not past retention, to its requester, current courier
      or an administrator, once it has a channel or a participant's request opens one. */
  lemma AdmittedExactly(c: Chat, order: OrderId, errand: Option<Errand>, caller: Caller, days: int, at: Moment)
    ensures Admit(c, order, errand, caller, days, at).0.Success? <==>
            && errand.Some? && !IsPast(errand.value, days, at.now)
            && (caller.isAdmin || caller.user == errand.value.requester || errand.value.courier == Some(caller.user))
            && (order in c.channels
                || (IsOpen(errand.value)
                    && (caller.user == errand.value.requester || errand.value.courier == Some(caller.user))))
  {}

  const DAY := 86_400_000

  /** The errand ended longer ago than conversations are kept. */
  predicate OverBefore(e: Errand, days: int, now: int) { e.endedAt.Some? && e.endedAt.value < now - days * DAY }

  /** What is granted: the caller's own part in the errand, whether it is open, and how far the channel goes. */
  lemma GrantIs(c: Chat, order: OrderId, errand: Option<Errand>, caller: Caller, days: int, at: Moment)
    requires Admit(c, order, errand, caller, days, at).0.Success?
    ensures errand.Some? && !OverBefore(errand.value, days, at.now)
    ensures var (access, after) := Admit(c, order, errand, caller, days, at); var g, e := access.value, errand.value;
            && (g.role == REQUESTER <==> caller.user == e.requester)
            && (g.role == COURIER <==> caller.user != e.requester && e.courier == Some(caller.user))
            && (g.role == ADMIN ==> caller.isAdmin)
            && (g.open <==> e.courier.Some? && e.endedAt.None?)
            && order in after.channels && g.latestSeq == after.channels[order].latestSeq
            && (order !in c.channels ==> g.role != ADMIN && g.latestSeq == 0 && after.channels[order].createdAt == at.opening)
  {}

  /** Who is refused, and how: a caller without a part is told so where there is something to see, and everyone
      else is told there is nothing. */
  lemma RefusedExactly(c: Chat, order: OrderId, errand: Option<Errand>, caller: Caller, days: int, at: Moment)
    ensures var access := Admit(c, order, errand, caller, days, at).0;
            var unseen := errand.None? || OverBefore(errand.value, days, at.now);
            && (access == Failure(NotParticipant) <==>
                  && !unseen && !caller.isAdmin
                  && caller.user != errand.value.requester && errand.value.courier != Some(caller.user)
                  && (order in c.channels || errand.value.courier.Some?))
            && (access.Failure? ==> access.error == NotParticipant || access.error == NotFound)
            && (unseen ==> access == Failure(NotFound))
  {}

  /** Sending and marking are for the requester and the courier: an administrator without a part is refused,
      and everyone else answered as before. */
  lemma ParticipantsExactly(c: Chat, order: OrderId, errand: Option<Errand>, caller: Caller, days: int, at: Moment)
    ensures var (access, after) := AdmitParticipant(c, order, errand, caller, days, at);
            var seen := Admit(c, order, errand, caller, days, at);
            && after == seen.1
            && (access.Success? <==>
                  seen.0.Success? && (caller.user == errand.value.requester || errand.value.courier == Some(caller.user)))
            && (seen.0.Success? && access.Failure? ==> access.error == NotParticipant)
            && (access.Success? || seen.0.Failure? ==> access == seen.0)
  {
    if Admit(c, order, errand, caller, days, at).0.Success? {
      GrantIs(c, order, errand, caller, days, at);
    }
  }

  /** A channel opens only for a participant, on an errand with a courier that has not ended. */
  lemma OpenedOnlyByParticipants(c: Chat, order: OrderId, errand: Option<Errand>, caller: Caller, days: int, at: Moment)
    requires Admit(c, order, errand, caller, days, at).1 != c
    ensures errand.Some? && errand.value.courier.Some? && errand.value.endedAt.None?
    ensures caller.user == errand.value.requester || errand.value.courier == Some(caller.user)
    ensures Admit(c, order, errand, caller, days, at).1 == ChatStorage.Open(c, order, at.opening) && order !in c.channels
  {}

  /** To a stranger an errand without courier or channel answers as one that does not exist. */
  lemma StrangersLearnNothing(c: Chat, order: OrderId, e: Errand, caller: Caller, days: int, at: Moment)
    requires RoleOf(e, caller).None? && e.courier.None? && order !in c.channels
    ensures Admit(c, order, Some(e), caller, days, at) == Admit(c, order, None, caller, days, at)
  {}

  /** A repeated send by a participant answers the stored message, though the channel has closed or the
      sender has reached the limit, and stores nothing; with another body it is refused. */
  lemma ResendSurvivesClosing(c: Chat, r: ChatStorage.Request, e: Errand, caller: Caller, days: int, at: Moment, id: MessageId)
    requires Inv(c) && id in c.messages && IsSent(c.messages[id], id, r) && caller.user == r.sender
    requires !IsPast(e, days, at.now) && (r.sender == e.requester || e.courier == Some(r.sender))
    ensures SendFor(c, r, Some(e), caller, days, at)
         == (if c.messages[id].body == r.body then Success(Sent(id, c.messages[id], false)) else Failure(KeyReused), c)
  {
    assert id == MessageId(id.order, id.number) && r.order in c.channels;
    assert id in Matches(c.messages, r);
    assert forall i <- Matches(c.messages, r) :: i == id;
  }

  /** A message is stored only for the errand's requester or current courier, while it has a courier, has not
      ended and is under the limit; and what every run of the storage keeps is kept. */
  lemma StoredOnlyWhileOpen(c: Chat, r: ChatStorage.Request, errand: Option<Errand>, caller: Caller, days: int, at: Moment)
    requires Inv(c) && at.counted <= at.stamped && caller.user == r.sender
    ensures var after := SendFor(c, r, errand, caller, days, at).1;
            && Inv(after)
            && (after.messages != c.messages ==>
                  && errand.Some? && errand.value.courier.Some? && errand.value.endedAt.None?
                  && (r.sender == errand.value.requester || errand.value.courier == Some(r.sender))
                  && UnderLimit(c.messages, r.sender, at.counted) && Matches(c.messages, r) == {})
  {
    AdmittedKeeps(c, r.order, errand, caller, days, at);
    SendStores(AdmitParticipant(c, r.order, errand, caller, days, at).1, r, at.counted, at.stamped);
  }

  lemma AdmittedKeeps(c: Chat, order: OrderId, errand: Option<Errand>, caller: Caller, days: int, at: Moment)
    requires Inv(c)
    ensures var (access, after) := AdmitParticipant(c, order, errand, caller, days, at);
            && Inv(after) && after.messages == c.messages
            && (access.Success? ==>
                  && errand.Some? && (access.value.open <==> IsOpen(errand.value))
                  && (caller.user == errand.value.requester || errand.value.courier == Some(caller.user)))
  {
    ApplyKeeps(c, Opens(order, at.opening));
  }

  lemma SendStores(c: Chat, r: ChatStorage.Request, counted: int, stamped: int)
    requires Inv(c) && counted <= stamped
    ensures var after := Send(c, r, counted, stamped).1;
            && Inv(after)
            && (after.messages != c.messages ==> UnderLimit(c.messages, r.sender, counted) && Matches(c.messages, r) == {})
  {
    ApplyKeeps(c, Sends(r, counted, stamped));
  }

  /** The service over its repository. */
  class Service {
    const repository: Repository
    const retentionDays: int

    constructor (repository: Repository, retentionDays: int)
      ensures this.repository == repository && this.retentionDays == retentionDays
    {
      this.repository, this.retentionDays := repository, retentionDays;
    }

    method Access(order: OrderId, errand: Option<Errand>, caller: Caller, at: Moment)
      returns (access: Result<Grant, Refusal>)
      requires repository.Valid()
      modifies repository
      ensures repository.Valid()
      ensures (access, repository.State()) == Admit(old(repository.State()), order, errand, caller, retentionDays, at)
    {
      if errand.None? || IsPast(errand.value, retentionDays, at.now) {
        return Failure(NotFound);
      }
      var e := errand.value;
      var role := RoleOf(e, caller);
      var existing := repository.LatestSeq(order);
      if role.None? {
        return Failure(if existing.None? && e.courier.None? then NotFound else NotParticipant);
      }
      var open := e.courier.Some? && e.endedAt.None?;
      if existing.Some? {
        return Success(Grant(role.value, existing.value, open));
      }
      if !(open && role.value != ADMIN) {
        return Failure(NotFound);
      }
      var latest := repository.Open(order, at.opening);
      return Success(Grant(role.value, latest, open));
    }

    method ParticipantAccess(order: OrderId, errand: Option<Errand>, caller: Caller, at: Moment)
      returns (access: Result<Grant, Refusal>)
      requires repository.Valid()
      modifies repository
      ensures repository.Valid()
      ensures (access, repository.State())
           == AdmitParticipant(old(repository.State()), order, errand, caller, retentionDays, at)
    {
      access := Access(order, errand, caller, at);
      if access.Success? && access.value.role == ADMIN {
        return Failure(NotParticipant);
      }
    }

    method Send(r: ChatStorage.Request, errand: Option<Errand>, caller: Caller, at: Moment)
      returns (sent: Result<SendAttempt, Refusal>)
      requires repository.Valid() && at.counted <= at.stamped
      modifies repository
      ensures repository.Valid()
      ensures (sent, repository.State()) == SendFor(old(repository.State()), r, errand, caller, retentionDays, at)
    {
      var access := ParticipantAccess(r.order, errand, caller, at);
      if access.Failure? {
        return Failure(access.error);
      }
      var stored := repository.FindSent(r);
      if stored.None? && !access.value.open {
        return Failure(ChannelClosed);
      }
      var answer;
      if stored.Some? {
        answer := Sent(stored.value, repository.messages[stored.value], false);
      } else {
        answer := repository.Send(r, at.counted, at.stamped);
      }
      match answer
      case Closed => return Failure(ChannelClosed);
      case Failed => return Failure(Unavailable);
      case Sent(_, message, created) =>
        if !created && message.body != r.body {
          return Failure(KeyReused);
        }
        return Success(answer);
      case Limited(_) => return Success(answer);
    }

    /** Never past the channel's latest message, and never back. */
    method MarkRead(order: OrderId, errand: Option<Errand>, caller: Caller, number: nat, at: Moment)
      returns (position: Result<nat, Refusal>)
      requires repository.Valid()
      modifies repository
      ensures repository.Valid()
      ensures (position, repository.State())
           == MarkFor(old(repository.State()), order, errand, caller, number, retentionDays, at)
      ensures position.Success? ==>
                && order in repository.channels && number <= repository.channels[order].latestSeq
                && repository.positions == old(repository.positions)[Reader(order, caller.user) := position.value]
                && position.value >= number
                && position.value >= LastRead(old(repository.State()), Reader(order, caller.user))
      ensures position.Failure? ==> repository.positions == old(repository.positions)
    {
      var access := ParticipantAccess(order, errand, caller, at);
      if access.Failure? {
        return Failure(access.error);
      }
      if number > access.value.latestSeq {
        return Failure(Invalid);
      }
      var moved := repository.MarkRead(Reader(order, caller.user), number);
      return if moved.Some? then Success(moved.value) else Failure(Unavailable);
    }
  }
}
