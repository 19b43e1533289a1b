/** The immutable `Case` entity and its one operation, `changeStatusTo`. */
module CaseEntity {
  import opened Wrappers
  import opened CaseStatusRules
  import opened DomainErrors

  /** `java.time.Instant`, as a count of time units. The clock is read by the caller
      and handed in. */
  type Instant = int

  /** The priority levels; their order carries no meaning. */
  datatype Priority = LOW | MEDIUM | HIGH | CRITICAL

  function PriorityName(p: Priority): string {
    match p
    case LOW => "LOW"
    case MEDIUM => "MEDIUM"
    case HIGH => "HIGH"
    case CRITICAL => "CRITICAL"
  }

  /** The entity. The Java constructor stores its eight arguments verbatim and there are
      no setters, so the datatype constructor and its destructors are the whole API;
      `None` stands for a null description or assignee. */
  datatype Case = Case(
    id: Uuid,
    title: string,
    description: Option<string>,
    status: CaseStatus,
    priority: Priority,
    assigneeId: Option<Uuid>,
    createdAt: Instant,
    updatedAt: Instant)

  /** Everything but the status and `updatedAt` agrees. */
  predicate SameIdentity(a: Case, b: Case) {
    && a.id == b.id
    && a.title == b.title
    && a.description == b.description
    && a.priority == b.priority
    && a.assigneeId == b.assigneeId
    && a.createdAt == b.createdAt
  }

  /** `c.changeStatusTo(newStatus)` with `Instant.now()` passed in as `now`.
      A null target is an argument error; the current status is a no-op that returns
      the case itself; a move the table forbids is a transition error naming the case
      and both states; any other move yields a copy with the new status stamped `now`. */
  function ChangeStatusTo(c: Case, newStatus: Option<CaseStatus>, now: Instant): (r: Result<Case, Error>)
    ensures newStatus.None? ==> r == Failure(IllegalArgument("newStatus must not be null"))
    ensures r.Success? <==> newStatus.Some? && (newStatus.value == c.status || CanTransitionTo(c.status, newStatus))
    ensures newStatus == Some(c.status) ==> r == Success(c)
    ensures newStatus.Some? && newStatus.value != c.status && !CanTransitionTo(c.status, newStatus) ==>
              r == Failure(InvalidStatusTransition(c.id, c.status, newStatus.value))
    ensures r.Success? && newStatus.value != c.status ==>
              && r.value.status == newStatus.value
              && r.value.updatedAt == now
              && SameIdentity(c, r.value)
  {
    if newStatus.None? then
      Failure(IllegalArgument("newStatus must not be null"))
    else if c.status == newStatus.value then
      Success(c)
    else if !CanTransitionTo(c.status, newStatus) then
      Failure(InvalidStatusTransition(c.id, c.status, newStatus.value))
    else
      Success(Case(c.id, c.title, c.description, newStatus.value, c.priority,
                   c.assigneeId, c.createdAt, now))
  }

  /** A successful change either keeps the status or moves it one step forward, and
      never touches the identity fields. */
  lemma ChangeStatusIsForwardStep(c: Case, t: CaseStatus, now: Instant)
    requires ChangeStatusTo(c, Some(t), now).Success?
    ensures var d := ChangeStatusTo(c, Some(t), now).value;
      && SameIdentity(c, d)
      && (d.status == c.status || Ordinal(d.status) == Ordinal(c.status) + 1)
      && (d.status == c.status ==> d == c)
  {
  }

  /** One status request: the target and the clock reading at the time it is handled. */
  datatype StatusRequest = StatusRequest(target: CaseStatus, now: Instant)

  /** The case after a series of status requests, each applied to the result of the
      previous one; a rejected request leaves the case as it was. */
  function Replay(c: Case, requests: seq<StatusRequest>): Case
    decreases |requests|
  {
    if requests == [] then c
    else
      var step := ChangeStatusTo(c, Some(requests[0].target), requests[0].now);
      Replay(if step.Success? then step.value else c, requests[1..])
  }

  /** No series of requests changes a case's identity, moves it backwards, or moves it
      further than one state per request. */
  lemma {:induction false} ReplayIsForwardOnly(c: Case, requests: seq<StatusRequest>)
    ensures SameIdentity(c, Replay(c, requests))
    ensures Ordinal(c.status) <= Ordinal(Replay(c, requests).status) <= Ordinal(c.status) + |requests|
    decreases |requests|
  {
    if requests != [] {
      var step := ChangeStatusTo(c, Some(requests[0].target), requests[0].now);
      var next := if step.Success? then step.value else c;
      if step.Success? {
        ChangeStatusIsForwardStep(c, requests[0].target, requests[0].now);
      }
      ReplayIsForwardOnly(next, requests[1..]);
    }
  }

  /** Once CLOSED, a case stays CLOSED whatever is requested. */
  lemma {:induction false} ReplayFromClosedStaysClosed(c: Case, requests: seq<StatusRequest>)
    requires c.status == CLOSED
    ensures Replay(c, requests).status == CLOSED
  {
    ReplayIsForwardOnly(c, requests);
  }
}
