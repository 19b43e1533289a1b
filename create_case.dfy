/** The use case that creates a case (`CreateCaseUseCase`). */
module CreateCase {
  import opened Wrappers
  import opened JavaStrings
  import opened CaseStatusRules
  import opened DomainErrors
  import opened CaseEntity
  import opened Dto
  import opened Repository

  /** `execute(request)` with `UUID.randomUUID()` passed in as `newId` and
      `Instant.now()` as `now`. A null request, then a null or blank title, is an
      argument error that saves nothing. Otherwise exactly one case is saved: OPEN,
      title trimmed, description verbatim, priority copied, no assignee, both
      timestamps `now`; the response is its projection. */
  method Execute(repo: CaseRepository, request: Option<CreateCaseRequest>, newId: Uuid, now: Instant)
    returns (r: Result<CaseResponse, Error>)
    requires repo.Valid()
    modifies repo
    ensures repo.Valid()
    ensures r.Failure? ==> unchanged(repo)
    ensures r.Success? ==>
              repo.order == if newId in old(repo.store) then old(repo.order) else old(repo.order) + [newId]
    ensures request.None? ==> r == Failure(IllegalArgument("request must not be null"))
    ensures request.Some? && (request.value.title.None? || Trim(request.value.title.value) == []) ==>
              r == Failure(IllegalArgument("title must not be blank"))
    ensures r.Success? <==> request.Some? && request.value.title.Some? && Trim(request.value.title.value) != []
    ensures r.Success? ==>
              && request.Some? && request.value.title.Some?
              && |repo.saveLog| == |old(repo.saveLog)| + 1
              && repo.saveLog[..|old(repo.saveLog)|] == old(repo.saveLog)
              && var c := repo.saveLog[|old(repo.saveLog)|];
              && c.id == newId
              && c.title == Trim(request.value.title.value)
              && c.title != [] && HasSolidEnds(c.title)
              && c.description == request.value.description
              && c.status == OPEN
              && c.priority == request.value.priority
              && c.assigneeId == None
              && c.createdAt == now && c.updatedAt == now
              && repo.store == old(repo.store)[newId := c]
              && r == Success(ToResponse(c))
  {
    if request.None? {
      return Failure(IllegalArgument("request must not be null"));
    }
    var req := request.value;
    if req.title.None? || Trim(req.title.value) == [] {
      return Failure(IllegalArgument("title must not be blank"));
    }
    var newCase := Case(newId, Trim(req.title.value), req.description, OPEN, req.priority, None, now, now);
    var saved := repo.Save(newCase);
    r := Success(ToResponse(saved));
  }
}
