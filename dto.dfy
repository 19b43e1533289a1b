/** The plain request and response records of the application layer. */
module Dto {
  import opened Wrappers
  import opened CaseStatusRules
  import opened DomainErrors
  import opened CaseEntity

  /** `CaseResponse`: the API-facing view of a case, field for field. */
  datatype CaseResponse = CaseResponse(
    id: Uuid,
    title: string,
    description: Option<string>,
    status: CaseStatus,
    priority: Priority,
    assigneeId: Option<Uuid>,
    createdAt: Instant,
    updatedAt: Instant)

  /** `CreateCaseRequest`; `None` is a null title or description. */
  datatype CreateCaseRequest = CreateCaseRequest(
    title: Option<string>,
    description: Option<string>,
    priority: Priority)

  /** `UpdateCaseStatusRequest`; `None` is a null status string. */
  datatype UpdateCaseStatusRequest = UpdateCaseStatusRequest(status: Option<string>)

  /** Reads a response back as the case it shows. */
  function FromResponse(r: CaseResponse): Case {
    Case(r.id, r.title, r.description, r.status, r.priority, r.assigneeId, r.createdAt, r.updatedAt)
  }

  /** The `new CaseResponse(c.getId(), ..., c.getUpdatedAt())` mapping every use case
      ends with. It loses nothing: the case can be read back from the response, so
      distinct cases have distinct responses. */
  function ToResponse(c: Case): (r: CaseResponse)
    ensures FromResponse(r) == c
  {
    CaseResponse(c.id, c.title, c.description, c.status, c.priority, c.assigneeId, c.createdAt, c.updatedAt)
  }

  /** The `stream().map(...).toList()` over a list of cases: same length, same order,
      each element the projection of the case at the same position. */
  function ProjectAll(cases: seq<Case>): (r: seq<CaseResponse>)
    ensures |r| == |cases|
    ensures forall i :: 0 <= i < |cases| ==> FromResponse(r[i]) == cases[i]
  {
    if cases == [] then [] else [ToResponse(cases[0])] + ProjectAll(cases[1..])
  }
}
