/** The use case that lists cases (`ListCasesUseCase`). */
module ListCases {
  import opened Wrappers
  import opened CaseStatusRules
  import opened DomainErrors
  import opened CaseEntity
  import opened Dto
  import opened Repository

  /** `execute(status, priority)`: one `findAll` with the filters as given, nothing
      written, and one projection per case found, in the order found. So every
      response shows a stored case that matches the filters, and every matching
      stored case is shown exactly once. */
  function Execute(repo: CaseRepository, status: Option<string>, priority: Option<string>): (r: seq<CaseResponse>)
    reads repo
    requires repo.Valid()
    ensures var found := repo.FindAll(status, priority);
      && |r| == |found|
      && forall i :: 0 <= i < |r| ==> FromResponse(r[i]) == found[i]
    ensures forall i :: 0 <= i < |r| ==>
              && r[i].id in repo.store
              && FromResponse(r[i]) == repo.store[r[i].id]
              && Matches(FromResponse(r[i]), status, priority)
    ensures forall id :: id in repo.store && Matches(repo.store[id], status, priority) ==>
              exists i :: 0 <= i < |r| && r[i].id == id
    ensures forall i, j :: 0 <= i < j < |r| ==> r[i].id != r[j].id
  {
    var found := repo.FindAll(status, priority);
    var r := ProjectAll(found);
    ProjectionKeepsIds(found, r);
    r
  }

  /** A projection of each case shows its id in the same place, so it shows every
      case once when no two cases share an id. */
  lemma ProjectionKeepsIds(found: seq<Case>, r: seq<CaseResponse>)
    requires |r| == |found|
    requires forall i :: 0 <= i < |r| ==> FromResponse(r[i]) == found[i]
    ensures forall i :: 0 <= i < |r| ==> r[i].id == found[i].id
    ensures forall c :: c in found ==> exists i :: 0 <= i < |r| && r[i].id == c.id
    ensures DistinctIds(found) ==> forall i, j :: 0 <= i < j < |r| ==> r[i].id != r[j].id
  {
    forall c | c in found ensures exists i :: 0 <= i < |r| && r[i].id == c.id {
      var i :| 0 <= i < |found| && found[i] == c;
      assert r[i].id == c.id;
    }
  }
}
