/** The use case that reads one case (`GetCaseUseCase`). */
module GetCase {
  import opened Wrappers
  import opened DomainErrors
  import opened CaseEntity
  import opened Dto
  import opened Repository

  /** `execute(id)`: one lookup, nothing written. An absent id is `CaseNotFound(id)`;
      a present one yields the stored case, field for field. */
  function Execute(repo: CaseRepository, id: Uuid): (r: Result<CaseResponse, Error>)
    reads repo
    ensures r.Failure? <==> id !in repo.store
    ensures r.Failure? ==> r.error == CaseNotFound(id)
    ensures r.Success? ==> FromResponse(r.value) == repo.store[id]
  {
    match repo.FindById(id)
    case None => Failure(CaseNotFound(id))
    case Some(c) => Success(ToResponse(c))
  }

  /** The answer depends on nothing but what is stored under `id`. */
  lemma DependsOnlyOnTheEntry(a: CaseRepository, b: CaseRepository, id: Uuid)
    requires (id in a.store) == (id in b.store)
    requires id in a.store ==> a.store[id] == b.store[id]
    ensures Execute(a, id) == Execute(b, id)
  {
  }
}
