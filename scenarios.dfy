/** Client code driving the use cases through a case's life: created OPEN, moved
    forward, refused a step back, listed by status. Every `assert` follows from the
    use cases' contracts alone. */
module Scenarios {
  import opened Wrappers
  import opened JavaStrings
  import opened CaseStatusRules
  import opened DomainErrors
  import opened CaseEntity
  import opened Dto
  import opened Repository
  import CreateCase
  import GetCase
  import ListCases
  import UpdateCaseStatus

  /** create(title = "Bug", priority = HIGH): an OPEN case stamped once. */
  method CreateBug() {
    var repo := new CaseRepository();
    TrimRemovesPadding([], "Bug", []);
    assert [] + "Bug" + [] == "Bug";
    var created := CreateCase.Execute(repo, Some(CreateCaseRequest(Some("Bug"), None, HIGH)), 1, 100);
    assert created == Success(CaseResponse(1, "Bug", None, OPEN, HIGH, None, 100, 100));
    assert repo.store == map[1 := Case(1, "Bug", None, OPEN, HIGH, None, 100, 100)];
    assert repo.order == [1];
  }

  /** Any status string that parses to IN_PROGRESS (the bare name, see
      `UpdateCaseStatus.ParseNameRoundTrip`, or a padded lower-case spelling, see
      `PaddedLowerCaseParses`) moves an OPEN case on: only the status and the update
      time change, and the new case is saved once. */
  method StartWork(raw: string)
    requires UpdateCaseStatus.ParseStatus(Some(raw)) == Success(IN_PROGRESS)
  {
    var repo := new CaseRepository();
    var stored := repo.Save(Case(1, "Bug", Some(" notes "), OPEN, HIGH, None, 100, 100));
    ghost var moved := Case(1, "Bug", Some(" notes "), IN_PROGRESS, HIGH, None, 100, 200);
    assert repo.store[1] == stored;
    assert ChangeStatusTo(stored, Some(IN_PROGRESS), 200) == Success(moved);
    var request := UpdateCaseStatusRequest(Some(raw));
    assert UpdateCaseStatus.ParseStatus(request.status) == Success(IN_PROGRESS);
    var step := UpdateCaseStatus.Execute(repo, 1, request, 200);
    assert step == Success(ToResponse(moved));
    assert step == Success(CaseResponse(1, "Bug", Some(" notes "), IN_PROGRESS, HIGH, None, 100, 200));
    assert repo.saveLog == [stored, moved];
  }

  /** Going back from DONE to IN_PROGRESS is a rejected transition; nothing is saved. */
  method RegressionIsRejected(raw: string)
    requires UpdateCaseStatus.ParseStatus(Some(raw)) == Success(IN_PROGRESS)
  {
    var repo := new CaseRepository();
    var stored := repo.Save(Case(1, "Bug", None, DONE, HIGH, None, 100, 300));
    assert repo.store[1] == stored;
    assert ChangeStatusTo(stored, Some(IN_PROGRESS), 400)
        == Failure(InvalidStatusTransition(1, DONE, IN_PROGRESS));
    var request := UpdateCaseStatusRequest(Some(raw));
    assert UpdateCaseStatus.ParseStatus(request.status) == Success(IN_PROGRESS);
    var back := UpdateCaseStatus.Execute(repo, 1, request, 400);
    assert back == Failure(InvalidStatusTransition(1, DONE, IN_PROGRESS));
    assert repo.saveLog == [stored];
    var got := GetCase.Execute(repo, 1);
    assert got.Success? && got.value.status == DONE && got.value.updatedAt == 300;
  }

  /** An unknown id is reported before the status string is looked at; an empty
      status string is an invalid status value. */
  method BadRequests() {
    var repo := new CaseRepository();
    var stored := repo.Save(Case(1, "Bug", None, OPEN, HIGH, None, 100, 100));
    var missing := UpdateCaseStatus.Execute(repo, 2, UpdateCaseStatusRequest(Some("no such status")), 500);
    assert missing == Failure(CaseNotFound(2));
    var empty := UpdateCaseStatus.Execute(repo, 1, UpdateCaseStatusRequest(Some("")), 600);
    assert empty == Failure(InvalidCaseStatus(""));
    var absent := UpdateCaseStatus.Execute(repo, 1, UpdateCaseStatusRequest(None), 700);
    assert absent == Failure(InvalidCaseStatus("<null>"));
    assert repo.saveLog == [stored];
  }

  /** A lower-case status name between a space and a tab parses like the name. */
  lemma PaddedLowerCaseParses()
    ensures UpdateCaseStatus.ParseStatus(Some(" " + "in_progress" + "\t")) == Success(IN_PROGRESS)
  {
    assert ToUpper("in_progress") == "IN_PROGRESS";
    UpdateCaseStatus.ParseIgnoresCaseAndPadding(" ", "in_progress", "\t", IN_PROGRESS);
  }

  /** Listing by status shows the matching case and nothing in another state. */
  method ListingByStatus() {
    var repo := new CaseRepository();
    var stored := repo.Save(Case(3, "Report", Some(" notes "), IN_PROGRESS, LOW, None, 700, 800));
    var listed := ListCases.Execute(repo, Some("IN_PROGRESS"), None);
    assert Matches(repo.store[3], Some("IN_PROGRESS"), None);
    assert exists i :: 0 <= i < |listed| && listed[i].id == 3;
    assert forall i :: 0 <= i < |listed| ==> listed[i].status == IN_PROGRESS;
  }
}
