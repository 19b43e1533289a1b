/** The use case that moves a stored case to a new status (`UpdateCaseStatusUseCase`). */
module UpdateCaseStatus {
  import opened Wrappers
  import opened JavaStrings
  import opened CaseStatusRules
  import opened DomainErrors
  import opened CaseEntity
  import opened Dto
  import opened Repository

  /** `parseStatus(raw)`: a null or blank string is rejected; otherwise the string is
      trimmed, upper-cased and looked up by enum name. Every rejection carries the raw
      string, or "<null>". A string is accepted exactly when its normalised form is a
      status name, so the blank check only short-cuts a rejection the lookup would make. */
  function ParseStatus(raw: Option<string>): (r: Result<CaseStatus, Error>)
    ensures raw.None? ==> r == Failure(InvalidCaseStatus("<null>"))
    ensures raw.Some? ==> forall s :: r == Success(s) <==> ToUpper(Trim(raw.value)) == Name(s)
    ensures r.Failure? ==> r.error == InvalidCaseStatus(if raw.None? then "<null>" else raw.value)
  {
    if raw.None? then
      Failure(InvalidCaseStatus("<null>"))
    else if IsBlank(raw.value) then
      BlankNeverNamesAStatus(raw.value);
      Failure(InvalidCaseStatus(raw.value))
    else
      match ValueOf(ToUpper(Trim(raw.value)))
      case Some(s) => Success(s)
      case None => Failure(InvalidCaseStatus(raw.value))
  }

  /** A blank string never normalises to a status name: what is left after trimming is
      whitespace, which upper-casing keeps, and every name starts with a letter. */
  lemma BlankNeverNamesAStatus(raw: string)
    requires IsBlank(raw)
    ensures ValueOf(ToUpper(Trim(raw))).None?
  {
    var t := Trim(raw);
    if t != [] {
      assert t[0] in raw;
      assert IsJavaWhitespace(t[0]);
      assert ToUpper(t)[0] == t[0];
      WhitespaceStartNamesNothing(ToUpper(t));
    }
  }

  /** No status name starts with whitespace. */
  lemma WhitespaceStartNamesNothing(u: string)
    requires u != [] && IsJavaWhitespace(u[0])
    ensures ValueOf(u).None?
  {
  }

  /** Parsing ignores letter case and padding: any spelling of a status name whose
      upper-case form is the name, surrounded by characters `trim()` strips, parses to
      that status. */
  lemma ParseIgnoresCaseAndPadding(pad: string, spelled: string, tail: string, s: CaseStatus)
    requires AllTrimmed(pad) && AllTrimmed(tail)
    requires ToUpper(spelled) == Name(s)
    ensures ParseStatus(Some(pad + spelled + tail)) == Success(s)
  {
    var n := Name(s);
    assert n[0] in "OIDC" && n[|n| - 1] in "NSED";
    assert UpperChar(spelled[0]) == n[0];
    assert UpperChar(spelled[|spelled| - 1]) == n[|n| - 1];
    assert HasSolidEnds(spelled);
    TrimRemovesPadding(pad, spelled, tail);
  }

  /** Round trip: the exact name of any status parses back to that status. */
  lemma ParseNameRoundTrip(s: CaseStatus)
    ensures ParseStatus(Some(Name(s))) == Success(s)
  {
    var n := Name(s);
    assert ToUpper(n) == n by {
      forall i | 0 <= i < |n| ensures UpperChar(n[i]) == n[i] {
        assert n[i] in "OPENIN_PROGRESSDONECLOSED";
      }
    }
    ParseIgnoresCaseAndPadding([], n, [], s);
    assert [] + n + [] == n;
  }

  /** `execute(id, request)`: load the case (not found first, whatever the status
      string), parse the status, apply the transition, then save the result once and
      return its projection. Every failure leaves the store untouched and saves
      nothing. A request for the current status still saves the unchanged case. */
  method Execute(repo: CaseRepository, id: Uuid, request: UpdateCaseStatusRequest, now: Instant)
    returns (r: Result<CaseResponse, Error>)
    requires repo.Valid()
    modifies repo
    ensures repo.Valid()
    ensures r.Failure? ==> unchanged(repo)
    ensures repo.order == old(repo.order)
    ensures id !in old(repo.store) ==> r == Failure(CaseNotFound(id))
    ensures id in old(repo.store) && ParseStatus(request.status).Failure? ==>
              r == Failure(ParseStatus(request.status).error)
    ensures id in old(repo.store) && ParseStatus(request.status).Success? ==>
              var change := ChangeStatusTo(old(repo.store)[id], Some(ParseStatus(request.status).value), now);
              && (change.Failure? ==> r == Failure(change.error))
              && (change.Success? ==>
                    && change.value.id == id
                    && repo.saveLog == old(repo.saveLog) + [change.value]
                    && repo.store == old(repo.store)[id := change.value]
                    && r == Success(ToResponse(change.value)))
  {
    var found := repo.FindById(id);
    if found.None? {
      return Failure(CaseNotFound(id));
    }
    var existing := found.value;
    var newStatus := ParseStatus(request.status);
    if newStatus.Failure? {
      return Failure(newStatus.error);
    }
    var updated := ChangeStatusTo(existing, Some(newStatus.value), now);
    if updated.Failure? {
      return Failure(updated.error);
    }
    var saved := repo.Save(updated.value);
    r := Success(ToResponse(saved));
  }
}
