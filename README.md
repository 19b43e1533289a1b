# Case service kernel in Dafny

A model of the domain and use-case kernel of the case service: the lifecycle of a
case (OPEN, IN_PROGRESS, DONE, CLOSED) with its rule table, the immutable `Case`
entity and its `changeStatusTo` operation, and the four use cases Create, Get, List
and UpdateStatus over the storage port `CaseRepository`.

Layout, one module per source concern:

- `wrappers.dfy` (`Wrappers`): `Option` for a Java reference that may be null or an
  `Optional`; `Result` for a call that returns or throws.
- `java_strings.dfy` (`JavaStrings`): `String.trim()`, `isBlank()` and
  `toUpperCase(Locale.ROOT)`.
- `case_status.dfy` (`CaseStatusRules`): the `CaseStatus` enum, `valueOf` and
  `ALLOWED_TRANSITIONS` with `canTransitionTo`. The table is checked against an
  independent definition, the linear order of the states.
- `domain_errors.dfy` (`DomainErrors`): the four exceptions of the kernel as one
  `Error` datatype.
- `case_entity.dfy` (`CaseEntity`): `Priority`, the `Case` record and
  `ChangeStatusTo`, plus lemmas about any series of status changes.
- `dto.dfy` (`Dto`): `CaseResponse`, the two request records and the projection
  from a case to its response. The projection is proved lossless.
- `case_repository.dfy` (`Repository`): the storage port as a class over a map.
  A ghost log records every `save` call, so the use-case contracts can say how many
  saves happened and of what.
- `create_case.dfy`, `get_case.dfy`, `list_cases.dfy`, `update_case_status.dfy`:
  the four use cases. Create and UpdateStatus write to the store, so they are
  methods that modify the repository. Get and List only read, so they are functions
  that read it.
- `scenarios.dfy` (`Scenarios`): client code that walks through the lifecycle
  (create, start work with any status string that parses to IN_PROGRESS, a rejected
  regression, bad requests, listing by status), and a padded lower-case status
  string that parses. Every assertion there follows from the contracts alone.

Java `null` becomes `None` wherever the source checks for it. This covers the
target of `changeStatusTo`, the create request and its title, and the raw status
string. It also covers the description and assignee, which may legitimately be null.
The clock (`Instant.now()`) and the id generator (`UUID.randomUUID()`) become
parameters (`now`, `newId`). An `Instant` is an `int` and a `UUID` a `nat`.

`ToUpper` maps each character on its own (ASCII letters only, see below).

## Model

| member | source | states |
|---|---|---|
| JavaStrings.Trim | case-service/src/main/java/com/example/caseservice/application/usecase/UpdateCaseStatusUseCase.java:84 | `trim()` leaves a string with no strippable character (code point <= U+0020) at either end. It keeps only characters of the input, and it is empty exactly when every character is strippable. |
| JavaStrings.TrimRemovesPadding | case-service/src/main/java/com/example/caseservice/application/usecase/UpdateCaseStatusUseCase.java:84 | Trimming removes exactly the padding: `trim(p + t + q) == t` when `p` and `q` are strippable and `t` has solid ends. |
| JavaStrings.TrimIsInfix | case-service/src/main/java/com/example/caseservice/application/usecase/UpdateCaseStatusUseCase.java:84 | The result of `trim()` is one contiguous slice of the input, with only strippable characters before and after it. |
| JavaStrings.IsBlank | case-service/src/main/java/com/example/caseservice/application/usecase/UpdateCaseStatusUseCase.java:79 | `isBlank()` holds for the empty string and for a run of spaces. A blank string has no letter for upper-casing to change. |
| JavaStrings.UpperCasing | case-service/src/main/java/com/example/caseservice/application/usecase/UpdateCaseStatusUseCase.java:84 | `toUpperCase(Locale.ROOT)` on ASCII: each lower-case letter becomes its capital, every other character is kept, and no lower-case letter remains. |
| CaseStatusRules.ValueOf | case-service/src/main/java/com/example/caseservice/application/usecase/UpdateCaseStatusUseCase.java:87 | `valueOf` succeeds with `s` exactly when the string is `s`'s name (case-sensitive). |
| CaseStatusRules.NextInOrder | case-service/src/main/java/com/example/caseservice/domain/model/CaseStatus.java:35-38 | The reference order OPEN, IN_PROGRESS, DONE, CLOSED: a next state exists exactly below CLOSED, and it is one ordinal up. |
| CaseStatusRules.CanTransitionTo | case-service/src/main/java/com/example/caseservice/domain/model/CaseStatus.java:53-63 | A null target is never allowed. A move is allowed iff the target is the next state in declaration order, so every allowed move raises the ordinal by exactly one. |
| CaseStatusRules.ClosedIsTerminal | case-service/src/main/java/com/example/caseservice/domain/model/CaseStatus.java:44 | CLOSED allows no target at all. |
| CaseStatusRules.NoSelfLoop | case-service/src/main/java/com/example/caseservice/domain/model/CaseStatus.java:40-45 | No state may move to itself through the table. |
| CaseStatusRules.AtMostOneSuccessor | case-service/src/main/java/com/example/caseservice/domain/model/CaseStatus.java:40-45 | Two allowed targets of the same state are equal. |
| CaseStatusRules.PathAdvancesOneByOne | case-service/src/main/java/com/example/caseservice/domain/model/CaseStatus.java:35-45 | Along any chain of allowed moves the i-th state has ordinal first + i: no skipping, no regression. |
| CaseStatusRules.PathIsShortAndRepeatFree | case-service/src/main/java/com/example/caseservice/domain/model/CaseStatus.java:35-45 | A chain of allowed moves never repeats a state and has at most four states. The only four-state chain is OPEN, IN_PROGRESS, DONE, CLOSED. |
| CaseEntity.ChangeStatusTo | case-service/src/main/java/com/example/caseservice/domain/model/Case.java:114-145 | A null target fails with an argument error. The current status returns the same case. A move the table forbids fails with a transition error carrying (id, current, target). It succeeds iff the target is current or allowed. An actual change sets status to the target and `updatedAt` to `now`, and copies id, title, description, priority, assignee and `createdAt`. |
| CaseEntity.ChangeStatusIsForwardStep | case-service/src/main/java/com/example/caseservice/domain/model/Case.java:121-144 | A successful change keeps the identity fields. It either returns the case itself or moves its status exactly one state forward. |
| CaseEntity.ReplayIsForwardOnly | case-service/src/main/java/com/example/caseservice/domain/model/Case.java:114-145 | After any series of status requests (rejected ones leaving the case as it was), the identity fields are unchanged. The status has not gone back and has advanced at most one state per request. |
| CaseEntity.ReplayFromClosedStaysClosed | case-service/src/main/java/com/example/caseservice/domain/model/Case.java:126-132 | A CLOSED case stays CLOSED under any series of requests. |
| Dto.ToResponse | case-service/src/main/java/com/example/caseservice/application/dto/CaseResponse.java:21-45 | The projection carries all eight fields: the case can be read back from its response, so distinct cases have distinct responses. |
| Dto.ProjectAll | case-service/src/main/java/com/example/caseservice/application/usecase/ListCasesUseCase.java:35-47 | Mapping a list of cases gives the same length and order. The i-th response shows the i-th case. |
| Repository.Filter | case-service/src/main/java/com/example/caseservice/infrastructure/persistence/JpaCaseRepository.java:80-95 | The four filter combinations keep exactly the cases whose stored status and priority names equal the present filters. A list without repeated ids gives one without repeated ids. |
| Repository.FilterKeepsOrder | case-service/src/main/java/com/example/caseservice/infrastructure/persistence/JpaCaseRepository.java:80-95 | Filtering keeps the order of its input: filtering `a + b` is filtering `a`, then `b`. |
| Repository.CaseRepository.FindById | case-service/src/main/java/com/example/caseservice/domain/repo/CaseRepository.java:32-38 | `findById` is present exactly when the id is stored, and then holds the stored case. |
| Repository.CaseRepository.FindAll | case-service/src/main/java/com/example/caseservice/domain/repo/CaseRepository.java:40-50 | `findAll` returns only stored cases that match the filters, every stored case that matches, and no id twice. |
| Repository.CaseRepository.Save | case-service/src/main/java/com/example/caseservice/domain/repo/CaseRepository.java:22-30 | `save` stores the case under its id (create or replace), returns what it stored, and logs exactly one save call. |
| UpdateCaseStatus.ParseStatus | case-service/src/main/java/com/example/caseservice/application/usecase/UpdateCaseStatusUseCase.java:77-92 | Null fails with value "<null>". Any other rejection carries the raw string. A string parses to `s` iff trimming and upper-casing it gives `s`'s name, so the blank check never changes the outcome. |
| UpdateCaseStatus.BlankNeverNamesAStatus | case-service/src/main/java/com/example/caseservice/application/usecase/UpdateCaseStatusUseCase.java:79-91 | A blank string never normalises to a status name, so the lookup would reject it anyway. |
| UpdateCaseStatus.ParseIgnoresCaseAndPadding | case-service/src/main/java/com/example/caseservice/application/usecase/UpdateCaseStatusUseCase.java:84-87 | Any letter-case spelling of a name, padded by strippable characters, parses to that status (e.g. " in_progress\t"). |
| UpdateCaseStatus.ParseNameRoundTrip | case-service/src/main/java/com/example/caseservice/application/usecase/UpdateCaseStatusUseCase.java:84-87 | The exact name of every status parses back to that status. |
| UpdateCaseStatus.Execute | case-service/src/main/java/com/example/caseservice/application/usecase/UpdateCaseStatusUseCase.java:40-65 | An unknown id fails with not-found whatever the status string. Otherwise a parse error, then a transition error, is returned unchanged. Every failure leaves the store and save log untouched, and no outcome changes the first-save order of the ids. On success exactly one save, of the changed case, replaces the stored case, and the response is its projection. |
| CreateCase.Execute | case-service/src/main/java/com/example/caseservice/application/usecase/CreateCaseUseCase.java:36-80 | A null request, then a null or blank title, fails with an argument error and saves nothing. It succeeds iff neither applies. On success exactly one save: new id, trimmed non-blank title, verbatim description, OPEN, copied priority, no assignee, `createdAt = updatedAt = now`. The response projects the saved case, and a fresh id joins the end of the first-save order. |
| GetCase.Execute | case-service/src/main/java/com/example/caseservice/application/usecase/GetCaseUseCase.java:34-50 | Fails iff the id is not stored, and then with not-found for that id. Otherwise the response shows exactly the stored case. Being a function, it writes nothing. |
| GetCase.DependsOnlyOnTheEntry | case-service/src/main/java/com/example/caseservice/application/usecase/GetCaseUseCase.java:36-49 | Two stores that agree on the entry for `id` give the same answer. |
| ListCases.Execute | case-service/src/main/java/com/example/caseservice/application/usecase/ListCasesUseCase.java:34-48 | One response per case `findAll` returns for the unchanged filters, in order, each showing that case. Every response shows a stored matching case, and every stored matching case is shown exactly once. An empty result gives an empty list, and nothing is written. |

## Left out

- Web layer (controller, exception handler, prefix guard, error body): HTTP routing
  and the mapping of errors to status codes, with no kernel logic.
- Persistence adapters (JPA entity, Spring Data queries): replaced by the in-memory
  `Repository.CaseRepository`. Its `Save` returns exactly the case it was given.
  A storage failure (an opaque exception from the database) is never raised.
- Repository.CaseRepository.FindAll: returns matches in first-save order, not newest
  `createdAt` first. The database does that ordering, and nothing in the kernel
  depends on it.
- Bean-validation annotations (`@NotBlank`, `@Size(max = 200)` and
  `@Size(max = 4000)` on the create request, `@NotBlank` on the status request):
  the framework enforces them before the use cases run. Only the use cases' own
  defensive checks are modelled.
- Null `Case.status` and null priority: the Java constructor and the create use case
  accept a null priority. `CreateCaseUseCase` never checks it, and the first place
  that would fail is the adapter's `getPriority().name()`
  (`infrastructure/persistence/JpaCaseRepository.java:43`), outside the kernel. The
  model has no priority check, and both fields are non-null by type.
- A null `UpdateCaseStatusRequest` object: the Java fails with a
  `NullPointerException` after the lookup. The model takes the request as a value.
- JavaStrings.ToUpper: upper-cases ASCII letters only. Java's
  `toUpperCase(Locale.ROOT)` also maps some non-ASCII letters onto ASCII. Examples
  are dotless i to "I" and sharp s to "SS", so Java accepts "ın_progress" or
  "in_progreß" and the model rejects them.
- Exception message texts for not-found, invalid status and transition errors: the
  errors carry their data (id, raw value, states), not the formatted message.
- Time: no claim that `updatedAt` grows. The source stamps whatever the clock returns
  and never compares it with the previous value.
- Concurrency: races between concurrent status updates of one id. They belong to the
  storage layer, and the data model has no version field.
- The application-layer duplicate of `InvalidCaseStatusException`: only the domain one
  is thrown.
