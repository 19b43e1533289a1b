/** The exceptions the core throws, as values. */
module DomainErrors {
  import opened CaseStatusRules

  /** `java.util.UUID`; ids are drawn outside the model and only compared. */
  type Uuid = nat

  datatype Error =
    /** `IllegalArgumentException`: a caller broke a defensive check. */
    | IllegalArgument(message: string)
    /** `CaseNotFoundException(id)`. */
    | CaseNotFound(id: Uuid)
    /** `InvalidCaseStatusException(value)`: a status string that names no state. */
    | InvalidCaseStatus(value: string)
    /** `InvalidCaseStatusTransitionException(id, from, to)`: a move the table forbids. */
    | InvalidStatusTransition(caseId: Uuid, from: CaseStatus, to: CaseStatus)
}
