/** The case lifecycle and its rule table (`CaseStatus` with `ALLOWED_TRANSITIONS`). */
module CaseStatusRules {
  import opened Wrappers

  /** The four states, in declaration order. */
  datatype CaseStatus = OPEN | IN_PROGRESS | DONE | CLOSED

  /** `Enum.ordinal()`: the position in the declaration. */
  function Ordinal(s: CaseStatus): nat {
    match s
    case OPEN => 0
    case IN_PROGRESS => 1
    case DONE => 2
    case CLOSED => 3
  }

  /** `Enum.name()`. */
  function Name(s: CaseStatus): string {
    match s
    case OPEN => "OPEN"
    case IN_PROGRESS => "IN_PROGRESS"
    case DONE => "DONE"
    case CLOSED => "CLOSED"
  }

  /** `CaseStatus.valueOf(name)`: an exact, case-sensitive match on the names;
      `None` is the `IllegalArgumentException` it throws otherwise. */
  function ValueOf(name: string): (r: Option<CaseStatus>)
    ensures forall s :: r == Some(s) <==> name == Name(s)
  {
    if name == "OPEN" then Some(OPEN)
    else if name == "IN_PROGRESS" then Some(IN_PROGRESS)
    else if name == "DONE" then Some(DONE)
    else if name == "CLOSED" then Some(CLOSED)
    else None
  }

  /** The lifecycle as a linear order: the state declared right after `s`, if any.
      This is the reference the rule table is checked against. */
  function NextInOrder(s: CaseStatus): (r: Option<CaseStatus>)
    ensures r.Some? <==> Ordinal(s) < 3
    ensures r.Some? ==> Ordinal(r.value) == Ordinal(s) + 1
  {
    match s
    case OPEN => Some(IN_PROGRESS)
    case IN_PROGRESS => Some(DONE)
    case DONE => Some(CLOSED)
    case CLOSED => None
  }

  /** `ALLOWED_TRANSITIONS`: OPEN -> {IN_PROGRESS}, IN_PROGRESS -> {DONE},
      DONE -> {CLOSED}, CLOSED -> {}. */
  const AllowedTransitions: map<CaseStatus, set<CaseStatus>> :=
    map[OPEN := {IN_PROGRESS}, IN_PROGRESS := {DONE}, DONE := {CLOSED}, CLOSED := {}]

  /** `from.canTransitionTo(target)`, with `None` for a null target. The table agrees
      with the linear order: a move is allowed exactly when it goes to the next state. */
  function CanTransitionTo(from: CaseStatus, target: Option<CaseStatus>): (r: bool)
    ensures target.None? ==> !r
    ensures r <==> target.Some? && NextInOrder(from) == target
    ensures r ==> Ordinal(target.value) == Ordinal(from) + 1
  {
    if target.None? then false
    else
      var allowed := if from in AllowedTransitions then AllowedTransitions[from] else {};
      target.value in allowed
  }

  /** CLOSED is terminal. */
  lemma ClosedIsTerminal(target: Option<CaseStatus>)
    ensures !CanTransitionTo(CLOSED, target)
  {
  }

  /** The table has no self-loops. */
  lemma NoSelfLoop(s: CaseStatus)
    ensures !CanTransitionTo(s, Some(s))
  {
  }

  /** Every state has at most one permitted successor. */
  lemma AtMostOneSuccessor(s: CaseStatus, a: CaseStatus, b: CaseStatus)
    requires CanTransitionTo(s, Some(a)) && CanTransitionTo(s, Some(b))
    ensures a == b
  {
  }

  /** A path of permitted moves. */
  predicate IsTransitionPath(path: seq<CaseStatus>) {
    forall i :: 0 <= i < |path| - 1 ==> CanTransitionTo(path[i], Some(path[i + 1]))
  }

  /** Along any path of permitted moves every step advances the ordinal by exactly one:
      no move skips a state and none goes back. */
  lemma {:induction false} PathAdvancesOneByOne(path: seq<CaseStatus>)
    requires IsTransitionPath(path)
    ensures forall i :: 0 <= i < |path| ==> Ordinal(path[i]) == Ordinal(path[0]) + i
  {
    if |path| > 1 {
      var init := path[..|path| - 1];
      assert IsTransitionPath(init) by {
        forall i | 0 <= i < |init| - 1
          ensures CanTransitionTo(init[i], Some(init[i + 1]))
        {
          assert init[i] == path[i] && init[i + 1] == path[i + 1];
        }
      }
      PathAdvancesOneByOne(init);
      assert CanTransitionTo(path[|path| - 2], Some(path[|path| - 1]));
      forall i | 0 <= i < |path| ensures Ordinal(path[i]) == Ordinal(path[0]) + i {
        if i < |path| - 1 {
          assert path[i] == init[i];
        }
      }
    }
  }

  /** Hence no path of permitted moves repeats a state, visits more than the four
      states, and the only complete path from OPEN runs through every state in order. */
  lemma PathIsShortAndRepeatFree(path: seq<CaseStatus>)
    requires IsTransitionPath(path)
    ensures |path| <= 4
    ensures forall i, j :: 0 <= i < j < |path| ==> path[i] != path[j]
    ensures |path| == 4 ==> path == [OPEN, IN_PROGRESS, DONE, CLOSED]
  {
    PathAdvancesOneByOne(path);
    if |path| > 0 {
      assert Ordinal(path[|path| - 1]) <= 3;
    }
    if |path| == 4 {
      assert Ordinal(path[0]) == 0 && Ordinal(path[3]) == 3;
      assert Ordinal(path[1]) == 1 && Ordinal(path[2]) == 2;
    }
  }
}
