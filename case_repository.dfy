/** The storage port `CaseRepository` (save, findById, findAll), as an in-memory store.
    The use cases see only these three operations. */
module Repository {
  import opened Wrappers
  import opened CaseStatusRules
  import opened DomainErrors
  import opened CaseEntity

  /** The filter of `findAll`: each present filter must equal the stored enum name,
      which is how the adapter stores status and priority (`Enum.name()`). The four
      combinations of present and absent filters are the four queries the adapter
      chooses between. */
  predicate Matches(c: Case, status: Option<string>, priority: Option<string>) {
    && (status.None? || Name(c.status) == status.value)
    && (priority.None? || PriorityName(c.priority) == priority.value)
  }

  /** No two cases of `cases` share an id. */
  predicate DistinctIds(cases: seq<Case>) {
    forall i, j :: 0 <= i < j < |cases| ==> cases[i].id != cases[j].id
  }

  /** The cases stored under `keys`, in that order: one row per key. */
  function RowsOf(keys: seq<Uuid>, m: map<Uuid, Case>): (r: seq<Case>)
    requires forall k :: k in keys ==> k in m
    ensures |r| == |keys|
    ensures forall i :: 0 <= i < |r| ==> r[i] == m[keys[i]]
    ensures forall k :: k in keys ==> m[k] in r
    ensures forall c :: c in r ==> c in m.Values
  {
    if keys == [] then [] else [m[keys[0]]] + RowsOf(keys[1..], m)
  }

  /** The matching cases of `cases`, in their order (`FilterKeepsOrder`); a list
      without repeated ids gives one without repeated ids. */
  function Filter(cases: seq<Case>, status: Option<string>, priority: Option<string>): (r: seq<Case>)
    ensures forall c :: c in r <==> c in cases && Matches(c, status, priority)
    ensures |r| <= |cases|
    ensures DistinctIds(cases) ==> DistinctIds(r)
  {
    if cases == [] then []
    else
      var rest := Filter(cases[1..], status, priority);
      assert DistinctIds(cases) ==> DistinctIds([cases[0]] + rest) by {
        if DistinctIds(cases) {
          forall j | 0 <= j < |rest| ensures rest[j].id != cases[0].id {
            assert rest[j] in cases[1..];
          }
        }
      }
      if Matches(cases[0], status, priority) then [cases[0]] + rest else rest
  }

  /** Filtering keeps the order of its input: filtering a concatenation is
      concatenating the filtered parts. */
  lemma {:induction false} FilterKeepsOrder(a: seq<Case>, b: seq<Case>, status: Option<string>, priority: Option<string>)
    ensures Filter(a + b, status, priority) == Filter(a, status, priority) + Filter(b, status, priority)
  {
    if a == [] {
      assert a + b == b;
    } else {
      var x, tail := a[0], a[1..];
      var h := if Matches(x, status, priority) then [x] else [];
      var ft, fb := Filter(tail, status, priority), Filter(b, status, priority);
      assert a + b == [x] + (tail + b);
      assert a == [x] + tail;
      calc {
        Filter(a + b, status, priority);
        { FilterCons(x, tail + b, status, priority); }
        h + Filter(tail + b, status, priority);
        { FilterKeepsOrder(tail, b, status, priority); }
        h + (ft + fb);
        (h + ft) + fb;
        { FilterCons(x, tail, status, priority); }
        Filter(a, status, priority) + fb;
      }
    }
  }

  /** Filtering a list that starts with `x` keeps `x` in front exactly when it matches. */
  lemma FilterCons(x: Case, rest: seq<Case>, status: Option<string>, priority: Option<string>)
    ensures Filter([x] + rest, status, priority) ==
              (if Matches(x, status, priority) then [x] else []) + Filter(rest, status, priority)
  {
    assert ([x] + rest)[1..] == rest;
  }

  class CaseRepository {
    /** The stored cases by id. */
    var store: map<Uuid, Case>
    /** The ids in the order they were first saved. */
    var order: seq<Uuid>
    /** Every case handed to `Save`, in call order (what a test's spy would record). */
    ghost var saveLog: seq<Case>

    ghost predicate Valid()
      reads this
    {
      && (forall k :: k in store ==> store[k].id == k)
      && (forall k :: k in order <==> k in store)
      && (forall i, j :: 0 <= i < j < |order| ==> order[i] != order[j])
    }

    constructor ()
      ensures Valid()
      ensures store == map[] && order == [] && saveLog == []
    {
      store := map[];
      order := [];
      saveLog := [];
    }

    /** `findById(id)`: the case stored under `id`, or nothing when there is none. */
    function FindById(id: Uuid): (r: Option<Case>)
      reads this
      ensures r.Some? <==> id in store
      ensures r.Some? ==> r.value == store[id]
    {
      if id in store then Some(store[id]) else None
    }

    /** `findAll(status, priority)`: exactly the stored cases that match the filters,
        each of them once. */
    function FindAll(status: Option<string>, priority: Option<string>): (r: seq<Case>)
      reads this
      requires Valid()
      ensures forall c :: c in r ==> c.id in store && store[c.id] == c && Matches(c, status, priority)
      ensures forall id :: id in store && Matches(store[id], status, priority) ==> store[id] in r
      ensures DistinctIds(r)
    {
      var rows := RowsOf(order, store);
      assert DistinctIds(rows) by {
        assert forall i :: 0 <= i < |rows| ==> rows[i].id == order[i];
      }
      Filter(rows, status, priority)
    }

    /** `save(c)`: creates or replaces the case stored under `c.id` and returns what
        was stored. */
    method Save(c: Case) returns (saved: Case)
      requires Valid()
      modifies this
      ensures Valid()
      ensures saved == c
      ensures store == old(store)[c.id := c]
      ensures order == if c.id in old(store) then old(order) else old(order) + [c.id]
      ensures saveLog == old(saveLog) + [c]
    {
      if c.id !in store {
        order := order + [c.id];
      }
      store := store[c.id := c];
      saveLog := saveLog + [c];
      saved := c;
    }
  }
}
