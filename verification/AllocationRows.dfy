/** Rows, filters, counters and pages of the allocation view. */
module AllocationRows {
  import opened Text
  import opened AllocationView

  datatype Kind = RequirementKind | ElementKind

  datatype Row = Row(
    kind: Kind,
    id: Id,
    elementId: Option<Id>,
    allocatedTo: Option<Id>,
    intent: Option<string>,
    tierKey: Option<string>,
    rowType: Option<string>,
    category: Option<string>,
    state: Option<string>,
    title: string,
    locked: Option<string>)

  datatype Requirement = Requirement(
    id: Id, artifact: Id, title: string, reqType: Option<string>, category: Option<string>,
    tierKey: Option<string>, intent: Option<string>, state: Option<string>)

  /** The query parameters; `None` where one is not given. */
  datatype Filter = Filter(
    isAllocated: Option<bool>,
    intent: Option<string>,
    tier: Option<string>,
    rowType: Option<string>,
    category: Option<string>,
    state: Option<string>,
    subtree: Option<Id>,
    q: Option<string>,
    open: Option<bool>)

  const NO_FILTER := Filter(None, None, None, None, None, None, None, None, None)

  const OPEN_FINAL_STATES: set<string> := {"approved", "done", "closed", "Freigegeben", "Abgelöst", "Archiviert"}

  // ---------- rows ----------

  /** The element on an artifact; of several the last. */
  function ElementOn(elements: seq<Element>, n: nat, artifact: Id): Option<Element>
    requires n <= |elements|
  {
    if n == 0 then None
    else if elements[n - 1].artifact == artifact then Some(elements[n - 1])
    else ElementOn(elements, n - 1, artifact)
  }

  /** The element a requirement is allocated to, if that is an element of this workspace. */
  function AllocatedElement(r: Requirement, elements: seq<Element>, allocation: map<Id, Id>): Option<Element> {
    if r.artifact in allocation then ElementOn(elements, |elements|, allocation[r.artifact]) else None
  }

  function RequirementRow(
    r: Requirement, elements: seq<Element>, allocation: map<Id, Id>, frozen: set<string>): Row
  {
    var e := AllocatedElement(r, elements, allocation);
    var state := if r.state.None? || r.state.value == "" then "draft" else r.state.value;
    Row(RequirementKind, r.id, if e.Some? then Some(e.value.id) else None,
        if r.artifact in allocation then Some(allocation[r.artifact]) else None,
        r.intent, r.tierKey, r.reqType, r.category, Some(state), r.title,
        if state in frozen then Some(state) else None)
  }

  function ElementRow(e: Element, frozen: set<string>): Row {
    Row(ElementKind, e.id, Some(e.id), None, None, None, Some(e.elementType), None, e.state, e.title,
        if e.state.Some? && e.state.value in frozen then e.state else None)
  }

  /** The element on an artifact is the last one there, if there is any. */
  lemma {:induction false} ElementOnExactly(elements: seq<Element>, n: nat, artifact: Id) returns (k: nat)
    requires n <= |elements|
    ensures
      var e := ElementOn(elements, n, artifact);
      if e.Some?
      then k < n && e.value == elements[k] && elements[k].artifact == artifact
           && forall j :: k < j < n ==> elements[j].artifact != artifact
      else forall j :: 0 <= j < n ==> elements[j].artifact != artifact
  {
    k := 0;
    if n > 0 {
      k := ElementOnExactly(elements, n - 1, artifact);
      if elements[n - 1].artifact == artifact {
        k := n - 1;
      }
    }
  }

  /** A requirement's row, field by field. Its element is the last on the artifact it is allocated to; an unset
      state shows as draft; a frozen state locks the row. */
  lemma {:induction false} RequirementShown(
    r: Requirement, elements: seq<Element>, allocation: map<Id, Id>, frozen: set<string>)
    ensures
      var row := RequirementRow(r, elements, allocation, frozen);
      && row.kind == RequirementKind && row.id == r.id && row.title == r.title
      && row.intent == r.intent && row.tierKey == r.tierKey && row.rowType == r.reqType && row.category == r.category
      && row.state == (if r.state in {None, Some("")} then Some("draft") else r.state)
      && (row.locked == if row.state.value in frozen then row.state else None)
    ensures
      var row := RequirementRow(r, elements, allocation, frozen);
      if r.artifact in allocation then row.allocatedTo == Some(allocation[r.artifact])
      else row.allocatedTo == None && row.elementId == None
    ensures forall k ::
      && 0 <= k < |elements| && r.artifact in allocation && elements[k].artifact == allocation[r.artifact]
      && (forall j :: k < j < |elements| ==> elements[j].artifact != allocation[r.artifact])
      ==> RequirementRow(r, elements, allocation, frozen).elementId == Some(elements[k].id)
    ensures
      && r.artifact in allocation
      && (forall k :: 0 <= k < |elements| ==> elements[k].artifact != allocation[r.artifact])
      ==> RequirementRow(r, elements, allocation, frozen).elementId == None
  {
    if r.artifact in allocation {
      var at := ElementOnExactly(elements, |elements|, allocation[r.artifact]);
    }
  }

  /** An element's row, field by field; only requirements have an allocation, an intent, a tier and a category. */
  lemma {:induction false} ElementShown(e: Element, frozen: set<string>)
    ensures
      var row := ElementRow(e, frozen);
      && row.kind == ElementKind && row.id == e.id && row.elementId == Some(e.id) && row.title == e.title
      && row.rowType == Some(e.elementType) && row.state == e.state
      && row.allocatedTo == None && row.intent == None && row.tierKey == None && row.category == None
      && (row.locked.Some? <==> e.state.Some? && e.state.value in frozen) && (row.locked.Some? ==> row.locked == e.state)
  {
  }

  // ---------- the filter ----------

  /** `matches`, branch by branch, with the ids of the chosen subtree. */
  predicate Matches(row: Row, f: Filter, subtree: set<Id>) {
    && (if row.kind.RequirementKind? then
          && (f.isAllocated.Some? ==> (row.allocatedTo.Some? <==> f.isAllocated.value))
          && (f.intent.Some? ==> row.intent == f.intent)
          && (f.category.Some? ==> row.category == f.category)
          && (f.open.Some? ==> ((row.state.Some? ==> row.state.value !in OPEN_FINAL_STATES) <==> f.open.value))
          && (f.subtree.Some? ==> row.elementId.Some? && row.elementId.value in subtree)
        else
          && f.isAllocated.None? && f.intent.None? && f.category.None? && f.open.None?
          && (f.subtree.Some? ==> row.id in subtree))
    && (f.tier.Some? ==> row.tierKey == f.tier)
    && (f.rowType.Some? ==> row.rowType == f.rowType)
    && (f.state.Some? ==> row.state == f.state)
    && (f.q.Some? ==> Contains(Lower(row.title), Lower(f.q.value)))
  }

  /** Every filter on its own. */
  function Alone(f: Filter): seq<Filter> {
    [NO_FILTER.(isAllocated := f.isAllocated), NO_FILTER.(intent := f.intent), NO_FILTER.(tier := f.tier),
     NO_FILTER.(rowType := f.rowType), NO_FILTER.(category := f.category), NO_FILTER.(state := f.state),
     NO_FILTER.(subtree := f.subtree), NO_FILTER.(q := f.q), NO_FILTER.(open := f.open)]
  }

  /** A combination of filters selects exactly what every one of them selects alone. */
  lemma {:induction false} FiltersIntersect(row: Row, f: Filter, subtree: set<Id>)
    ensures Matches(row, f, subtree) <==> forall i :: 0 <= i < 9 ==> Matches(row, Alone(f)[i], subtree)
  {
    var a := Alone(f);
    if forall i :: 0 <= i < 9 ==> Matches(row, a[i], subtree) {
      assert Matches(row, a[0], subtree) && Matches(row, a[1], subtree) && Matches(row, a[2], subtree);
      assert Matches(row, a[3], subtree) && Matches(row, a[4], subtree) && Matches(row, a[5], subtree);
      assert Matches(row, a[6], subtree) && Matches(row, a[7], subtree) && Matches(row, a[8], subtree);
    }
  }

  /** What every filter but the subtree's selects alone: allocation, intent, category and openness select among
      requirements only; the others compare a row's own field; the search text stands somewhere in the title,
      upper and lower case alike. */
  lemma {:induction false} OtherFilters(row: Row, subtree: set<Id>, flag: bool, text: string)
    ensures Matches(row, NO_FILTER, subtree)
    ensures Matches(row, NO_FILTER.(isAllocated := Some(flag)), subtree) <==>
              row.kind.RequirementKind? && (row.allocatedTo != None <==> flag)
    ensures Matches(row, NO_FILTER.(intent := Some(text)), subtree) <==>
              row.kind.RequirementKind? && row.intent == Some(text)
    ensures Matches(row, NO_FILTER.(category := Some(text)), subtree) <==>
              row.kind.RequirementKind? && row.category == Some(text)
    ensures Matches(row, NO_FILTER.(open := Some(flag)), subtree) <==>
              var final := ["approved", "done", "closed", "Freigegeben", "Abgelöst", "Archiviert"];
              row.kind.RequirementKind? && flag == !(row.state.Some? && row.state.value in final)
    ensures Matches(row, NO_FILTER.(tier := Some(text)), subtree) <==> row.tierKey == Some(text)
    ensures Matches(row, NO_FILTER.(rowType := Some(text)), subtree) <==> row.rowType == Some(text)
    ensures Matches(row, NO_FILTER.(state := Some(text)), subtree) <==> row.state == Some(text)
    ensures Matches(row, NO_FILTER.(q := Some(text)), subtree) <==>
              exists before, after :: Pieces(Lower(row.title), before, Lower(text), after)
  {
    ContainsExactly(Lower(row.title), Lower(text));
  }

  /** A row lies in the subtree of `root`: following parent pointers up from its element reaches `root`. */
  ghost predicate InSubtree(row: Row, elements: seq<Element>, root: Id) {
    row.elementId.Some? && UpTo(elements, row.elementId.value, root)
  }

  /** The same filter with the subtree said through parent pointers. */
  ghost predicate Passes(row: Row, f: Filter, elements: seq<Element>) {
    Matches(row, f.(subtree := None), {}) && (f.subtree.Some? ==> InSubtree(row, elements, f.subtree.value))
  }

  /** The worklist's set and the parent pointers select the same rows. */
  lemma {:induction false} MatchesIsPasses(row: Row, f: Filter, elements: seq<Element>, subtree: set<Id>)
    requires row.kind.ElementKind? ==> row.elementId == Some(row.id)
    requires f.subtree.Some? ==> forall x :: x in subtree <==> UpTo(elements, x, f.subtree.value)
    ensures Matches(row, f, subtree) <==> Passes(row, f, elements)
  {
  }

  /** With only the subtree filter set, a requirement passes iff it is allocated to an element from which the
      parent pointers lead up to the chosen root. */
  lemma {:induction false} OnlySubtree(
    r: Requirement, elements: seq<Element>, allocation: map<Id, Id>, frozen: set<string>, root: Id)
    ensures Passes(RequirementRow(r, elements, allocation, frozen), NO_FILTER.(subtree := Some(root)), elements) <==>
              var e := AllocatedElement(r, elements, allocation);
              e.Some? && UpTo(elements, e.value.id, root)
  {
  }

  /** ... and an element passes iff its own parent pointers do. */
  lemma {:induction false} OnlySubtreeElement(e: Element, frozen: set<string>, root: Id, elements: seq<Element>)
    ensures Passes(ElementRow(e, frozen), NO_FILTER.(subtree := Some(root)), elements) <==> UpTo(elements, e.id, root)
  {
  }

  // ---------- selecting ----------

  ghost function Selected(rows: seq<Row>, n: nat, f: Filter, elements: seq<Element>): seq<Row>
    requires n <= |rows|
  {
    if n == 0 then []
    else Selected(rows, n - 1, f, elements) + if Passes(rows[n - 1], f, elements) then [rows[n - 1]] else []
  }

  lemma {:induction false} SelectedIsPicked(
    rows: seq<Row>, passing: seq<bool>, n: nat, f: Filter, elements: seq<Element>)
    requires n <= |rows| == |passing| && forall i :: 0 <= i < |rows| ==> passing[i] == Passes(rows[i], f, elements)
    ensures Selected(rows, n, f, elements) == Picked(rows, passing, n)
  {
    if n > 0 {
      SelectedIsPicked(rows, passing, n - 1, f, elements);
      assert passing[n - 1] == Passes(rows[n - 1], f, elements);
    }
  }

  /** Selecting keeps, in order, the rows at exactly the positions that pass. */
  lemma {:induction false} SelectedExactly(rows: seq<Row>, f: Filter, elements: seq<Element>)
    returns (at: seq<nat>, passing: seq<bool>)
    ensures |passing| == |rows| && forall i :: 0 <= i < |rows| ==> (passing[i] <==> Passes(rows[i], f, elements))
    ensures Picks(rows, passing, |rows|, Selected(rows, |rows|, f, elements), at)
  {
    passing := seq(|rows|, i requires 0 <= i < |rows| => Passes(rows[i], f, elements));
    SelectedIsPicked(rows, passing, |rows|, f, elements);
    at := PickedPicks(rows, passing, |rows|);
  }

  ghost predicate WellFormed(rows: seq<Row>) {
    forall i :: 0 <= i < |rows| && rows[i].kind.ElementKind? ==> rows[i].elementId == Some(rows[i].id)
  }

  method Filtered(rows: seq<Row>, f: Filter, elements: seq<Element>, subtree: set<Id>) returns (r: seq<Row>)
    requires WellFormed(rows)
    requires f.subtree.Some? ==> forall x :: x in subtree <==> UpTo(elements, x, f.subtree.value)
    ensures r == Selected(rows, |rows|, f, elements)
  {
    r := [];
    for i := 0 to |rows|
      invariant r == Selected(rows, i, f, elements)
    {
      MatchesIsPasses(rows[i], f, elements, subtree);
      if Matches(rows[i], f, subtree) {
        r := r + [rows[i]];
      }
    }
  }

  function AllRows(
    elements: seq<Element>, requirements: seq<Requirement>, allocation: map<Id, Id>,
    frozenRequirements: set<string>, frozenElements: set<string>)
    : seq<Row>
  {
    seq(|requirements|,
        i requires 0 <= i < |requirements| => RequirementRow(requirements[i], elements, allocation, frozenRequirements))
    + seq(|elements|, i requires 0 <= i < |elements| => ElementRow(elements[i], frozenElements))
  }

  /** The requirements' rows in order, then the elements'. */
  lemma {:induction false} AllRowsAt(
    elements: seq<Element>, requirements: seq<Requirement>, allocation: map<Id, Id>,
    frozenRequirements: set<string>, frozenElements: set<string>, i: nat)
    ensures
      var rows := AllRows(elements, requirements, allocation, frozenRequirements, frozenElements);
      && |rows| == |requirements| + |elements|
      && (i < |requirements| ==> rows[i] == RequirementRow(requirements[i], elements, allocation, frozenRequirements))
      && (i < |elements| ==> rows[|requirements| + i] == ElementRow(elements[i], frozenElements))
  {
  }

  // ---------- counters and pages ----------

  function Unallocated(rows: seq<Row>): nat {
    if rows == [] then 0
    else (if rows[0].kind.RequirementKind? && rows[0].allocatedTo.None? then 1 else 0) + Unallocated(rows[1..])
  }

  function Locked(rows: seq<Row>): nat {
    if rows == [] then 0 else (if rows[0].locked.Some? then 1 else 0) + Locked(rows[1..])
  }

  /** `rows[offset : offset + size]`. */
  function Slice(rows: seq<Row>, offset: nat, size: nat): seq<Row> {
    if offset >= |rows| then []
    else if offset + size > |rows| then rows[offset..]
    else rows[offset..offset + size]
  }

  /** The page holds what stands from the offset on, as many rows as there are and at most its size. */
  lemma {:induction false} SliceExactly(rows: seq<Row>, offset: nat, size: nat, k: nat)
    ensures
      var page := Slice(rows, offset, size);
      && |page| <= size && (|page| < size ==> |rows| <= offset + |page|) && (|page| > 0 ==> offset + |page| <= |rows|)
      && (k < |page| ==> page[k] == rows[offset + k])
  {
  }

  lemma {:induction false} OneMoreRow(rows: seq<Row>, n: nat)
    requires n < |rows|
    ensures Unallocated(rows[..n + 1]) == Unallocated(rows[..n]) + if Free(rows[n]) then 1 else 0
    ensures Locked(rows[..n + 1]) == Locked(rows[..n]) + if Frozen(rows[n]) then 1 else 0
  {
    CountersAdd(rows[..n], [rows[n]]);
    assert rows[..n + 1] == rows[..n] + [rows[n]];
  }

  ghost predicate Free(row: Row) {
    row.kind == RequirementKind && row.allocatedTo == None
  }

  ghost predicate Frozen(row: Row) {
    row.locked != None
  }

  /** The positions below `n` of requirements allocated nowhere. */
  ghost function FreeBelow(rows: seq<Row>, n: nat): set<nat> {
    set i: nat | i < n && i < |rows| && Free(rows[i])
  }

  ghost function LockedBelow(rows: seq<Row>, n: nat): set<nat> {
    set i: nat | i < n && i < |rows| && Frozen(rows[i])
  }

  lemma {:induction false} OneMoreFree(rows: seq<Row>, n: nat)
    requires n < |rows|
    ensures |FreeBelow(rows, n + 1)| == |FreeBelow(rows, n)| + if Free(rows[n]) then 1 else 0
  {
    if Free(rows[n]) {
      assert FreeBelow(rows, n + 1) == FreeBelow(rows, n) + {n};
    } else {
      assert FreeBelow(rows, n + 1) == FreeBelow(rows, n);
    }
  }

  lemma {:induction false} OneMoreLocked(rows: seq<Row>, n: nat)
    requires n < |rows|
    ensures |LockedBelow(rows, n + 1)| == |LockedBelow(rows, n)| + if Frozen(rows[n]) then 1 else 0
  {
    if Frozen(rows[n]) {
      assert LockedBelow(rows, n + 1) == LockedBelow(rows, n) + {n};
    } else {
      assert LockedBelow(rows, n + 1) == LockedBelow(rows, n);
    }
  }

  /** The counters count: the requirements allocated nowhere, and the locked rows. */
  lemma {:induction false} CountersCount(rows: seq<Row>, n: nat)
    requires n <= |rows|
    ensures Unallocated(rows[..n]) == |FreeBelow(rows, n)|
    ensures Locked(rows[..n]) == |LockedBelow(rows, n)|
  {
    if n == 0 {
      assert FreeBelow(rows, 0) == {} && LockedBelow(rows, 0) == {};
    } else {
      CountersCount(rows, n - 1);
      OneMoreRow(rows, n - 1);
      OneMoreFree(rows, n - 1);
      OneMoreLocked(rows, n - 1);
    }
  }

  datatype Listing =
    | Refused
    | Page(results: seq<Row>, total: nat, unallocated: nat, locked: nat, findings: nat, pageSize: nat, offset: nat)

  /** `list`: the page is a slice of the selected rows; the counters are about all of them. */
  method List(
    elements: seq<Element>, requirements: seq<Requirement>, allocation: map<Id, Id>,
    frozenRequirements: set<string>, frozenElements: set<string>, f: Filter, pageSize: int, offset: int)
    returns (r: Listing)
    ensures r.Refused? <==> pageSize < 1 || pageSize > 500 || offset < 0
    ensures r.Page? ==>
      var rows := AllRows(elements, requirements, allocation, frozenRequirements, frozenElements);
      var selected := Selected(rows, |rows|, f, elements);
      && r.results == Slice(selected, offset, pageSize)
      && r.total == |selected| && r.unallocated == Unallocated(selected) && r.locked == Locked(selected)
      && r.findings == 0 && r.pageSize == pageSize && r.offset == offset
  {
    if pageSize < 1 || pageSize > 500 || offset < 0 {
      return Refused;
    }
    var children := BuildChildren(elements);
    var subtree: set<Id> := {};
    if f.subtree.Some? {
      subtree := Subtree(children, f.subtree.value);
      forall x
        ensures x in subtree <==> UpTo(elements, x, f.subtree.value)
      {
        DownIsUp(children, elements, f.subtree.value, x);
      }
    }
    var rows := AllRows(elements, requirements, allocation, frozenRequirements, frozenElements);
    var filtered := Filtered(rows, f, elements, subtree);
    return Page(
        Slice(filtered, offset, pageSize), |filtered|, Unallocated(filtered), Locked(filtered), 0, pageSize, offset);
  }

  /** Successive pages from `offset` on, put together. */
  ghost function Pages(rows: seq<Row>, offset: nat, size: nat): seq<Row>
    requires size >= 1
    decreases |rows| - offset
  {
    if offset >= |rows| then [] else Slice(rows, offset, size) + Pages(rows, offset + size, size)
  }

  /** `rows[offset:]`. */
  function From(rows: seq<Row>, offset: nat): seq<Row> {
    if offset <= |rows| then rows[offset..] else []
  }

  lemma {:induction false} SliceThen(rows: seq<Row>, offset: nat, size: nat)
    ensures From(rows, offset) == Slice(rows, offset, size) + From(rows, offset + size)
  {
  }

  /** These are the rows from the offset on. */
  ghost predicate Rest(rows: seq<Row>, offset: nat, paged: seq<Row>) {
    paged == From(rows, offset)
  }

  lemma {:induction false} PagesStep(rows: seq<Row>, offset: nat, size: nat, rest: seq<Row>)
    requires size >= 1 && offset < |rows| && rest == Pages(rows, offset + size, size)
    requires Rest(rows, offset + size, rest)
    ensures Rest(rows, offset, Pages(rows, offset, size))
  {
    SliceThen(rows, offset, size);
  }

  lemma {:induction false} PagesEnd(rows: seq<Row>, offset: nat, size: nat)
    requires size >= 1 && offset >= |rows|
    ensures Rest(rows, offset, Pages(rows, offset, size))
  {
  }

  lemma {:induction false} PagesAreFrom(rows: seq<Row>, offset: nat, size: nat)
    requires size >= 1
    ensures Rest(rows, offset, Pages(rows, offset, size))
    decreases |rows| - offset
  {
    if offset < |rows| {
      PagesAreFrom(rows, offset + size, size);
      PagesStep(rows, offset, size, Pages(rows, offset + size, size));
    } else {
      PagesEnd(rows, offset, size);
    }
  }

  /** Paging shows every selected row once and in order. */
  lemma {:induction false} PagesCover(rows: seq<Row>, offset: nat, size: nat)
    requires size >= 1 && offset <= |rows|
    ensures Pages(rows, offset, size) == rows[offset..]
  {
    PagesAreFrom(rows, offset, size);
  }

  lemma {:induction false} CountersAdd(a: seq<Row>, b: seq<Row>)
    ensures Unallocated(a + b) == Unallocated(a) + Unallocated(b) && Locked(a + b) == Locked(a) + Locked(b)
  {
    if a == [] {
      assert a + b == b;
    } else {
      CountersAdd(a[1..], b);
      assert (a + b)[1..] == a[1..] + b;
    }
  }

  /** What the pages show, counted page by page. */
  ghost function Shown(rows: seq<Row>, offset: nat, size: nat): (nat, nat)
    requires size >= 1
    decreases |rows| - offset
  {
    if offset >= |rows| then (0, 0)
    else
      var page, rest := Slice(rows, offset, size), Shown(rows, offset + size, size);
      (Unallocated(page) + rest.0, Locked(page) + rest.1)
  }

  lemma {:induction false} ShownUnfold(rows: seq<Row>, offset: nat, size: nat, rest: (nat, nat))
    requires size >= 1 && offset < |rows| && rest == Shown(rows, offset + size, size)
    ensures
      var page := Slice(rows, offset, size);
      Shown(rows, offset, size) == (Unallocated(page) + rest.0, Locked(page) + rest.1)
  {
  }

  lemma {:induction false} CountersThen(rows: seq<Row>, offset: nat, size: nat)
    ensures
      var page, rest := Slice(rows, offset, size), From(rows, offset + size);
      && Unallocated(From(rows, offset)) == Unallocated(page) + Unallocated(rest)
      && Locked(From(rows, offset)) == Locked(page) + Locked(rest)
  {
    SliceThen(rows, offset, size);
    CountersAdd(Slice(rows, offset, size), From(rows, offset + size));
  }

  /** These are the counters of the rows from the offset on. */
  ghost predicate Totals(rows: seq<Row>, offset: nat, counters: (nat, nat)) {
    counters == (Unallocated(From(rows, offset)), Locked(From(rows, offset)))
  }

  lemma {:induction false} ShownStep(rows: seq<Row>, offset: nat, size: nat, rest: (nat, nat))
    requires size >= 1 && offset < |rows| && rest == Shown(rows, offset + size, size)
    requires Totals(rows, offset + size, rest)
    ensures Totals(rows, offset, Shown(rows, offset, size))
  {
    ShownUnfold(rows, offset, size, rest);
    CountersThen(rows, offset, size);
  }

  lemma {:induction false} NothingShown(rows: seq<Row>, offset: nat, size: nat)
    requires size >= 1 && offset >= |rows|
    ensures Totals(rows, offset, Shown(rows, offset, size))
  {
    assert From(rows, offset) == [];
  }

  lemma {:induction false} ShownFrom(rows: seq<Row>, offset: nat, size: nat)
    requires size >= 1
    ensures Totals(rows, offset, Shown(rows, offset, size))
    decreases |rows| - offset
  {
    if offset < |rows| {
      ShownFrom(rows, offset + size, size);
      ShownStep(rows, offset, size, Shown(rows, offset + size, size));
    } else {
      NothingShown(rows, offset, size);
    }
  }

  /** The counters every page carries are what the pages add up to. */
  lemma {:induction false} CountersAreTotals(rows: seq<Row>, offset: nat, size: nat)
    requires size >= 1 && offset <= |rows|
    ensures Shown(rows, offset, size) == (Unallocated(rows[offset..]), Locked(rows[offset..]))
  {
    ShownFrom(rows, offset, size);
  }
}
