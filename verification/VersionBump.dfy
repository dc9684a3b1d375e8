/** Setting the released version in every JSON carrier: one file, the grouping by file, all files. */
module VersionBump {
  import opened Text
  import opened PyJson
  import opened JsonPointer

  /** One concrete version string inside a manifest. */
  datatype Location = Location(path: string, pointer: Pointer)

  /** The checkout's JSON files; `None` for one that does not parse. */
  type Files = map<string, Option<Json>>

  // ---------- one file ----------

  datatype FileEdit = Edited(doc: Json, changed: nat) | NotAddressable(error: PyError)

  /** The inner loop from pointer `i` on. */
  function SetAll(doc: Json, pointers: seq<Pointer>, i: nat, value: string, changed: nat): FileEdit
    requires i <= |pointers|
    decreases |pointers| - i
  {
    if i == |pointers| then Edited(doc, changed)
    else
      match SetPointer(doc, pointers[i], value)
      case Failed(error) => NotAddressable(error)
      case Unchanged => SetAll(doc, pointers, i + 1, value, changed)
      case Changed(data) => SetAll(data, pointers, i + 1, value, changed + 1)
  }

  /** No pointer is empty or leads to or through another. */
  ghost predicate Independent(pointers: seq<Pointer>) {
    && (forall k :: 0 <= k < |pointers| ==> pointers[k] != [])
    && (forall j, k :: 0 <= j < k < |pointers| ==> !Comparable(pointers[j], pointers[k]))
  }

  /** How many pointers from `i` on do not read `value` yet. */
  function Stale(doc: Json, pointers: seq<Pointer>, i: nat, value: string): nat
    requires i <= |pointers|
    decreases |pointers| - i
  {
    if i == |pointers| then 0
    else (if Dig(doc, pointers[i]) == Some(Str(value)) then 0 else 1) + Stale(doc, pointers, i + 1, value)
  }

  ghost predicate AllAddressed(doc: Json, pointers: seq<Pointer>, i: nat)
    requires i <= |pointers|
  {
    forall k :: i <= k < |pointers| ==> Dig(doc, pointers[k]).Some?
  }

  ghost predicate AllRead(doc: Json, pointers: seq<Pointer>, i: nat, value: string)
    requires i <= |pointers|
  {
    forall k :: i <= k < |pointers| ==> Dig(doc, pointers[k]) == Some(Str(value))
  }

  /** Two documents read the same under every pointer from `i` on. */
  ghost predicate Agree(doc: Json, doc': Json, pointers: seq<Pointer>, i: nat)
    requires i <= |pointers|
  {
    forall k :: i <= k < |pointers| ==> Dig(doc', pointers[k]) == Dig(doc, pointers[k])
  }

  lemma {:induction false} StaleAgree(doc: Json, doc': Json, pointers: seq<Pointer>, i: nat, value: string)
    requires i <= |pointers| && Agree(doc, doc', pointers, i)
    ensures Stale(doc', pointers, i, value) == Stale(doc, pointers, i, value)
    decreases |pointers| - i
  {
    if i < |pointers| {
      StaleAgree(doc, doc', pointers, i + 1, value);
    }
  }

  lemma {:induction false} StaleNone(doc: Json, pointers: seq<Pointer>, i: nat, value: string)
    requires i <= |pointers|
    ensures Stale(doc, pointers, i, value) == 0 <==> AllRead(doc, pointers, i, value)
    decreases |pointers| - i
  {
    if i < |pointers| {
      StaleNone(doc, pointers, i + 1, value);
    }
  }

  /** Pointer `k` reads something else than the value. */
  ghost predicate StaleAt(doc: Json, pointers: seq<Pointer>, k: nat, value: string)
    requires k < |pointers|
  {
    Dig(doc, pointers[k]) != Some(Str(value))
  }

  lemma {:induction false} StaleMarked(doc: Json, pointers: seq<Pointer>, i: nat, value: string, stale: seq<bool>)
    requires i <= |pointers| == |stale|
    requires forall k :: 0 <= k < |pointers| ==> stale[k] == StaleAt(doc, pointers, k, value)
    ensures Stale(doc, pointers, i, value) == |Marks(stale, i)|
    decreases |pointers| - i
  {
    if i == |pointers| {
      assert Marks(stale, i) == {};
    } else {
      StaleMarked(doc, pointers, i + 1, value, stale);
      MarksNext(stale, i);
      assert stale[i] == StaleAt(doc, pointers, i, value);
    }
  }

  /** The count is the number of pointers under which the value does not stand. */
  lemma {:induction false} StaleCounts(doc: Json, pointers: seq<Pointer>, value: string) returns (stale: seq<bool>)
    ensures |stale| == |pointers|
    ensures forall k :: 0 <= k < |pointers| ==> stale[k] == (Dig(doc, pointers[k]) != Some(Str(value)))
    ensures Stale(doc, pointers, 0, value) == |set k: nat | k < |stale| && stale[k]|
  {
    stale := seq(|pointers|, k requires 0 <= k < |pointers| => StaleAt(doc, pointers, k, value));
    StaleMarked(doc, pointers, 0, value, stale);
    assert Marks(stale, 0) == (set k: nat | k < |stale| && stale[k]);
  }

  lemma {:induction false} StepAgrees(doc: Json, pointers: seq<Pointer>, i: nat, value: string)
    requires i < |pointers| && Independent(pointers) && |value| != 1
    requires SetPointer(doc, pointers[i], value).Changed?
    ensures Agree(doc, SetPointer(doc, pointers[i], value).data, pointers, i + 1)
  {
    forall k | i + 1 <= k < |pointers|
      ensures Dig(SetPointer(doc, pointers[i], value).data, pointers[k]) == Dig(doc, pointers[k])
    {
      OtherLeavesKept(doc, pointers[i], value, pointers[k]);
    }
  }

  /** A leaf that no pointer of the file leads to or through stays as it was. */
  lemma {:induction false} UntouchedLeaf(
    doc: Json, pointers: seq<Pointer>, i: nat, value: string, changed: nat, q: Pointer)
    requires i <= |pointers| && Independent(pointers) && |value| != 1
    requires SetAll(doc, pointers, i, value, changed).Edited?
    requires forall k :: i <= k < |pointers| ==> !Comparable(pointers[k], q)
    ensures Dig(SetAll(doc, pointers, i, value, changed).doc, q) == Dig(doc, q)
    decreases |pointers| - i
  {
    if i < |pointers| {
      var edit := SetPointer(doc, pointers[i], value);
      if edit.Changed? {
        OtherLeavesKept(doc, pointers[i], value, q);
        UntouchedLeaf(edit.data, pointers, i + 1, value, changed + 1, q);
      } else {
        UntouchedLeaf(doc, pointers, i + 1, value, changed, q);
      }
    }
  }

  /** A container on the way to the pointers keeps its keys or its length. */
  lemma {:induction false} UntouchedFrame(
    doc: Json, pointers: seq<Pointer>, i: nat, value: string, changed: nat, q: Pointer)
    requires i <= |pointers| && Independent(pointers) && |value| != 1
    requires SetAll(doc, pointers, i, value, changed).Edited? && Dig(doc, q).Some?
    requires forall k :: i <= k < |pointers| ==> q < pointers[k] || !Comparable(pointers[k], q)
    ensures
      var after := Dig(SetAll(doc, pointers, i, value, changed).doc, q);
      after.Some? && FrameOf(after.value) == FrameOf(Dig(doc, q).value)
    decreases |pointers| - i
  {
    if i < |pointers| {
      var edit := SetPointer(doc, pointers[i], value);
      if edit.Changed? {
        if q < pointers[i] {
          ShapeKept(doc, pointers[i], value, q);
        } else {
          OtherLeavesKept(doc, pointers[i], value, q);
        }
        UntouchedFrame(edit.data, pointers, i + 1, value, changed + 1, q);
      } else {
        UntouchedFrame(doc, pointers, i + 1, value, changed, q);
      }
    }
  }

  /** The edit goes through exactly when every pointer addresses something; afterwards all of them read the
      value, and the count is the number that did not before. */
  lemma {:induction false} SetAllExact(doc: Json, pointers: seq<Pointer>, i: nat, value: string, changed: nat)
    requires i <= |pointers| && Independent(pointers) && |value| != 1
    ensures
      var edit := SetAll(doc, pointers, i, value, changed);
      && (edit.Edited? <==> AllAddressed(doc, pointers, i))
      && (edit.Edited? ==>
            AllRead(edit.doc, pointers, i, value) && edit.changed == changed + Stale(doc, pointers, i, value))
    decreases |pointers| - i
  {
    if i < |pointers| {
      SetReadsBack(doc, pointers[i], value);
      var edit := SetPointer(doc, pointers[i], value);
      if edit.Changed? {
        StepAgrees(doc, pointers, i, value);
        StaleAgree(doc, edit.data, pointers, i + 1, value);
        SetAllExact(edit.data, pointers, i + 1, value, changed + 1);
        FirstStays(edit.data, pointers, i, value, changed + 1);
      } else if edit.Unchanged? {
        SetAllExact(doc, pointers, i + 1, value, changed);
        FirstStays(doc, pointers, i, value, changed);
      }
    }
  }

  lemma {:induction false} FirstStays(doc: Json, pointers: seq<Pointer>, i: nat, value: string, changed: nat)
    requires i < |pointers| && Independent(pointers) && |value| != 1
    ensures
      var edit := SetAll(doc, pointers, i + 1, value, changed);
      edit.Edited? ==> Dig(edit.doc, pointers[i]) == Dig(doc, pointers[i])
  {
    if SetAll(doc, pointers, i + 1, value, changed).Edited? {
      forall k | i + 1 <= k < |pointers|
        ensures !Comparable(pointers[k], pointers[i])
      {
        assert !Comparable(pointers[i], pointers[k]);
      }
      UntouchedLeaf(doc, pointers, i + 1, value, changed, pointers[i]);
    }
  }

  /** Nothing to do: the document and the count stay. */
  lemma {:induction false} NothingStale(doc: Json, pointers: seq<Pointer>, i: nat, value: string, changed: nat)
    requires i <= |pointers| && Independent(pointers) && |value| != 1 && AllRead(doc, pointers, i, value)
    ensures SetAll(doc, pointers, i, value, changed) == Edited(doc, changed)
    decreases |pointers| - i
  {
    if i < |pointers| {
      SetReadsBack(doc, pointers[i], value);
      NothingStale(doc, pointers, i + 1, value, changed);
    }
  }

  // ---------- grouping by file ----------

  /** The files of the first `n` locations, in order of first occurrence. */
  function Paths(table: seq<Location>, n: nat): seq<string>
    requires n <= |table|
  {
    if n == 0 then []
    else
      var before := Paths(table, n - 1);
      if table[n - 1].path in before then before else before + [table[n - 1].path]
  }

  /** The pointers the first `n` locations have into one file. */
  function PointersOf(table: seq<Location>, n: nat, path: string): seq<Pointer>
    requires n <= |table|
  {
    if n == 0 then []
    else PointersOf(table, n - 1, path) + if table[n - 1].path == path then [table[n - 1].pointer] else []
  }

  function PointersInto(table: seq<Location>, path: string): seq<Pointer> {
    PointersOf(table, |table|, path)
  }

  lemma {:induction false} PathsHold(table: seq<Location>, n: nat, path: string)
    requires n <= |table|
    ensures path in Paths(table, n) <==> exists i :: 0 <= i < n && table[i].path == path
  {
    if n > 0 {
      PathsHold(table, n - 1, path);
      InAppended(Paths(table, n - 1), table[n - 1].path, path);
    }
  }

  /** No location before `i` is in the same file. */
  ghost predicate FirstOf(table: seq<Location>, i: nat)
    requires i < |table|
  {
    forall j :: 0 <= j < i ==> table[j].path != table[i].path
  }

  ghost predicate MarkedFirst(table: seq<Location>, paths: seq<string>, first: seq<bool>, i: nat)
    requires i < |table| == |paths| == |first|
  {
    paths[i] == table[i].path && first[i] == (table[i].path !in Paths(table, i))
  }

  lemma {:induction false} PathsPicked(table: seq<Location>, paths: seq<string>, first: seq<bool>, n: nat)
    requires n <= |table| == |paths| == |first|
    requires forall i :: 0 <= i < |table| ==> MarkedFirst(table, paths, first, i)
    ensures Paths(table, n) == Picked(paths, first, n)
  {
    if n > 0 {
      PathsPicked(table, paths, first, n - 1);
      assert MarkedFirst(table, paths, first, n - 1);
    }
  }

  /** The files are the paths at exactly the first locations of each, in the table's order. */
  lemma {:induction false} PathsExactly(table: seq<Location>)
    returns (paths: seq<string>, first: seq<bool>, at: seq<nat>)
    ensures |paths| == |first| == |table|
    ensures forall i :: 0 <= i < |table| ==> paths[i] == table[i].path && first[i] == FirstOf(table, i)
    ensures Picks(paths, first, |table|, Paths(table, |table|), at)
  {
    paths := seq(|table|, i requires 0 <= i < |table| => table[i].path);
    first := seq(|table|, i requires 0 <= i < |table| => FirstOf(table, i));
    forall i | 0 <= i < |table|
      ensures MarkedFirst(table, paths, first, i)
    {
      PathsHold(table, i, table[i].path);
    }
    PathsPicked(table, paths, first, |table|);
    at := PickedPicks(paths, first, |table|);
  }

  lemma {:induction false} PointersPicked(
    table: seq<Location>, n: nat, path: string, pointers: seq<Pointer>, there: seq<bool>)
    requires n <= |table| == |pointers| == |there|
    requires forall i :: 0 <= i < |table| ==> pointers[i] == table[i].pointer && there[i] == (table[i].path == path)
    ensures PointersOf(table, n, path) == Picked(pointers, there, n)
  {
    if n > 0 {
      PointersPicked(table, n - 1, path, pointers, there);
      assert there[n - 1] == (table[n - 1].path == path);
    }
  }

  /** A file's pointers are those of exactly its locations, in the table's order. */
  lemma {:induction false} PointersExactly(table: seq<Location>, path: string)
    returns (pointers: seq<Pointer>, there: seq<bool>, at: seq<nat>)
    ensures |pointers| == |there| == |table|
    ensures forall i :: 0 <= i < |table| ==> pointers[i] == table[i].pointer && there[i] == (table[i].path == path)
    ensures Picks(pointers, there, |table|, PointersInto(table, path), at)
  {
    pointers := seq(|table|, i requires 0 <= i < |table| => table[i].pointer);
    there := seq(|table|, i requires 0 <= i < |table| => table[i].path == path);
    PointersPicked(table, |table|, path, pointers, there);
    at := PickedPicks(pointers, there, |table|);
  }

  type Groups = map<string, seq<Pointer>>

  function GroupOf(groups: Groups, path: string): seq<Pointer> {
    if path in groups then groups[path] else []
  }

  function GroupsUpTo(table: seq<Location>, n: nat): Groups
    requires n <= |table|
  {
    if n == 0 then map[]
    else
      var before, loc := GroupsUpTo(table, n - 1), table[n - 1];
      before[loc.path := GroupOf(before, loc.path) + [loc.pointer]]
  }

  lemma {:induction false} GroupsHold(table: seq<Location>, n: nat, path: string)
    requires n <= |table|
    ensures GroupOf(GroupsUpTo(table, n), path) == PointersOf(table, n, path)
  {
    if n > 0 {
      GroupsHold(table, n - 1, path);
    }
  }

  lemma {:induction false} InAppended(s: seq<string>, last: string, x: string)
    ensures x in s + [last] <==> x in s || x == last
  {
  }

  lemma {:induction false} GroupKeys(table: seq<Location>, n: nat, path: string)
    requires n <= |table|
    ensures path in GroupsUpTo(table, n) <==> path in Paths(table, n)
  {
    if n > 0 {
      GroupKeys(table, n - 1, path);
      InAppended(Paths(table, n - 1), table[n - 1].path, path);
    }
  }

  /** `per_file`: the dictionary and the order its keys were inserted in. */
  method Group(table: seq<Location>) returns (order: seq<string>, groups: Groups)
    ensures order == Paths(table, |table|)
    ensures forall path :: path in groups <==> path in order
    ensures forall path :: path in groups ==> groups[path] == PointersInto(table, path)
  {
    order, groups := [], map[];
    for i := 0 to |table|
      invariant order == Paths(table, i) && groups == GroupsUpTo(table, i)
    {
      var path := table[i].path;
      GroupKeys(table, i, path);
      if path !in groups {
        order := order + [path];
      }
      groups := groups[path := GroupOf(groups, path) + [table[i].pointer]];
    }
    forall path
      ensures path in groups <==> path in order
      ensures path in groups ==> groups[path] == PointersInto(table, path)
    {
      GroupKeys(table, |table|, path);
      GroupsHold(table, |table|, path);
    }
  }

  // ---------- all files ----------

  datatype Outcome =
    | Bumped(changes: seq<(string, nat)>)
    | MissingCarrier(path: string)
    | InvalidJson(path: string)
    | NoSuchPointer(path: string)
    | EscapedIndexError(path: string)

  datatype Result = Result(files: Files, outcome: Outcome)

  /** The outer loop from file `i` on. A failure leaves the files written so far. An index error inside a list
      is not among the errors the loop translates. */
  function BumpFrom(
    files: Files, order: seq<string>, i: nat, table: seq<Location>, value: string, dryRun: bool,
    changes: seq<(string, nat)>)
    : Result
    requires i <= |order|
    decreases |order| - i
  {
    if i == |order| then Result(files, Bumped(changes))
    else
      var path := order[i];
      if path !in files then Result(files, MissingCarrier(path))
      else if files[path].None? then Result(files, InvalidJson(path))
      else
        match SetAll(files[path].value, PointersInto(table, path), 0, value, 0)
        case NotAddressable(error) =>
          Result(files, if error == IndexError then EscapedIndexError(path) else NoSuchPointer(path))
        case Edited(doc, changed) =>
          if changed == 0 then BumpFrom(files, order, i + 1, table, value, dryRun, changes)
          else
            BumpFrom(if dryRun then files else files[path := Some(doc)], order, i + 1, table, value, dryRun,
                     changes + [(path, changed)])
  }

  function Bump(files: Files, table: seq<Location>, value: string, dryRun: bool): Result {
    BumpFrom(files, Paths(table, |table|), 0, table, value, dryRun, [])
  }

  method EditFile(doc: Json, pointers: seq<Pointer>, value: string) returns (r: FileEdit)
    ensures r == SetAll(doc, pointers, 0, value, 0)
  {
    var data, changed := doc, 0;
    for i := 0 to |pointers|
      invariant SetAll(doc, pointers, 0, value, 0) == SetAll(data, pointers, i, value, changed)
    {
      match SetPointer(data, pointers[i], value)
      case Failed(error) => return NotAddressable(error);
      case Unchanged =>
      case Changed(after) => data, changed := after, changed + 1;
    }
    return Edited(data, changed);
  }

  class Checkout {
    var files: Files

    constructor (files: Files)
      ensures this.files == files
    {
      this.files := files;
    }

    /** `bump_json_carriers`. */
    method BumpJsonCarriers(table: seq<Location>, value: string, dryRun: bool) returns (r: Outcome)
      modifies this
      ensures Result(files, r) == Bump(old(files), table, value, dryRun)
    {
      var order, groups := Group(table);
      var changes: seq<(string, nat)> := [];
      for i := 0 to |order|
        invariant Bump(old(files), table, value, dryRun)
               == BumpFrom(files, order, i, table, value, dryRun, changes)
      {
        var path := order[i];
        if path !in files {
          return MissingCarrier(path);
        }
        if files[path].None? {
          return InvalidJson(path);
        }
        var edit := EditFile(files[path].value, groups[path], value);
        match edit
        case NotAddressable(error) =>
          return if error == IndexError then EscapedIndexError(path) else NoSuchPointer(path);
        case Edited(doc, changed) =>
          if changed > 0 {
            if !dryRun {
              files := files[path := Some(doc)];
            }
            changes := changes + [(path, changed)];
          }
      }
      return Bumped(changes);
    }
  }
}
