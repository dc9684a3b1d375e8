/** What a bump achieves, and what it leaves behind when it fails half way. */
module BumpFacts {
  import opened Text
  import opened PyJson
  import opened JsonPointer
  import opened VersionBump

  ghost predicate IndependentInto(table: seq<Location>, path: string) {
    Independent(PointersInto(table, path))
  }

  /** Within every file, no pointer of the table leads to or through another. */
  ghost predicate TableIndependent(table: seq<Location>) {
    forall path :: IndependentInto(table, path)
  }

  ghost predicate Distinct(order: seq<string>) {
    forall i, j :: 0 <= i < j < |order| ==> order[i] != order[j]
  }

  lemma {:induction false} PathsDistinct(table: seq<Location>, n: nat)
    requires n <= |table|
    ensures Distinct(Paths(table, n))
    ensures forall i :: 0 <= i < n ==> table[i].path in Paths(table, n)
  {
    if n > 0 {
      PathsDistinct(table, n - 1);
    }
  }

  /** The carrier is there, parses, and every pointer into it addresses something. */
  ghost predicate Usable(files: Files, table: seq<Location>, path: string) {
    path in files && files[path].Some? && AllAddressed(files[path].value, PointersInto(table, path), 0)
  }

  /** Every pointer into the carrier reads `value`. */
  ghost predicate UpToDate(files: Files, table: seq<Location>, path: string, value: string) {
    path in files && files[path].Some? && AllRead(files[path].value, PointersInto(table, path), 0, value)
  }

  ghost predicate SameAt(a: Files, b: Files, path: string) {
    (path in a <==> path in b) && (path in a && path in b ==> a[path] == b[path])
  }

  /** The document an edited carrier holds. */
  function EditedDoc(files: Files, table: seq<Location>, path: string, value: string): Json
    requires path in files && files[path].Some?
  {
    var edit := SetAll(files[path].value, PointersInto(table, path), 0, value, 0);
    if edit.Edited? then edit.doc else files[path].value
  }

  /** How many pointers into a carrier do not read the value yet. */
  function StaleIn(files: Files, table: seq<Location>, path: string, value: string): nat {
    if path in files && files[path].Some? then Stale(files[path].value, PointersInto(table, path), 0, value) else 0
  }

  /** The line one carrier contributes to the report. */
  function Line(files: Files, table: seq<Location>, path: string, value: string): seq<(string, nat)> {
    var stale := StaleIn(files, table, path, value);
    if stale == 0 then [] else [(path, stale)]
  }

  /** `changes` followed by one line per file from `i` to `k` that needs edits, with how many. */
  function Report(
    files: Files, order: seq<string>, i: nat, k: nat, table: seq<Location>, value: string, changes: seq<(string, nat)>)
    : seq<(string, nat)>
    requires i <= k <= |order|
    decreases k - i
  {
    if i == k then changes
    else Report(files, order, i + 1, k, table, value, changes + Line(files, table, order[i], value))
  }

  // ---------- why a file fails ----------

  /** The first pointer from `i` on that addresses nothing. */
  function FirstMissing(doc: Json, pointers: seq<Pointer>, i: nat): nat
    requires i <= |pointers|
    decreases |pointers| - i
  {
    if i == |pointers| || Dig(doc, pointers[i]).None? then i else FirstMissing(doc, pointers, i + 1)
  }

  lemma {:induction false} FirstMissingIs(doc: Json, pointers: seq<Pointer>, i: nat)
    requires i <= |pointers|
    ensures
      var m := FirstMissing(doc, pointers, i);
      && i <= m <= |pointers| && (m < |pointers| ==> Dig(doc, pointers[m]).None?)
      && (m == |pointers| <==> AllAddressed(doc, pointers, i))
      && forall k :: i <= k < m ==> Dig(doc, pointers[k]).Some?
    decreases |pointers| - i
  {
    if i < |pointers| && Dig(doc, pointers[i]).Some? {
      FirstMissingIs(doc, pointers, i + 1);
    }
  }

  lemma {:induction false} MissingAgree(doc: Json, doc': Json, pointers: seq<Pointer>, i: nat)
    requires i <= |pointers| && Agree(doc, doc', pointers, i)
    ensures FirstMissing(doc', pointers, i) == FirstMissing(doc, pointers, i)
    decreases |pointers| - i
  {
    if i < |pointers| {
      MissingAgree(doc, doc', pointers, i + 1);
    }
  }

  /** Setting one version moves neither the first unaddressed pointer ahead nor the reason it is unaddressed. */
  lemma {:induction false} SameFate(doc: Json, pointers: seq<Pointer>, i: nat, value: string, data: Json, m: nat)
    requires i < |pointers| && Independent(pointers) && |value| != 1
    requires SetPointer(doc, pointers[i], value) == Changed(data) && m == FirstMissing(doc, pointers, i + 1)
    ensures FirstMissing(data, pointers, i + 1) == m
    ensures i < m < |pointers| ==> (RunsShort(data, pointers[m]) <==> RunsShort(doc, pointers[m]))
  {
    StepAgrees(doc, pointers, i, value);
    MissingAgree(doc, data, pointers, i + 1);
    if i < m < |pointers| {
      RunsShortKept(doc, pointers[i], value, pointers[m]);
    }
  }

  lemma {:induction false} FirstMissingFrom(doc: Json, pointers: seq<Pointer>, i: nat)
    requires i <= |pointers|
    ensures i <= FirstMissing(doc, pointers, i) <= |pointers|
    decreases |pointers| - i
  {
    if i < |pointers| {
      FirstMissingFrom(doc, pointers, i + 1);
    }
  }

  ghost predicate FailsAsSaid(edit: FileEdit, short: bool) {
    edit.NotAddressable? && (edit.error == IndexError <==> short)
  }

  lemma {:induction false} FailsHere(doc: Json, pointers: seq<Pointer>, i: nat, value: string, changed: nat)
    requires i < |pointers| && pointers[i] != [] && |value| != 1 && Dig(doc, pointers[i]).None?
    ensures FailsAsSaid(SetAll(doc, pointers, i, value, changed), RunsShort(doc, pointers[i]))
  {
    SetReadsBack(doc, pointers[i], value);
    IndexErrorExactly(doc, pointers[i], value);
  }

  lemma {:induction false} GoesOn(doc: Json, pointers: seq<Pointer>, i: nat, value: string, changed: nat)
    returns (data: Json, count: nat)
    requires i < |pointers| && Independent(pointers) && |value| != 1 && Dig(doc, pointers[i]).Some?
    ensures SetAll(doc, pointers, i, value, changed) == SetAll(data, pointers, i + 1, value, count)
    ensures
      var m := FirstMissing(doc, pointers, i);
      && i < m && FirstMissing(data, pointers, i + 1) == m
      && (m < |pointers| ==> (RunsShort(data, pointers[m]) <==> RunsShort(doc, pointers[m])))
  {
    SetReadsBack(doc, pointers[i], value);
    FirstMissingFrom(doc, pointers, i + 1);
    var edit := SetPointer(doc, pointers[i], value);
    if edit.Changed? {
      data, count := edit.data, changed + 1;
      SameFate(doc, pointers, i, value, data, FirstMissing(doc, pointers, i + 1));
    } else {
      data, count := doc, changed;
    }
  }

  /** The error of a file's edit is decided by its first unaddressed pointer, on the document as it was. */
  lemma {:induction false} FileError(doc: Json, pointers: seq<Pointer>, i: nat, value: string, changed: nat, m: nat)
    requires i <= |pointers| && Independent(pointers) && |value| != 1
    requires m == FirstMissing(doc, pointers, i) < |pointers|
    ensures FailsAsSaid(SetAll(doc, pointers, i, value, changed), RunsShort(doc, pointers[m]))
    decreases |pointers| - i
  {
    if Dig(doc, pointers[i]).None? {
      FailsHere(doc, pointers, i, value, changed);
    } else {
      var data, count := GoesOn(doc, pointers, i, value, changed);
      FileError(data, pointers, i + 1, value, count, m);
    }
  }

  /** What a carrier that is not usable makes the bump raise. */
  ghost function Diagnosis(files: Files, table: seq<Location>, path: string): Outcome {
    if path !in files then MissingCarrier(path)
    else if files[path].None? then InvalidJson(path)
    else
      var doc, pointers := files[path].value, PointersInto(table, path);
      var m := FirstMissing(doc, pointers, 0);
      if m < |pointers| && RunsShort(doc, pointers[m]) then EscapedIndexError(path) else NoSuchPointer(path)
  }

  // ---------- the loop over the files ----------

  /** A usable carrier is edited, reported if that changed anything, and the loop goes on. */
  lemma {:induction false} UsableStep(
    files: Files, order: seq<string>, i: nat, table: seq<Location>, value: string, changes: seq<(string, nat)>)
    requires i < |order| && TableIndependent(table) && |value| != 1 && Usable(files, table, order[i])
    ensures BumpFrom(files, order, i, table, value, false, changes)
         == BumpFrom(
              files[order[i] := Some(EditedDoc(files, table, order[i], value))], order, i + 1, table, value, false,
              changes + Line(files, table, order[i], value))
  {
    var path := order[i];
    var doc, pointers := files[path].value, PointersInto(table, path);
    assert IndependentInto(table, path);
    SetAllExact(doc, pointers, 0, value, 0);
    if Stale(doc, pointers, 0, value) == 0 {
      StaleNone(doc, pointers, 0, value);
      NothingStale(doc, pointers, 0, value, 0);
      assert files[path := files[path]] == files;
      assert changes + [] == changes;
    }
  }

  /** A carrier that is not usable ends the loop. */
  lemma {:induction false} UnusableStep(
    files: Files, order: seq<string>, i: nat, table: seq<Location>, value: string, changes: seq<(string, nat)>)
    requires i < |order| && TableIndependent(table) && |value| != 1 && !Usable(files, table, order[i])
    ensures BumpFrom(files, order, i, table, value, false, changes) == Result(files, Diagnosis(files, table, order[i]))
  {
    var path := order[i];
    if path in files && files[path].Some? {
      assert IndependentInto(table, path);
      FirstMissingIs(files[path].value, PointersInto(table, path), 0);
      FileError(
        files[path].value, PointersInto(table, path), 0, value, 0,
        FirstMissing(files[path].value, PointersInto(table, path), 0));
    }
  }

  /** The carriers from `i` to `k` are usable, and `k` is the end or a carrier that is not. */
  ghost predicate StopsAt(files: Files, table: seq<Location>, order: seq<string>, i: nat, k: nat)
    requires i <= k <= |order|
  {
    (forall j :: i <= j < k ==> Usable(files, table, order[j])) && (k < |order| ==> !Usable(files, table, order[k]))
  }

  ghost predicate SameAhead(a: Files, b: Files, order: seq<string>, i: nat)
    requires i <= |order|
  {
    forall k :: i <= k < |order| ==> SameAt(a, b, order[k])
  }

  lemma {:induction false} EditAhead(files: Files, order: seq<string>, i: nat, doc: Json)
    requires i < |order| && Distinct(order)
    ensures SameAhead(files, files[order[i] := Some(doc)], order, i + 1)
  {
  }

  lemma {:induction false} StopsAhead(a: Files, b: Files, table: seq<Location>, order: seq<string>, i: nat, k: nat)
    requires i <= k <= |order| && SameAhead(a, b, order, i) && StopsAt(a, table, order, i, k)
    ensures StopsAt(b, table, order, i, k)
  {
    forall j | i <= j < |order|
      ensures Usable(a, table, order[j]) <==> Usable(b, table, order[j])
    {
      assert SameAt(a, b, order[j]);
    }
  }

  lemma {:induction false} ReportAhead(
    a: Files, b: Files, order: seq<string>, i: nat, k: nat, table: seq<Location>, value: string,
    changes: seq<(string, nat)>)
    requires i <= k <= |order| && SameAhead(a, b, order, i)
    ensures Report(b, order, i, k, table, value, changes) == Report(a, order, i, k, table, value, changes)
    decreases k - i
  {
    if i < k {
      assert SameAt(a, b, order[i]);
      ReportAhead(a, b, order, i + 1, k, table, value, changes + Line(a, table, order[i], value));
    }
  }

  lemma {:induction false} DiagnosisAhead(a: Files, b: Files, order: seq<string>, i: nat, k: nat, table: seq<Location>)
    requires i <= k < |order| && SameAhead(a, b, order, i)
    ensures Diagnosis(b, table, order[k]) == Diagnosis(a, table, order[k])
  {
    assert SameAt(a, b, order[k]);
  }

  /** One usable carrier further, with the stop, the report and the diagnosis ahead unchanged. */
  lemma {:induction false} OneFurther(
    files: Files, order: seq<string>, i: nat, table: seq<Location>, value: string, changes: seq<(string, nat)>, k: nat)
    returns (after: Files, reported: seq<(string, nat)>)
    requires i < k <= |order| && Distinct(order) && TableIndependent(table) && |value| != 1
    requires StopsAt(files, table, order, i, k)
    ensures order[i] in files && files[order[i]].Some?
    ensures after == files[order[i] := Some(EditedDoc(files, table, order[i], value))]
    ensures SameAhead(files, after, order, i + 1) && StopsAt(after, table, order, i + 1, k)
    ensures BumpFrom(files, order, i, table, value, false, changes)
         == BumpFrom(after, order, i + 1, table, value, false, reported)
    ensures Report(after, order, i + 1, k, table, value, reported) == Report(files, order, i, k, table, value, changes)
    ensures k < |order| ==> Diagnosis(after, table, order[k]) == Diagnosis(files, table, order[k])
  {
    assert Usable(files, table, order[i]);
    after := files[order[i] := Some(EditedDoc(files, table, order[i], value))];
    reported := changes + Line(files, table, order[i], value);
    UsableStep(files, order, i, table, value, changes);
    EditAhead(files, order, i, EditedDoc(files, table, order[i], value));
    StopsAhead(files, after, table, order, i + 1, k);
    ReportAhead(files, after, order, i + 1, k, table, value, reported);
    if k < |order| {
      DiagnosisAhead(files, after, order, i + 1, k, table);
    }
  }

  /** What the loop returns: the report when it gets to the end, otherwise what the first unusable carrier
      raises. */
  lemma {:induction false} LoopOutcome(
    files: Files, order: seq<string>, i: nat, table: seq<Location>, value: string, changes: seq<(string, nat)>, k: nat)
    requires i <= k <= |order| && Distinct(order) && TableIndependent(table) && |value| != 1
    requires StopsAt(files, table, order, i, k)
    ensures BumpFrom(files, order, i, table, value, false, changes).outcome
         == if k == |order| then Bumped(Report(files, order, i, k, table, value, changes))
            else Diagnosis(files, table, order[k])
    decreases k - i
  {
    if i < k {
      var after, reported := OneFurther(files, order, i, table, value, changes, k);
      LoopOutcome(after, order, i + 1, table, value, reported, k);
    } else if k < |order| {
      UnusableStep(files, order, i, table, value, changes);
    }
  }

  /** A file none of the carriers before the stop is stays as it was. */
  lemma {:induction false} UnvisitedKept(
    files: Files, order: seq<string>, i: nat, table: seq<Location>, value: string, changes: seq<(string, nat)>, k: nat,
    path: string)
    requires i <= k <= |order| && Distinct(order) && TableIndependent(table) && |value| != 1
    requires StopsAt(files, table, order, i, k) && forall j :: i <= j < k ==> order[j] != path
    ensures SameAt(files, BumpFrom(files, order, i, table, value, false, changes).files, path)
    decreases k - i
  {
    if i < k {
      var after, reported := OneFurther(files, order, i, table, value, changes, k);
      UnvisitedKept(after, order, i + 1, table, value, reported, k, path);
    } else if k < |order| {
      UnusableStep(files, order, i, table, value, changes);
    }
  }

  /** A carrier before the stop is exactly as edited. */
  lemma {:induction false} VisitedEdited(
    files: Files, order: seq<string>, i: nat, table: seq<Location>, value: string, changes: seq<(string, nat)>, k: nat,
    j: nat)
    requires i <= j < k <= |order| && Distinct(order) && TableIndependent(table) && |value| != 1
    requires StopsAt(files, table, order, i, k)
    ensures
      var r := BumpFrom(files, order, i, table, value, false, changes).files;
      && order[j] in files && files[order[j]].Some? && order[j] in r
      && r[order[j]] == Some(EditedDoc(files, table, order[j], value))
    decreases k - i
  {
    var after, reported := OneFurther(files, order, i, table, value, changes, k);
    if j == i {
      UnvisitedKept(after, order, i + 1, table, value, reported, k, order[i]);
    } else {
      VisitedEdited(after, order, i + 1, table, value, reported, k, j);
      assert SameAt(files, after, order[j]);
    }
  }

  // ---------- the whole bump ----------

  /** The first carrier that is not usable, or the end. */
  lemma {:induction false} FindStop(files: Files, table: seq<Location>, order: seq<string>, i: nat) returns (k: nat)
    requires i <= |order|
    ensures i <= k <= |order| && StopsAt(files, table, order, i, k)
    decreases |order| - i
  {
    if i == |order| || !Usable(files, table, order[i]) {
      k := i;
    } else {
      k := FindStop(files, table, order, i + 1);
    }
  }

  ghost predicate AllUsable(files: Files, table: seq<Location>) {
    var order := Paths(table, |table|);
    forall k :: 0 <= k < |order| ==> Usable(files, table, order[k])
  }

  ghost predicate AllUpToDate(files: Files, table: seq<Location>, order: seq<string>, i: nat, value: string)
    requires i <= |order|
  {
    forall k :: i <= k < |order| ==> UpToDate(files, table, order[k], value)
  }

  function FullReport(files: Files, table: seq<Location>, value: string): seq<(string, nat)> {
    var order := Paths(table, |table|);
    Report(files, order, 0, |order|, table, value, [])
  }

  lemma {:induction false} ReportGoesOn(
    files: Files, order: seq<string>, i: nat, k: nat, table: seq<Location>, value: string, changes: seq<(string, nat)>)
    requires i <= k < |order|
    ensures Report(files, order, i, k + 1, table, value, changes)
         == Report(files, order, i, k, table, value, changes) + Line(files, table, order[k], value)
    decreases k - i
  {
    if i < k {
      ReportGoesOn(files, order, i + 1, k, table, value, changes + Line(files, table, order[i], value));
    }
  }

  lemma {:induction false} ReportPicked(
    files: Files, order: seq<string>, k: nat, table: seq<Location>, value: string, lines: seq<(string, nat)>,
    needed: seq<bool>)
    requires k <= |order| == |lines| == |needed|
    requires forall i :: 0 <= i < |order| ==>
      lines[i] == (order[i], StaleIn(files, table, order[i], value)) && needed[i] == (lines[i].1 != 0)
    ensures Report(files, order, 0, k, table, value, []) == Picked(lines, needed, k)
  {
    if k > 0 {
      ReportPicked(files, order, k - 1, table, value, lines, needed);
      ReportGoesOn(files, order, 0, k - 1, table, value, []);
      assert needed[k - 1] == (lines[k - 1].1 != 0);
    }
  }

  /** The report names, in the files' order, exactly those with pointers that do not read the value yet, with
      how many. */
  lemma {:induction false} ReportExactly(files: Files, table: seq<Location>, value: string)
    returns (lines: seq<(string, nat)>, needed: seq<bool>, at: seq<nat>)
    ensures
      var order := Paths(table, |table|);
      && |lines| == |needed| == |order|
      && (forall i :: 0 <= i < |order| ==>
        lines[i] == (order[i], StaleIn(files, table, order[i], value)) && needed[i] == (lines[i].1 != 0))
      && Picks(lines, needed, |order|, FullReport(files, table, value), at)
  {
    var order := Paths(table, |table|);
    lines := seq(|order|, i requires 0 <= i < |order| => (order[i], StaleIn(files, table, order[i], value)));
    needed := seq(|order|, i requires 0 <= i < |order| => StaleIn(files, table, order[i], value) != 0);
    ReportPicked(files, order, |order|, table, value, lines, needed);
    at := PickedPicks(lines, needed, |order|);
  }

  lemma {:induction false} EditedUpToDate(files: Files, table: seq<Location>, path: string, value: string)
    requires TableIndependent(table) && |value| != 1 && Usable(files, table, path)
    ensures AllRead(EditedDoc(files, table, path, value), PointersInto(table, path), 0, value)
  {
    assert IndependentInto(table, path);
    SetAllExact(files[path].value, PointersInto(table, path), 0, value, 0);
  }

  /** Running again over carriers that are up to date reports no edit and writes nothing. */
  lemma {:induction false} NothingToBump(
    files: Files, order: seq<string>, i: nat, table: seq<Location>, value: string, changes: seq<(string, nat)>)
    requires i <= |order| && TableIndependent(table) && |value| != 1
    requires AllUpToDate(files, table, order, i, value)
    ensures BumpFrom(files, order, i, table, value, false, changes) == Result(files, Bumped(changes))
    decreases |order| - i
  {
    if i < |order| {
      assert UpToDate(files, table, order[i], value) && IndependentInto(table, order[i]);
      NothingStale(files[order[i]].value, PointersInto(table, order[i]), 0, value, 0);
      NothingToBump(files, order, i + 1, table, value, changes);
    }
  }

  lemma {:induction false} SucceedsExactly(files: Files, table: seq<Location>, value: string)
    requires TableIndependent(table) && |value| != 1
    ensures Bump(files, table, value, false).outcome.Bumped? <==> AllUsable(files, table)
    ensures AllUsable(files, table) ==>
              Bump(files, table, value, false).outcome == Bumped(FullReport(files, table, value))
  {
    var order := Paths(table, |table|);
    PathsDistinct(table, |table|);
    var k := FindStop(files, table, order, 0);
    LoopOutcome(files, order, 0, table, value, [], k);
    if k < |order| {
      assert !Usable(files, table, order[k]);
    }
  }

  lemma {:induction false} SuccessUpToDate(files: Files, table: seq<Location>, value: string)
    requires TableIndependent(table) && |value| != 1 && AllUsable(files, table)
    ensures AllUpToDate(Bump(files, table, value, false).files, table, Paths(table, |table|), 0, value)
  {
    var order := Paths(table, |table|);
    PathsDistinct(table, |table|);
    forall j | 0 <= j < |order|
      ensures UpToDate(Bump(files, table, value, false).files, table, order[j], value)
    {
      assert Usable(files, table, order[j]);
      VisitedEdited(files, order, 0, table, value, [], |order|, j);
      EditedUpToDate(files, table, order[j], value);
    }
  }

  /** The bump succeeds exactly when every carrier is usable. It then leaves every carrier up to date, reports
      the edits that were needed, and a second run reports none. */
  lemma {:induction false} BumpExact(files: Files, table: seq<Location>, value: string)
    requires TableIndependent(table) && |value| != 1
    ensures
      var order, r := Paths(table, |table|), Bump(files, table, value, false);
      && (r.outcome.Bumped? <==> AllUsable(files, table))
      && (r.outcome.Bumped? ==>
            && AllUpToDate(r.files, table, order, 0, value)
            && r.outcome.changes == FullReport(files, table, value)
            && Bump(r.files, table, value, false) == Result(r.files, Bumped([])))
  {
    SucceedsExactly(files, table, value);
    if AllUsable(files, table) {
      SuccessUpToDate(files, table, value);
      NothingToBump(Bump(files, table, value, false).files, Paths(table, |table|), 0, table, value, []);
    }
  }

  /** A bump that fails stops at the first carrier that is not usable, raises what that carrier makes it raise,
      and leaves the carriers before it edited and every other file as it was. */
  lemma {:induction false} FailedBump(files: Files, table: seq<Location>, value: string) returns (k: nat)
    requires TableIndependent(table) && |value| != 1 && !Bump(files, table, value, false).outcome.Bumped?
    ensures k < |Paths(table, |table|)| && StopsAt(files, table, Paths(table, |table|), 0, k)
    ensures
      var order, r := Paths(table, |table|), Bump(files, table, value, false);
      && r.outcome == Diagnosis(files, table, order[k])
      && (order[k] !in files ==> r.outcome == MissingCarrier(order[k]))
      && (order[k] in files && files[order[k]].None? ==> r.outcome == InvalidJson(order[k]))
      && (order[k] in files && files[order[k]].Some? ==>
        r.outcome == NoSuchPointer(order[k]) || r.outcome == EscapedIndexError(order[k]))
      && (forall j :: 0 <= j < k ==>
            && order[j] in files && files[order[j]].Some? && order[j] in r.files
            && r.files[order[j]] == Some(EditedDoc(files, table, order[j], value)))
      && (forall path :: (forall j :: 0 <= j < k ==> order[j] != path) ==> SameAt(files, r.files, path))
  {
    var order := Paths(table, |table|);
    PathsDistinct(table, |table|);
    k := FindStop(files, table, order, 0);
    LoopOutcome(files, order, 0, table, value, [], k);
    forall j | 0 <= j < k
      ensures order[j] in files && files[order[j]].Some? && order[j] in Bump(files, table, value, false).files
      ensures Bump(files, table, value, false).files[order[j]] == Some(EditedDoc(files, table, order[j], value))
    {
      VisitedEdited(files, order, 0, table, value, [], k, j);
    }
    forall path | forall j :: 0 <= j < k ==> order[j] != path
      ensures SameAt(files, Bump(files, table, value, false).files, path)
    {
      UnvisitedKept(files, order, 0, table, value, [], k, path);
    }
  }

  /** An index error escapes exactly when the first carrier that is not usable parses and its first unaddressed
      pointer comes to a list or string that is too short. */
  lemma {:induction false} EscapesExactly(files: Files, table: seq<Location>, value: string, k: nat)
    requires TableIndependent(table) && |value| != 1
    requires k < |Paths(table, |table|)| && StopsAt(files, table, Paths(table, |table|), 0, k)
    ensures
      var path := Paths(table, |table|)[k];
      Bump(files, table, value, false).outcome.EscapedIndexError? <==>
        && path in files && files[path].Some?
        && var m := FirstMissing(files[path].value, PointersInto(table, path), 0);
           m < |PointersInto(table, path)| && RunsShort(files[path].value, PointersInto(table, path)[m])
  {
    PathsDistinct(table, |table|);
    LoopOutcome(files, Paths(table, |table|), 0, table, value, [], k);
  }

  // ---------- dry run ----------

  /** A dry run over files that agree on what lies ahead reports the same. */
  lemma {:induction false} DryRunAgrees(
    a: Files, b: Files, order: seq<string>, i: nat, table: seq<Location>, value: string, changes: seq<(string, nat)>)
    requires i <= |order| && Distinct(order) && SameAhead(a, b, order, i)
    ensures BumpFrom(a, order, i, table, value, true, changes)
         == Result(a, BumpFrom(b, order, i, table, value, false, changes).outcome)
    decreases |order| - i
  {
    if i < |order| {
      assert SameAt(a, b, order[i]);
      if order[i] in a && a[order[i]].Some? {
        var edit := SetAll(a[order[i]].value, PointersInto(table, order[i]), 0, value, 0);
        if edit.Edited? {
          if edit.changed == 0 {
            DryRunAgrees(a, b, order, i + 1, table, value, changes);
          } else {
            DryRunAgrees(
              a, b[order[i] := Some(edit.doc)], order, i + 1, table, value, changes + [(order[i], edit.changed)]);
          }
        }
      }
    }
  }

  /** A dry run reports the same and writes nothing. */
  lemma {:induction false} DryRunSame(files: Files, table: seq<Location>, value: string)
    ensures Bump(files, table, value, true) == Result(files, Bump(files, table, value, false).outcome)
  {
    PathsDistinct(table, |table|);
    DryRunAgrees(files, files, Paths(table, |table|), 0, table, value, []);
  }

  // ---------- every other leaf ----------

  /** In an edited carrier, whatever is not on the way to a version stays; containers on the way keep their
      keys or length. */
  lemma {:induction false} EditKeepsTheRest(files: Files, table: seq<Location>, value: string, path: string, q: Pointer)
    requires TableIndependent(table) && |value| != 1 && Usable(files, table, path)
    requires forall k :: 0 <= k < |PointersInto(table, path)| ==>
      q < PointersInto(table, path)[k] || !Comparable(PointersInto(table, path)[k], q)
    ensures
      var before, after := Dig(files[path].value, q), Dig(EditedDoc(files, table, path, value), q);
      && (before.Some? ==> after.Some? && FrameOf(after.value) == FrameOf(before.value))
      && ((forall k :: 0 <= k < |PointersInto(table, path)| ==> !Comparable(PointersInto(table, path)[k], q)) ==>
            after == before)
  {
    var doc, pointers := files[path].value, PointersInto(table, path);
    assert IndependentInto(table, path);
    SetAllExact(doc, pointers, 0, value, 0);
    if Dig(doc, q).Some? {
      UntouchedFrame(doc, pointers, 0, value, 0, q);
    }
    if forall k :: 0 <= k < |pointers| ==> !Comparable(pointers[k], q) {
      UntouchedLeaf(doc, pointers, 0, value, 0, q);
    }
  }

  /** A successful bump leaves in every carrier exactly the edited document, and every other file as it was. */
  lemma {:induction false} BumpedFiles(files: Files, table: seq<Location>, value: string, path: string)
    requires TableIndependent(table) && |value| != 1 && AllUsable(files, table)
    ensures
      var r := Bump(files, table, value, false).files;
      if path in Paths(table, |table|)
      then path in files && files[path].Some? && path in r && r[path] == Some(EditedDoc(files, table, path, value))
      else SameAt(files, r, path)
  {
    var order := Paths(table, |table|);
    PathsDistinct(table, |table|);
    if path in order {
      var j :| 0 <= j < |order| && order[j] == path;
      VisitedEdited(files, order, 0, table, value, [], |order|, j);
    } else {
      UnvisitedKept(files, order, 0, table, value, [], |order|, path);
    }
  }
}
