/** One architecture decision record: its version counter, its revision history, and updates that read the
    row, then write the whole of it back in one transaction. */
module AdrVersioning {
  import opened Text

  datatype Content = Content(title: string, description: string, context: string, decision: string, consequences: string)

  type Custom = map<string, string>

  /** The ADR table's row. */
  datatype Row = Row(content: Content, version: nat)

  /** The arguments of one `update_adr` call; `None` leaves a field alone. */
  datatype Patch = Patch(
    title: Option<string>,
    description: Option<string>,
    context: Option<string>,
    decision: Option<string>,
    consequences: Option<string>,
    custom: Option<Custom>)

  function Or<T>(given: Option<T>, kept: T): T {
    if given.Some? then given.value else kept
  }

  function Patched(c: Content, p: Patch): Content {
    Content(
      Or(p.title, c.title), Or(p.description, c.description), Or(p.context, c.context),
      Or(p.decision, c.decision), Or(p.consequences, c.consequences))
  }

  /** What update validates; unlike create it does not check the title's upper bound. */
  predicate Valid(p: Patch) {
    (p.title.Some? ==> |p.title.value| >= 3) && (p.description.Some? ==> |p.description.value| <= 10000)
  }

  /** What the title column can hold. */
  predicate Storable(c: Content) {
    |c.title| <= 200
  }

  /** An update between its read and its end. `read` is the row as loaded; `seen` are the custom fields as
      loaded from the backing artifact, once they have been. */
  datatype Update = Update(patch: Patch, expected: Option<nat>, read: Row, seen: Option<Custom>)

  /** Everything an update may change. */
  datatype Snap = Snap(row: Row, custom: Custom)

  /** An accepted update that changed something. */
  datatype Accepted = Accepted(expected: Option<nat>, patch: Patch, before: Snap, after: Snap)

  /** `lock` is the update holding the row lock. `legacy` rows have no backing artifact. `accepted` is history. */
  datatype State = State(
    row: Row,
    custom: Custom,
    status: string,
    revisions: seq<Content>,
    legacy: bool,
    lock: Option<nat>,
    active: map<nat, Update>,
    accepted: seq<Accepted>)

  datatype Step =
    | Read(u: nat, patch: Patch, expected: Option<nat>)
    | Touch(u: nat)
    | Finish(u: nat)
    | Abort(u: nat)
    | Transition(status: string)
    | Outdate

  /** `create_adr`: version 1 and its first revision, or refused. */
  function Create(content: Content, custom: Custom, status: string): (r: Option<State>)
    ensures r.Some? <==> 3 <= |content.title| <= 200 && |content.description| <= 10000
    ensures r.Some? ==> r.value.row.content == content && r.value.custom == custom && r.value.status == status
    ensures r.Some? ==> r.value.row.version == 1 && r.value.revisions == [content]
    ensures r.Some? ==> !r.value.legacy && Sound(r.value)
  {
    if |content.title| < 3 || |content.title| > 200 || |content.description| > 10000 then None
    else Some(State(Row(content, 1), custom, status, [content], false, None, map[], []))
  }

  function Current(s: State): Snap {
    Snap(s.row, s.custom)
  }

  predicate Changes(up: Update) {
    || Patched(up.read.content, up.patch) != up.read.content
    || (up.patch.custom.Some? && up.seen.Some? && up.patch.custom.value != up.seen.value)
  }

  /** The update gets to its end: valid, the custom fields loaded if it sets them, the row storable, and a
      backing artifact to hold the new revision if it changes anything. */
  predicate Ready(s: State, up: Update) {
    && Valid(up.patch) && Storable(Patched(up.read.content, up.patch))
    && (up.patch.custom.Some? ==> up.seen.Some? && !s.legacy)
    && (Changes(up) ==> !s.legacy)
  }

  predicate Enabled(s: State, step: Step) {
    match step
    case Read(u, _, expected) =>
      u !in s.active && (expected.Some? ==> s.lock.None? && s.row.version == expected.value)
    case Touch(u) => u in s.active && s.active[u].seen.None?
    case Finish(u) =>
      && u in s.active && Ready(s, s.active[u])
      && (if s.active[u].expected.Some? then s.lock == Some(u) else s.lock.None?)
    case Abort(u) => u in s.active
    case Transition(_) => true
    case Outdate => true
  }

  function Released(s: State, u: nat): State {
    s.(active := s.active - {u}, lock := if s.lock == Some(u) then None else s.lock)
  }

  /** The whole row goes back with the version that was read; a change then adds one and a revision. */
  function Written(s: State, up: Update): State {
    var row := Row(Patched(up.read.content, up.patch), up.read.version + if Changes(up) then 1 else 0);
    var custom := Or(up.patch.custom, s.custom);
    s.(
      row := row,
      custom := custom,
      revisions := if Changes(up) then s.revisions + [row.content] else s.revisions,
      accepted := if Changes(up) then s.accepted + [Accepted(up.expected, up.patch, Current(s), Snap(row, custom))]
                  else s.accepted)
  }

  function Apply(s: State, step: Step): State
    requires Enabled(s, step)
  {
    match step
    case Read(u, patch, expected) =>
      s.(active := s.active[u := Update(patch, expected, s.row, None)],
         lock := if expected.Some? then Some(u) else s.lock)
    case Touch(u) => s.(active := s.active[u := s.active[u].(seen := Some(s.custom))])
    case Finish(u) => Released(Written(s, s.active[u]), u)
    case Abort(u) => Released(s, u)
    case Transition(status) => s.(status := status)
    case Outdate => s.(status := "outdated")
  }

  ghost predicate IsRun(s: State, steps: seq<Step>)
    decreases steps
  {
    steps == [] || (Enabled(s, steps[0]) && IsRun(Apply(s, steps[0]), steps[1..]))
  }

  ghost function After(s: State, steps: seq<Step>): State
    requires IsRun(s, steps)
    decreases steps
  {
    if steps == [] then s else After(Apply(s, steps[0]), steps[1..])
  }

  /** No call in progress and nothing written yet. */
  ghost predicate Sound(s: State) {
    s.active == map[] && s.lock.None? && s.accepted == []
  }

  // ---------- single steps ----------

  /** What a write leaves behind, field by field: what was given, else what was read (custom fields: what is
      stored now); one more version and a revision holding that content exactly for a real change. */
  lemma {:induction false} FinishWrites(s: State, u: nat)
    requires Enabled(s, Finish(u))
    ensures
      var p, read, seen := s.active[u].patch, s.active[u].read, s.active[u].seen;
      var s' := Apply(s, Finish(u));
      var c := s'.row.content;
      var changed := c != read.content || (p.custom.Some? && p.custom != seen);
      && c.title == (if p.title.Some? then p.title.value else read.content.title)
      && c.description == (if p.description.Some? then p.description.value else read.content.description)
      && c.context == (if p.context.Some? then p.context.value else read.content.context)
      && c.decision == (if p.decision.Some? then p.decision.value else read.content.decision)
      && c.consequences == (if p.consequences.Some? then p.consequences.value else read.content.consequences)
      && s'.custom == (if p.custom.Some? then p.custom.value else s.custom)
      && s'.row.version == read.version + (if changed then 1 else 0)
      && s'.revisions == s.revisions + (if changed then [c] else [])
      && s'.accepted == s.accepted + (if changed
        then [Accepted(s.active[u].expected, p, Snap(s.row, s.custom), Snap(s'.row, s'.custom))] else [])
      && s'.status == s.status && s'.active == s.active - {u}
      && s'.lock == (if s.lock == Some(u) then None else s.lock)
  {
  }

  /** When an update can get to its end: its input is valid, its title fits the column, a change has an artifact
      to record it with, and the row lock is its own if it is guarded and nobody's otherwise. */
  lemma {:induction false} FinishPossibleExactly(s: State, u: nat)
    requires u in s.active
    ensures
      var p, read, seen := s.active[u].patch, s.active[u].read.content, s.active[u].seen;
      var title := if p.title.Some? then p.title.value else read.title;
      Enabled(s, Finish(u)) <==>
        && (p.title.Some? ==> |title| >= 3) && |title| <= 200
        && (p.description.Some? ==> |p.description.value| <= 10000)
        && (p.custom.Some? ==> seen.Some? && !s.legacy)
        && (s.legacy ==>
          && title == read.title && p.description in {None, Some(read.description)}
          && p.context in {None, Some(read.context)} && p.decision in {None, Some(read.decision)}
          && p.consequences in {None, Some(read.consequences)})
        && s.lock == (if s.active[u].expected.Some? then Some(u) else None)
  {
  }

  /** Reading takes the row as it is, and the lock with it if a version is expected; the other steps write
      neither row nor revisions. */
  lemma {:induction false} OtherSteps(s: State, step: Step)
    requires Enabled(s, step) && !step.Finish?
    ensures
      var s' := Apply(s, step);
      && s'.row == s.row && s'.custom == s.custom && s'.revisions == s.revisions && s'.accepted == s.accepted
      && (step.Read? ==>
        && s'.active == s.active[step.u := Update(step.patch, step.expected, s.row, None)]
        && s'.lock == (if step.expected.Some? then Some(step.u) else s.lock))
      && (step.Touch? ==>
        s'.lock == s.lock
        && s'.active == s.active[step.u := s.active[step.u].(seen := Some(s.custom))])
      && (step.Abort? ==>
        && s'.active == s.active - {step.u}
        && s'.lock == (if s.lock == Some(step.u) then None else s.lock))
      && (step.Transition? || step.Outdate? ==> s'.active == s.active && s'.lock == s.lock)
      && s'.status == (if step.Transition? then step.status else if step.Outdate? then "outdated" else s.status)
  {
  }

  // ---------- versions and revisions ----------

  /** A step leaves content, custom fields, version and revisions alone exactly when it is no write, or a write
      that changes nothing of what its caller read and whose caller read what is still there. */
  lemma {:induction false} NothingChangedExactly(s: State, step: Step)
    requires Enabled(s, step)
    ensures Current(Apply(s, step)) == Current(s) && Apply(s, step).revisions == s.revisions <==>
              (step.Finish? ==>
                 var up := s.active[step.u];
                 !Changes(up) && up.read == s.row && (up.patch.custom.Some? ==> up.patch.custom.value == s.custom))
  {
  }

  /** How many more revisions than version steps there are. */
  function Ahead(s: State): int {
    |s.revisions| - s.row.version
  }

  /** A write whose caller read the version that is still there; other steps write nothing. */
  predicate WritesCurrent(s: State, step: Step)
    requires Enabled(s, step)
  {
    step.Finish? ==> s.active[step.u].read.version == s.row.version
  }

  /** A write moves version and revisions together exactly when the version it read is still there. */
  lemma {:induction false} WriteConservesExactly(s: State, step: Step)
    requires Enabled(s, step)
    ensures Ahead(Apply(s, step)) == Ahead(s) <==> WritesCurrent(s, step)
  {
  }

  /** Every write of the run finds the version its caller read. */
  ghost predicate AllWritesCurrent(s: State, steps: seq<Step>)
    requires IsRun(s, steps)
    decreases steps
  {
    steps == [] || (WritesCurrent(s, steps[0]) && AllWritesCurrent(Apply(s, steps[0]), steps[1..]))
  }

  /** Revisions and version keep their distance in every state of the run. */
  ghost predicate ConservedThroughout(s: State, steps: seq<Step>, ahead: int)
    requires IsRun(s, steps)
    decreases steps
  {
    Ahead(s) == ahead && (steps == [] || ConservedThroughout(Apply(s, steps[0]), steps[1..], ahead))
  }

  /** Over every run of create, update, transition and delete, revisions minus one equals version minus initial
      all the way exactly when every write finds the version its caller read. */
  lemma {:induction false} ConservedThroughoutExactly(s: State, steps: seq<Step>)
    requires IsRun(s, steps)
    ensures ConservedThroughout(s, steps, Ahead(s)) <==> AllWritesCurrent(s, steps)
    decreases steps
  {
    if steps != [] {
      WriteConservesExactly(s, steps[0]);
      ConservedThroughoutExactly(Apply(s, steps[0]), steps[1..]);
      if ConservedThroughout(Apply(s, steps[0]), steps[1..], Ahead(s)) {
        ConservedStart(Apply(s, steps[0]), steps[1..], Ahead(s));
      }
    }
  }

  lemma {:induction false} ConservedStart(s: State, steps: seq<Step>, ahead: int)
    requires IsRun(s, steps) && ConservedThroughout(s, steps, ahead)
    ensures Ahead(s) == ahead
  {
  }

  lemma {:induction false} ConservedEnd(s: State, steps: seq<Step>, ahead: int)
    requires IsRun(s, steps) && ConservedThroughout(s, steps, ahead)
    ensures Ahead(After(s, steps)) == ahead
    decreases steps
  {
    if steps != [] {
      ConservedEnd(Apply(s, steps[0]), steps[1..], ahead);
    }
  }

  // ---------- guarded updates ----------

  ghost predicate Guarded(steps: seq<Step>) {
    forall i :: 0 <= i < |steps| && steps[i].Read? ==> steps[i].expected.Some?
  }

  /** At most one guarded update is under way; it holds the lock and its reading is current. */
  ghost predicate Exclusive(s: State) {
    forall u :: u in s.active ==>
      && s.lock == Some(u)
      && s.active[u].read == s.row && s.active[u].expected == Some(s.row.version)
      && (s.active[u].seen.Some? ==> s.active[u].seen.value == s.custom)
  }

  function ApplyPatch(b: Snap, p: Patch): Snap {
    Snap(Row(Patched(b.row.content, p), b.row.version + 1), Or(p.custom, b.custom))
  }

  /** The state the first `k` accepted updates left behind. */
  ghost function Left(start: Snap, accepted: seq<Accepted>, k: nat): Snap
    requires k <= |accepted|
  {
    if k == 0 then start else accepted[k - 1].after
  }

  /** Accepted update `k` carried the `k`-th version and ran on exactly what its predecessor left. */
  ghost predicate Linked(start: Snap, accepted: seq<Accepted>, k: nat)
    requires k < |accepted|
  {
    && accepted[k].expected == Some(start.row.version + k)
    && accepted[k].before == Left(start, accepted, k)
    && accepted[k].after == ApplyPatch(accepted[k].before, accepted[k].patch)
  }

  ghost predicate Chain(start: Snap, s: State) {
    && (forall k :: 0 <= k < |s.accepted| ==> Linked(start, s.accepted, k))
    && Current(s) == Left(start, s.accepted, |s.accepted|)
    && s.row.version == start.row.version + |s.accepted|
  }

  lemma {:induction false} ExclusiveKept(s: State, step: Step)
    requires Exclusive(s) && Enabled(s, step) && (step.Read? ==> step.expected.Some?)
    ensures Exclusive(Apply(s, step))
  {
  }

  lemma {:induction false} LinkedKept(start: Snap, accepted: seq<Accepted>, more: Accepted, k: nat)
    requires k < |accepted| && Linked(start, accepted, k)
    ensures Linked(start, accepted + [more], k)
  {
  }

  lemma {:induction false} FinishLinks(start: Snap, s: State, u: nat)
    requires Exclusive(s) && Chain(start, s) && Enabled(s, Finish(u)) && Changes(s.active[u])
    ensures Chain(start, Apply(s, Finish(u)))
  {
    var s' := Apply(s, Finish(u));
    var n := |s.accepted|;
    forall k | 0 <= k < |s'.accepted|
      ensures Linked(start, s'.accepted, k)
    {
      if k < n {
        LinkedKept(start, s.accepted, s'.accepted[n], k);
      }
    }
  }

  lemma {:induction false} ChainKept(start: Snap, s: State, step: Step)
    requires Exclusive(s) && Chain(start, s) && Enabled(s, step) && (step.Read? ==> step.expected.Some?)
    ensures Chain(start, Apply(s, step))
  {
    if step.Finish? && Changes(s.active[step.u]) {
      FinishLinks(start, s, step.u);
    } else {
      assert Current(Apply(s, step)) == Current(s);
    }
  }

  lemma {:induction false} GuardedRunKeeps(start: Snap, s: State, steps: seq<Step>)
    requires Exclusive(s) && Chain(start, s) && IsRun(s, steps) && Guarded(steps)
    ensures Exclusive(After(s, steps)) && Chain(start, After(s, steps))
    decreases steps
  {
    if steps != [] {
      assert steps[0].Read? ==> steps[0].expected.Some?;
      ExclusiveKept(s, steps[0]);
      ChainKept(start, s, steps[0]);
      GuardedRunKeeps(start, Apply(s, steps[0]), steps[1..]);
    }
  }

  /** When every update supplies its expected version, the accepted ones carry consecutive versions, each ran
      on exactly what the one before left, and the record now is what the last one left. */
  lemma {:induction false} NoEditLost(s: State, steps: seq<Step>)
    requires Sound(s) && IsRun(s, steps) && Guarded(steps)
    ensures Chain(Current(s), After(s, steps))
  {
    GuardedRunKeeps(Current(s), s, steps);
  }

  /** A guarded run's writes all find the version they read. */
  lemma {:induction false} GuardedWritesCurrent(s: State, steps: seq<Step>)
    requires Exclusive(s) && IsRun(s, steps) && Guarded(steps)
    ensures AllWritesCurrent(s, steps)
    decreases steps
  {
    if steps != [] {
      assert steps[0].Read? ==> steps[0].expected.Some?;
      ExclusiveKept(s, steps[0]);
      GuardedWritesCurrent(Apply(s, steps[0]), steps[1..]);
    }
  }

  /** All accepted patches applied in order. */
  ghost function Folded(start: Snap, accepted: seq<Accepted>, k: nat): Snap
    requires k <= |accepted|
  {
    if k == 0 then start else ApplyPatch(Folded(start, accepted, k - 1), accepted[k - 1].patch)
  }

  lemma {:induction false} ChainFolds(start: Snap, s: State, k: nat)
    requires Chain(start, s) && k <= |s.accepted|
    ensures Left(start, s.accepted, k) == Folded(start, s.accepted, k)
  {
    if k > 0 {
      ChainFolds(start, s, k - 1);
      assert Linked(start, s.accepted, k - 1);
    }
  }

  /** The record equals its start with every accepted patch applied, in order, none skipped. */
  lemma {:induction false} AllEditsPresent(s: State, steps: seq<Step>)
    requires Sound(s) && IsRun(s, steps) && Guarded(steps)
    ensures
      var s' := After(s, steps);
      Current(s') == Folded(Current(s), s'.accepted, |s'.accepted|)
  {
    NoEditLost(s, steps);
    ChainFolds(Current(s), After(s, steps), |After(s, steps).accepted|);
  }

  /** Guarded updates under way hold the lock and read the row as it still is, whatever unguarded ones do. */
  ghost predicate GuardHolds(s: State) {
    forall u :: u in s.active && s.active[u].expected.Some? ==>
      s.lock == Some(u) && s.active[u].read == s.row && s.active[u].expected.value == s.row.version
  }

  lemma {:induction false} GuardKept(s: State, step: Step)
    requires GuardHolds(s) && Enabled(s, step)
    ensures GuardHolds(Apply(s, step))
  {
  }

  lemma {:induction false} GuardKeptThrough(s: State, steps: seq<Step>)
    requires GuardHolds(s) && IsRun(s, steps)
    ensures GuardHolds(After(s, steps))
    decreases steps
  {
    if steps != [] {
      GuardKept(s, steps[0]);
      GuardKeptThrough(Apply(s, steps[0]), steps[1..]);
    }
  }

  /** In every run, mixed or not, a guarded update that gets through overwrites nothing it has not read. */
  lemma {:induction false} GuardedNeverOverwrites(s: State, steps: seq<Step>, u: nat)
    requires GuardHolds(s) && IsRun(s, steps) && Enabled(After(s, steps), Finish(u))
    requires After(s, steps).active[u].expected.Some?
    ensures After(s, steps).active[u].read == After(s, steps).row
  {
    GuardKeptThrough(s, steps);
  }

  // ---------- unguarded updates ----------

  ghost predicate AllRunsConserve(guardedOnly: bool) {
    forall s, steps :: Sound(s) && IsRun(s, steps) && (guardedOnly ==> Guarded(steps)) ==>
      ConservedThroughout(s, steps, Ahead(s))
  }

  lemma {:induction false} RunCons(s: State, step: Step, rest: seq<Step>)
    requires Enabled(s, step) && IsRun(Apply(s, step), rest)
    ensures IsRun(s, [step] + rest) && After(s, [step] + rest) == After(Apply(s, step), rest)
  {
    assert ([step] + rest)[1..] == rest;
  }

  function Retitle(title: string): Patch {
    Patch(Some(title), None, None, None, None, None)
  }

  /** Update 1 reads, update 2 reads and writes, update 1 writes: both record a revision, the version moves
      once, and the second edit is gone. */
  lemma {:induction false} StaleWriteRun(s: State, one: Patch, two: Patch) returns (steps: seq<Step>)
    requires Sound(s) && !s.legacy && Valid(one) && Valid(two) && one.custom.None? && two.custom.None?
    requires Storable(Patched(s.row.content, one)) && Storable(Patched(s.row.content, two))
    ensures IsRun(s, steps)
    ensures
      var s', c := After(s, steps), s.row.content;
      && s'.row.content == Patched(c, one)
      && s'.row.version == s.row.version + (if Patched(c, one) != c then 1 else 0)
      && |s'.revisions| == |s.revisions| + (if Patched(c, one) != c then 1 else 0) + (if Patched(c, two) != c then 1 else 0)
  {
    var s1 := Apply(s, Read(1, one, None));
    var s2 := Apply(s1, Read(2, two, None));
    var s3 := Apply(s2, Finish(2));
    RunCons(s3, Finish(1), []);
    RunCons(s2, Finish(2), [Finish(1)]);
    RunCons(s1, Read(2, two, None), [Finish(2)] + [Finish(1)]);
    RunCons(s, Read(1, one, None), [Read(2, two, None)] + ([Finish(2)] + [Finish(1)]));
    steps := [Read(1, one, None)] + ([Read(2, two, None)] + ([Finish(2)] + [Finish(1)]));
  }

  ghost function Sample(): State {
    State(Row(Content("old", "", "", "", ""), 1), map[], "proposed", [Content("old", "", "", "", "")], false, None,
          map[], [])
  }

  /** Supplying the expected version is what makes versions count revisions in every run. */
  lemma {:induction false} ConservedExactly(guardedOnly: bool)
    ensures AllRunsConserve(guardedOnly) <==> guardedOnly
  {
    if guardedOnly {
      forall s, steps | Sound(s) && IsRun(s, steps) && Guarded(steps)
        ensures ConservedThroughout(s, steps, Ahead(s))
      {
        GuardedWritesCurrent(s, steps);
        ConservedThroughoutExactly(s, steps);
      }
    } else {
      var s := Sample();
      var steps := StaleWriteRun(s, Retitle("one"), Retitle("two"));
      if ConservedThroughout(s, steps, Ahead(s)) {
        ConservedEnd(s, steps, Ahead(s));
      }
    }
  }

  /** A stale unguarded update that changes nothing itself silently takes an accepted edit back. */
  lemma {:induction false} NoOpReverts() returns (steps: seq<Step>)
    ensures IsRun(Sample(), steps)
    ensures
      var s' := After(Sample(), steps);
      s'.row == Sample().row && |s'.revisions| == 2
  {
    steps := StaleWriteRun(Sample(), Retitle("old"), Retitle("new"));
  }

  // ---------- records without a backing artifact ----------

  ghost predicate Untouched(s: State, row: Row, custom: Custom) {
    s.legacy && s.row == row && s.custom == custom && forall u :: u in s.active ==> s.active[u].read == row
  }

  /** No update ever changes a legacy record: recording its revision fails and rolls the edit back. */
  lemma {:induction false} LegacyFrozen(s: State, steps: seq<Step>, row: Row, custom: Custom)
    requires Untouched(s, row, custom) && IsRun(s, steps)
    ensures Untouched(After(s, steps), row, custom) && After(s, steps).revisions == s.revisions
    decreases steps
  {
    if steps != [] {
      LegacyFrozen(Apply(s, steps[0]), steps[1..], row, custom);
    }
  }

  // ---------- the call itself ----------

  datatype Outcome =
    | Saved(version: nat)
    | NotFound
    | StaleVersion(current: nat)
    | InvalidTitle
    | InvalidDescription
    | NoBackingArtifact
    | TitleTooLong
    | ArtifactNotFound

  /** What an undisturbed update does, as steps. */
  ghost function UpdateSteps(patch: Patch, expected: Option<nat>): seq<Step> {
    [Read(0, patch, expected)] + ([Touch(0)] + [Finish(0)])
  }

  /** The undisturbed update's end, whatever it is called. */
  ghost predicate RunsTo(s: State, patch: Patch, expected: Option<nat>, end: Snap, revisions: seq<Content>) {
    && IsRun(s, UpdateSteps(patch, expected))
    && Current(After(s, UpdateSteps(patch, expected))) == end
    && After(s, UpdateSteps(patch, expected)).revisions == revisions
  }

  lemma {:induction false} SequentialUpdate(
    s: State, patch: Patch, expected: Option<nat>, end: Snap, revisions: seq<Content>)
    requires s.active == map[] && s.lock.None? && (expected.Some? ==> expected.value == s.row.version)
    requires Ready(s, Update(patch, expected, s.row, Some(s.custom)))
    requires end.row.content == Patched(s.row.content, patch) && end.custom == Or(patch.custom, s.custom)
    requires
      var changed := end.row.content != s.row.content || end.custom != s.custom;
      && end.row.version == s.row.version + (if changed then 1 else 0)
      && revisions == s.revisions + (if changed then [end.row.content] else [])
    ensures RunsTo(s, patch, expected, end, revisions)
  {
    var s1 := Apply(s, Read(0, patch, expected));
    var s2 := Apply(s1, Touch(0));
    RunCons(s2, Finish(0), []);
    RunCons(s1, Touch(0), [Finish(0)]);
    RunCons(s, Read(0, patch, expected), [Touch(0)] + [Finish(0)]);
  }

  /** The field assignments of one update, each validated before it is made. */
  method Assigned(start: Content, patch: Patch) returns (content: Content, refused: Option<Outcome>)
    ensures refused.None? <==> Valid(patch)
    ensures refused.None? ==> content == Patched(start, patch)
    ensures refused == Some(InvalidTitle) <==> patch.title.Some? && |patch.title.value| < 3
    ensures refused == Some(InvalidDescription) <==>
      !(patch.title.Some? && |patch.title.value| < 3) && patch.description.Some? && |patch.description.value| > 10000
    ensures refused.Some? ==> refused.value == InvalidTitle || refused.value == InvalidDescription
    ensures refused.None? ==>
      && content.title == (if patch.title.Some? then patch.title.value else start.title)
      && content.description == (if patch.description.Some? then patch.description.value else start.description)
      && content.context == (if patch.context.Some? then patch.context.value else start.context)
      && content.decision == (if patch.decision.Some? then patch.decision.value else start.decision)
      && content.consequences == (if patch.consequences.Some? then patch.consequences.value else start.consequences)
  {
    content, refused := start, None;
    if patch.title.Some? {
      if |patch.title.value| < 3 {
        return content, Some(InvalidTitle);
      }
      content := content.(title := patch.title.value);
    }
    if patch.description.Some? {
      if |patch.description.value| > 10000 {
        return content, Some(InvalidDescription);
      }
      content := content.(description := patch.description.value);
    }
    if patch.context.Some? {
      content := content.(context := patch.context.value);
    }
    if patch.decision.Some? {
      content := content.(decision := patch.decision.value);
    }
    if patch.consequences.Some? {
      content := content.(consequences := patch.consequences.value);
    }
  }

  /** The stored record; `present` is false when no row has the id. */
  class AdrStore {
    var present: bool
    var row: Row
    var custom: Custom
    var revisions: seq<Content>
    const legacy: bool

    ghost function Snapshot(): State
      reads this
    {
      State(row, custom, "", revisions, legacy, None, map[], [])
    }

    constructor (content: Content, custom: Custom)
      ensures present && !legacy && row == Row(content, 1) && this.custom == custom && revisions == [content]
    {
      this.present, this.legacy := true, false;
      this.row, this.custom, this.revisions := Row(content, 1), custom, [content];
    }

    /** The row is saved; a real change adds one to the version and records a revision. */
    method Save(content: Content, customChanged: bool) returns (refused: Option<Outcome>)
      modifies this`row, this`revisions
      ensures refused == (
        if |content.title| > 200 then Some(TitleTooLong)
        else if legacy && (content != old(row.content) || customChanged) then Some(ArtifactNotFound)
        else None)
      ensures
        var saved := refused.None? && (content != old(row.content) || customChanged);
        && row == (if saved then Row(content, old(row.version) + 1) else old(row))
        && revisions == (if saved then old(revisions) + [content] else old(revisions))
    {
      if |content.title| > 200 {
        return Some(TitleTooLong);
      }
      if content != row.content || customChanged {
        if legacy {
          return Some(ArtifactNotFound);
        }
        row := Row(content, row.version + 1);
        revisions := revisions + [content];
      }
      return None;
    }

    /** Assigns field by field, saves, and counts a revision only for a real change. */
    method Write(patch: Patch) returns (r: Outcome)
      modifies this`row, this`custom, this`revisions
      ensures r.Saved? ==>
        && row.content.title == (if patch.title.Some? then patch.title.value else old(row.content.title))
        && row.content.description
          == (if patch.description.Some? then patch.description.value else old(row.content.description))
        && row.content.context == (if patch.context.Some? then patch.context.value else old(row.content.context))
        && row.content.decision == (if patch.decision.Some? then patch.decision.value else old(row.content.decision))
        && row.content.consequences
          == (if patch.consequences.Some? then patch.consequences.value else old(row.content.consequences))
        && custom == (if patch.custom.Some? then patch.custom.value else old(custom))
        && r.version == row.version
      ensures
        var changed := row.content != old(row.content) || custom != old(custom);
        && row.version == old(row.version) + (if changed then 1 else 0)
        && revisions == old(revisions) + (if changed then [row.content] else [])
      ensures !r.Saved? ==> row == old(row) && custom == old(custom)
      ensures
        var title := if patch.title.Some? then patch.title.value else old(row.content.title);
        && (r == InvalidTitle <==> patch.title.Some? && |title| < 3)
        && (r == InvalidDescription <==>
          !(patch.title.Some? && |title| < 3) && patch.description.Some? && |patch.description.value| > 10000)
        && (r == NoBackingArtifact ==> legacy && patch.custom.Some?)
        && (r == TitleTooLong ==> |title| > 200 && !(legacy && patch.custom.Some?))
        && (r == ArtifactNotFound ==> |title| <= 200)
      ensures r == ArtifactNotFound ==>
        legacy && patch.custom.None?
        && ((patch.title.Some? && patch.title.value != row.content.title)
            || (patch.description.Some? && patch.description.value != row.content.description)
            || (patch.context.Some? && patch.context.value != row.content.context)
            || (patch.decision.Some? && patch.decision.value != row.content.decision)
            || (patch.consequences.Some? && patch.consequences.value != row.content.consequences))
      ensures r.Saved? <==> Ready(old(Snapshot()), Update(patch, None, old(row), Some(old(custom))))
      ensures r.Saved? || r in {InvalidTitle, InvalidDescription, NoBackingArtifact, TitleTooLong, ArtifactNotFound}
    {
      var content, refused := Assigned(row.content, patch);
      if refused.Some? {
        return refused.value;
      }
      var customChanged := false;
      var rollback := custom;
      if patch.custom.Some? {
        if legacy {
          return NoBackingArtifact;
        }
        customChanged := patch.custom.value != custom;
        custom := patch.custom.value;
      }
      refused := Save(content, customChanged);
      if refused.Some? {
        custom := rollback;
        return refused.value;
      }
      return Saved(row.version);
    }

    /** `update_adr`: assigns field by field, saves, and counts a revision only for a real change. Every
        refusal leaves the record as it was. */
    method UpdateAdr(patch: Patch, expected: Option<nat>) returns (r: Outcome)
      modifies this
      ensures present == old(present)
      ensures r.Saved? ==>
        && row.content.title == (if patch.title.Some? then patch.title.value else old(row.content.title))
        && row.content.description
          == (if patch.description.Some? then patch.description.value else old(row.content.description))
        && row.content.context == (if patch.context.Some? then patch.context.value else old(row.content.context))
        && row.content.decision == (if patch.decision.Some? then patch.decision.value else old(row.content.decision))
        && row.content.consequences
          == (if patch.consequences.Some? then patch.consequences.value else old(row.content.consequences))
        && custom == (if patch.custom.Some? then patch.custom.value else old(custom))
      ensures r.Saved? ==>
        var changed := row.content != old(row.content) || custom != old(custom);
        && r.version == row.version == old(row.version) + (if changed then 1 else 0)
        && revisions == old(revisions) + (if changed then [row.content] else [])
      ensures r.Saved? <==>
        && present && (expected.Some? ==> expected.value == old(row.version))
        && Ready(old(Snapshot()), Update(patch, expected, old(row), Some(old(custom))))
      ensures r.Saved? ==> RunsTo(old(Snapshot()), patch, expected, Snap(row, custom), revisions)
      ensures !r.Saved? ==> row == old(row) && custom == old(custom) && revisions == old(revisions)
      ensures r == NotFound <==> !present
      ensures r.StaleVersion? <==> present && expected.Some? && expected.value != old(row.version)
      ensures r.StaleVersion? ==> r.current == row.version
      ensures r == InvalidTitle <==>
        present && (expected.None? || expected.value == old(row.version))
        && patch.title.Some? && |patch.title.value| < 3
      ensures r == InvalidDescription <==>
        present && (expected.None? || expected.value == old(row.version))
        && !(patch.title.Some? && |patch.title.value| < 3)
        && patch.description.Some? && |patch.description.value| > 10000
      ensures r == NoBackingArtifact ==> legacy && patch.custom.Some?
      ensures
        var title := if patch.title.Some? then patch.title.value else old(row.content.title);
        && (r == TitleTooLong ==> |title| > 200 && !(legacy && patch.custom.Some?))
        && (r == ArtifactNotFound ==> |title| <= 200)
      ensures r == ArtifactNotFound ==>
        legacy && patch.custom.None?
        && ((patch.title.Some? && patch.title.value != row.content.title)
            || (patch.description.Some? && patch.description.value != row.content.description)
            || (patch.context.Some? && patch.context.value != row.content.context)
            || (patch.decision.Some? && patch.decision.value != row.content.decision)
            || (patch.consequences.Some? && patch.consequences.value != row.content.consequences))
    {
      if !present {
        return NotFound;
      }
      if expected.Some? && row.version != expected.value {
        return StaleVersion(row.version);
      }
      r := Write(patch);
      if r.Saved? {
        SequentialUpdate(old(Snapshot()), patch, expected, Snap(row, custom), revisions);
      }
    }
  }
}
