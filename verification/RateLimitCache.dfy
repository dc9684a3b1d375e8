/** The read-through cache in front of one override layer, under every interleaving of readers, writers,
    evictions, failures and clock ticks. */
module RateLimitCache {
  import opened Text
  import opened RateLimits

  const TTL: nat := 30

  /** A write. The tenant table is changed row by row: a scope is set to a rate, or deleted. The global row is
      replaced as a whole by the map the writer worked out. */
  datatype Edit = Rows(changes: map<string, Option<string>>) | Whole(layer: Layer)

  /** The table as the writing transaction sees it, and as everybody does once it commits. */
  function Edited(table: Layer, edit: Edit): Layer {
    match edit
    case Whole(layer) => layer
    case Rows(changes) =>
      map s | s in table.Keys + changes.Keys && (s in changes ==> changes[s].Some?) ::
        if s in changes then changes[s] else table[s]
  }

  /** A written row reads back, a deleted one is gone, all others stay; a whole map replaces all. */
  lemma {:induction false} EditedExactly(table: Layer, changes: map<string, Option<string>>, scope: string, whole: Layer)
    ensures
      var after := Edited(table, Rows(changes));
      && (scope in changes && changes[scope].Some? ==> scope in after && after[scope] == changes[scope])
      && (scope in changes && changes[scope] == None ==> scope !in after)
      && (scope !in changes ==> (scope in after <==> scope in table))
      && (scope !in changes && scope in table ==> scope in after && after[scope] == table[scope])
    ensures Edited(table, Whole(whole)) == whole
  {
  }

  datatype Cached = Cached(value: Layer, expiry: nat)

  /** A value read from the database at a time. */
  datatype Loaded = Loaded(value: Layer, at: nat)

  /** Where a writing transaction stands; after invalidating it reads the layer back, before it commits. */
  datatype Phase = Writing | Invalidated | ReadBack(load: Loaded) | Finished

  datatype Writer = Writer(edit: Edit, phase: Phase)

  /** `pending`: readers between their load and their fill. `past`: committed maps and when they were
      replaced. `unborn`: maps a transaction saw before committing, and when. */
  datatype State = State(
    now: nat,
    table: Layer,
    cache: Option<Cached>,
    pending: map<nat, Loaded>,
    writers: map<nat, Writer>,
    past: seq<Loaded>,
    unborn: seq<Loaded>)

  datatype Step =
    | Tick
    | Evict
    | Hit
    | Load(r: nat)
    | LoadFails
    | Fill(r: nat)
    | FillFails(r: nat)
    | Begin(w: nat, edit: Edit)
    | Invalidate(w: nat)
    | InvalidateFails(w: nat)
    | OwnHit(w: nat)
    | OwnLoad(w: nat)
    | OwnLoadFails(w: nat)
    | OwnFill(w: nat)
    | OwnFillFails(w: nat)
    | Commit(w: nat)
    | Abort(w: nat)

  function Init(table: Layer): State {
    State(0, table, None, map[], map[], [], [])
  }

  predicate Live(s: State) {
    s.cache.Some? && s.now < s.cache.value.expiry
  }

  predicate In(s: State, w: nat, p: Phase) {
    w in s.writers && s.writers[w].phase == p
  }

  predicate HasReadBack(s: State, w: nat) {
    w in s.writers && s.writers[w].phase.ReadBack?
  }

  /** Every load under way is filled within `delay`: time does not pass beyond that. */
  ghost predicate InTime(s: State, delay: nat) {
    && (forall r :: r in s.pending ==> s.now < s.pending[r].at + delay)
    && (forall w :: w in s.writers && s.writers[w].phase.ReadBack? ==> s.now < s.writers[w].phase.load.at + delay)
  }

  ghost predicate Enabled(s: State, step: Step, delay: nat) {
    match step
    case Tick => InTime(s, delay)
    case Evict => true
    case Hit => Live(s)
    case Load(r) => r !in s.pending
    case LoadFails => true
    case Fill(r) => r in s.pending
    case FillFails(r) => r in s.pending
    case Begin(w, _) => w !in s.writers
    case Invalidate(w) => In(s, w, Writing)
    case InvalidateFails(w) => In(s, w, Writing)
    case OwnHit(w) => In(s, w, Invalidated) && Live(s)
    case OwnLoad(w) => In(s, w, Invalidated)
    case OwnLoadFails(w) => In(s, w, Invalidated)
    case OwnFill(w) => HasReadBack(s, w)
    case OwnFillFails(w) => HasReadBack(s, w)
    case Commit(w) => In(s, w, Finished)
    case Abort(w) => w in s.writers
  }

  function Moved(s: State, w: nat, p: Phase): State
    requires w in s.writers
  {
    s.(writers := s.writers[w := s.writers[w].(phase := p)])
  }

  function Filled(s: State, value: Layer): State {
    s.(cache := Some(Cached(value, s.now + TTL)))
  }

  ghost function Apply(s: State, step: Step, delay: nat): State
    requires Enabled(s, step, delay)
  {
    match step
    case Tick => s.(now := s.now + 1)
    case Evict => s.(cache := None)
    case Hit => s
    case Load(r) => s.(pending := s.pending[r := Loaded(s.table, s.now)])
    case LoadFails => s
    case Fill(r) => Filled(s, s.pending[r].value).(pending := s.pending - {r})
    case FillFails(r) => s.(pending := s.pending - {r})
    case Begin(w, edit) => s.(writers := s.writers[w := Writer(edit, Writing)])
    case Invalidate(w) => Moved(s, w, Invalidated).(cache := None)
    case InvalidateFails(w) => Moved(s, w, Invalidated)
    case OwnHit(w) => Moved(s, w, Finished)
    case OwnLoad(w) =>
      var seen := Loaded(Edited(s.table, s.writers[w].edit), s.now);
      Moved(s, w, ReadBack(seen)).(unborn := s.unborn + [seen])
    case OwnLoadFails(w) => Moved(s, w, Finished)
    case OwnFill(w) => Moved(Filled(s, s.writers[w].phase.load.value), w, Finished)
    case OwnFillFails(w) => Moved(s, w, Finished)
    case Commit(w) =>
      s.(table := Edited(s.table, s.writers[w].edit), past := s.past + [Loaded(s.table, s.now)],
         writers := s.writers - {w})
    case Abort(w) => s.(writers := s.writers - {w})
  }

  /** What a reader's non-failed layer read returns at this step. */
  function Returned(s: State, step: Step): Option<Layer> {
    match step
    case Hit => if Live(s) then Some(s.cache.value.value) else None
    case Fill(r) => if r in s.pending then Some(s.pending[r].value) else None
    case FillFails(r) => if r in s.pending then Some(s.pending[r].value) else None
    case _ => None
  }

  // ---------- runs ----------

  ghost predicate IsRun(s: State, steps: seq<Step>, delay: nat)
    decreases steps
  {
    steps == [] || (Enabled(s, steps[0], delay) && IsRun(Apply(s, steps[0], delay), steps[1..], delay))
  }

  ghost function After(s: State, steps: seq<Step>, delay: nat): State
    requires IsRun(s, steps, delay)
    decreases steps
  {
    if steps == [] then s else After(Apply(s, steps[0], delay), steps[1..], delay)
  }

  // ---------- how old a read can be ----------

  /** The database held `m` at some moment from `since` on (times before 0 count as 0). */
  ghost predicate Held(s: State, m: Layer, since: int) {
    m == s.table || exists k :: 0 <= k < |s.past| && s.past[k].value == m && s.past[k].at >= since
  }

  /** Some transaction saw `m`, its own uncommitted edit included, from `since` on. */
  ghost predicate Seen(s: State, m: Layer, since: int) {
    exists k :: 0 <= k < |s.unborn| && s.unborn[k].value == m && s.unborn[k].at >= since
  }

  ghost predicate Known(s: State, m: Layer, since: int) {
    Held(s, m, since) || Seen(s, m, since)
  }

  ghost predicate KnownLoad(s: State, l: Loaded, delay: nat) {
    Known(s, l.value, l.at) && s.now - delay <= l.at <= s.now
  }

  ghost predicate CacheKnown(s: State, delay: nat) {
    s.cache.Some? ==>
      s.cache.value.expiry <= s.now + TTL && Known(s, s.cache.value.value, s.cache.value.expiry - TTL - delay)
  }

  ghost predicate Inv(s: State, delay: nat) {
    && (forall r :: r in s.pending ==> KnownLoad(s, s.pending[r], delay))
    && (forall w :: w in s.writers && s.writers[w].phase.ReadBack? ==> KnownLoad(s, s.writers[w].phase.load, delay))
    && CacheKnown(s, delay)
  }

  /** What was known stays known: a replaced map is remembered with the time it was replaced. */
  lemma {:induction false} KnownKept(s: State, step: Step, delay: nat, m: Layer, since: int)
    requires Enabled(s, step, delay) && Known(s, m, since) && since <= s.now
    ensures Known(Apply(s, step, delay), m, since)
  {
    var s' := Apply(s, step, delay);
    if Held(s, m, since) {
      if m == s.table {
        if step.Commit? {
          assert s'.past[|s.past|] == Loaded(m, s.now);
        }
      } else {
        var k :| 0 <= k < |s.past| && s.past[k].value == m && s.past[k].at >= since;
        assert s'.past[k] == s.past[k];
      }
    } else {
      var k :| 0 <= k < |s.unborn| && s.unborn[k].value == m && s.unborn[k].at >= since;
      assert s'.unborn[k] == s.unborn[k];
    }
  }

  lemma {:induction false} LoadKept(s: State, step: Step, delay: nat, l: Loaded)
    requires Enabled(s, step, delay) && KnownLoad(s, l, delay)
    requires step.Tick? ==> s.now < l.at + delay
    ensures KnownLoad(Apply(s, step, delay), l, delay)
  {
    KnownKept(s, step, delay, l.value, l.at);
  }

  lemma {:induction false} PendingKept(s: State, step: Step, delay: nat, r: nat)
    requires Inv(s, delay) && Enabled(s, step, delay) && r in Apply(s, step, delay).pending
    ensures KnownLoad(Apply(s, step, delay), Apply(s, step, delay).pending[r], delay)
  {
    if r in s.pending {
      LoadKept(s, step, delay, s.pending[r]);
    }
  }

  lemma {:induction false} ReadBackKept(s: State, step: Step, delay: nat, w: nat)
    requires Inv(s, delay) && Enabled(s, step, delay)
    requires HasReadBack(Apply(s, step, delay), w)
    ensures KnownLoad(Apply(s, step, delay), Apply(s, step, delay).writers[w].phase.load, delay)
  {
    if HasReadBack(s, w) {
      LoadKept(s, step, delay, s.writers[w].phase.load);
    } else {
      var s' := Apply(s, step, delay);
      assert s'.unborn[|s.unborn|] == s'.writers[w].phase.load;
    }
  }

  lemma {:induction false} KnownSooner(s: State, m: Layer, since: int, sooner: int)
    requires Known(s, m, since) && sooner <= since
    ensures Known(s, m, sooner)
  {
  }

  lemma {:induction false} CacheKept(s: State, step: Step, delay: nat)
    requires Inv(s, delay) && Enabled(s, step, delay)
    ensures CacheKnown(Apply(s, step, delay), delay)
  {
    if step.Fill? || step.OwnFill? {
      var l := if step.Fill? then s.pending[step.r] else s.writers[step.w].phase.load;
      KnownSooner(s, l.value, l.at, s.now - delay);
      KnownKept(s, step, delay, l.value, s.now - delay);
    } else if s.cache.Some? {
      KnownKept(s, step, delay, s.cache.value.value, s.cache.value.expiry - TTL - delay);
    }
  }

  lemma {:induction false} StepKeeps(s: State, step: Step, delay: nat)
    requires Inv(s, delay) && Enabled(s, step, delay)
    ensures Inv(Apply(s, step, delay), delay)
  {
    var s' := Apply(s, step, delay);
    forall r | r in s'.pending
      ensures KnownLoad(s', s'.pending[r], delay)
    {
      PendingKept(s, step, delay, r);
    }
    forall w | w in s'.writers && s'.writers[w].phase.ReadBack?
      ensures KnownLoad(s', s'.writers[w].phase.load, delay)
    {
      ReadBackKept(s, step, delay, w);
    }
    CacheKept(s, step, delay);
  }

  lemma {:induction false} RunKeeps(s: State, steps: seq<Step>, delay: nat)
    requires Inv(s, delay) && IsRun(s, steps, delay)
    ensures Inv(After(s, steps, delay), delay)
    decreases steps
  {
    if steps != [] {
      StepKeeps(s, steps[0], delay);
      RunKeeps(Apply(s, steps[0], delay), steps[1..], delay);
    }
  }

  /** In every run a non-failed read returns a map that was in the database, or in the view of a transaction
      that had not committed it: a hit less than 30 seconds and the delay ago, a fresh load within the delay. */
  lemma {:induction false} ReadsRecent(table: Layer, steps: seq<Step>, delay: nat, last: Step)
    requires IsRun(Init(table), steps, delay) && Enabled(After(Init(table), steps, delay), last, delay)
    ensures
      var s := After(Init(table), steps, delay);
      var m := Returned(s, last);
      m.Some? ==> Known(s, m.value, s.now - delay - (if last.Hit? then 29 else 0))
  {
    var s := After(Init(table), steps, delay);
    RunKeeps(Init(table), steps, delay);
    match last
    case Hit => KnownSooner(s, s.cache.value.value, s.cache.value.expiry - TTL - delay, s.now - TTL - delay + 1);
    case Fill(r) => KnownSooner(s, s.pending[r].value, s.pending[r].at, s.now - delay);
    case FillFails(r) => KnownSooner(s, s.pending[r].value, s.pending[r].at, s.now - delay);
    case _ =>
  }

  // ---------- reading back before the commit ----------

  ghost predicate NoReadBack(steps: seq<Step>) {
    forall i :: 0 <= i < |steps| ==> !steps[i].OwnLoad?
  }

  lemma {:induction false} NothingUnborn(s: State, steps: seq<Step>, delay: nat)
    requires IsRun(s, steps, delay) && NoReadBack(steps) && s.unborn == []
    ensures After(s, steps, delay).unborn == []
    decreases steps
  {
    if steps != [] {
      assert !steps[0].OwnLoad?;
      NothingUnborn(Apply(s, steps[0], delay), steps[1..], delay);
    }
  }

  /** A read at the end of this run returns a map the database really held, recently enough. */
  ghost predicate HeldRead(table: Layer, steps: seq<Step>, delay: nat, last: Step)
    requires IsRun(Init(table), steps, delay)
  {
    var s := After(Init(table), steps, delay);
    var m := Returned(s, last);
    Enabled(s, last, delay) && m.Some? ==> Held(s, m.value, s.now - TTL - delay + 1)
  }

  /** Every read of every run does, when writers do (not) read the layer back before they commit. */
  ghost predicate AllReadsHeld(readBack: bool) {
    forall table, steps, delay, last ::
      IsRun(Init(table), steps, delay) && (readBack || NoReadBack(steps)) ==> HeldRead(table, steps, delay, last)
  }

  lemma {:induction false} HeldWithoutReadBack(table: Layer, steps: seq<Step>, delay: nat, last: Step)
    requires IsRun(Init(table), steps, delay) && NoReadBack(steps)
    ensures HeldRead(table, steps, delay, last)
  {
    var s := After(Init(table), steps, delay);
    if Enabled(s, last, delay) && Returned(s, last).Some? {
      ReadsRecent(table, steps, delay, last);
      NothingUnborn(Init(table), steps, delay);
    }
  }

  lemma {:induction false} RunCons(s: State, step: Step, rest: seq<Step>, delay: nat)
    requires Enabled(s, step, delay) && IsRun(Apply(s, step, delay), rest, delay)
    ensures IsRun(s, [step] + rest, delay)
    ensures After(s, [step] + rest, delay) == After(Apply(s, step, delay), rest, delay)
  {
    assert ([step] + rest)[1..] == rest;
  }

  lemma {:induction false} FillAndRollBack(s: State, w: nat, delay: nat)
    requires HasReadBack(s, w)
    ensures IsRun(s, [OwnFill(w)] + [Abort(w)], delay)
    ensures After(s, [OwnFill(w)] + [Abort(w)], delay)
         == Filled(s, s.writers[w].phase.load.value).(writers := s.writers - {w})
  {
    var s1 := Apply(s, OwnFill(w), delay);
    assert s1.writers - {w} == s.writers - {w};
    RunCons(s1, Abort(w), [], delay);
    RunCons(s, OwnFill(w), [Abort(w)], delay);
  }

  /** The only writer of an empty layer, its edit made and the cache invalidated. */
  ghost function Opened(edit: Edit): State {
    State(0, map[], None, map[], map[0 := Writer(edit, Invalidated)], [], [])
  }

  lemma {:induction false} OpenedRun(edit: Edit, rest: seq<Step>, delay: nat)
    requires IsRun(Opened(edit), rest, delay)
    ensures IsRun(Init(map[]), [Begin(0, edit)] + ([Invalidate(0)] + rest), delay)
    ensures After(Init(map[]), [Begin(0, edit)] + ([Invalidate(0)] + rest), delay) == After(Opened(edit), rest, delay)
  {
    var s1 := Apply(Init(map[]), Begin(0, edit), delay);
    assert Apply(s1, Invalidate(0), delay) == Opened(edit);
    RunCons(s1, Invalidate(0), rest, delay);
    RunCons(Init(map[]), Begin(0, edit), [Invalidate(0)] + rest, delay);
  }

  /** A writer reads its own edit back into the cache and then rolls back. */
  lemma {:induction false} RolledBackStaysCached(edit: Edit, delay: nat) returns (steps: seq<Step>)
    ensures IsRun(Init(map[]), steps, delay)
    ensures
      var s := After(Init(map[]), steps, delay);
      && s.table == map[] && s.past == [] && s.writers == map[]
      && Enabled(s, Hit, delay) && Returned(s, Hit) == Some(Edited(map[], edit))
  {
    var end := [OwnFill(0)] + [Abort(0)];
    var s3 := Apply(Opened(edit), OwnLoad(0), delay);
    FillAndRollBack(s3, 0, delay);
    RunCons(Opened(edit), OwnLoad(0), end, delay);
    OpenedRun(edit, [OwnLoad(0)] + end, delay);
    steps := [Begin(0, edit)] + ([Invalidate(0)] + ([OwnLoad(0)] + end));
    assert s3.writers - {0} == map[];
  }

  /** Reads return really held maps in every run exactly when no writer reads back before it commits. */
  lemma {:induction false} HeldExactly(readBack: bool)
    ensures AllReadsHeld(readBack) <==> !readBack
  {
    if readBack {
      var edit := Rows(map["user" := Some("1/s")]);
      var steps := RolledBackStaysCached(edit, 0);
      assert "user" in Edited(map[], edit);
      assert !HeldRead(map[], steps, 0, Hit);
    } else {
      forall table, steps, delay, last | IsRun(Init(table), steps, delay) && NoReadBack(steps)
        ensures HeldRead(table, steps, delay, last)
      {
        HeldWithoutReadBack(table, steps, delay, last);
      }
    }
  }

  // ---------- from which states on reads are held maps ----------

  /** The database held `m` at some time up to now. */
  ghost predicate EverHeld(s: State, m: Layer) {
    Held(s, m, 0)
  }

  /** Whatever is live in the cache, or loaded and on its way into it, is a map the database held. */
  ghost predicate Settled(s: State) {
    && (Live(s) ==> EverHeld(s, s.cache.value.value))
    && (forall r :: r in s.pending ==> EverHeld(s, s.pending[r].value))
    && (forall w :: HasReadBack(s, w) ==> EverHeld(s, s.writers[w].phase.load.value))
  }

  /** What the database held once it has held for good. */
  lemma {:induction false} HeldKept(s: State, step: Step, delay: nat, m: Layer)
    requires Enabled(s, step, delay) && EverHeld(s, m)
    ensures EverHeld(Apply(s, step, delay), m)
  {
    var s' := Apply(s, step, delay);
    if m == s.table {
      if step.Commit? {
        assert s'.past[|s.past|] == Loaded(m, s.now);
      }
    } else {
      var k :| 0 <= k < |s.past| && s.past[k].value == m && s.past[k].at >= 0;
      assert s'.past[k] == s.past[k];
    }
  }

  lemma {:induction false} SettledCache(s: State, step: Step, delay: nat)
    requires Settled(s) && Enabled(s, step, delay) && Live(Apply(s, step, delay))
    ensures EverHeld(Apply(s, step, delay), Apply(s, step, delay).cache.value.value)
  {
    if step.Fill? {
      HeldKept(s, step, delay, s.pending[step.r].value);
    } else if step.OwnFill? {
      assert HasReadBack(s, step.w);
      HeldKept(s, step, delay, s.writers[step.w].phase.load.value);
    } else {
      HeldKept(s, step, delay, s.cache.value.value);
    }
  }

  /** Every step but a writer's own load keeps a settled state settled. */
  lemma {:induction false} SettledStep(s: State, step: Step, delay: nat)
    requires Settled(s) && Enabled(s, step, delay) && !step.OwnLoad?
    ensures Settled(Apply(s, step, delay))
  {
    var s' := Apply(s, step, delay);
    if Live(s') {
      SettledCache(s, step, delay);
    }
    forall r | r in s'.pending
      ensures EverHeld(s', s'.pending[r].value)
    {
      if r in s.pending {
        HeldKept(s, step, delay, s.pending[r].value);
      }
    }
    forall w | HasReadBack(s', w)
      ensures EverHeld(s', s'.writers[w].phase.load.value)
    {
      assert HasReadBack(s, w);
      HeldKept(s, step, delay, s.writers[w].phase.load.value);
    }
  }

  lemma {:induction false} SettledRun(s: State, steps: seq<Step>, delay: nat)
    requires Settled(s) && IsRun(s, steps, delay) && NoReadBack(steps)
    ensures Settled(After(s, steps, delay))
    decreases steps
  {
    if steps != [] {
      assert !steps[0].OwnLoad?;
      SettledStep(s, steps[0], delay);
      SettledRun(Apply(s, steps[0], delay), steps[1..], delay);
    }
  }

  /** The read `last` at the end of a continuation of `s` returns a map the database held. */
  ghost predicate HeldAfter(s: State, steps: seq<Step>, delay: nat, last: Step)
    requires IsRun(s, steps, delay)
  {
    var s' := After(s, steps, delay);
    Enabled(s', last, delay) && Returned(s', last).Some? ==> EverHeld(s', Returned(s', last).value)
  }

  /** However things go on from `s` without a further read-back, every read returns a map the database held. */
  ghost predicate HeldFromHere(s: State, delay: nat) {
    forall steps, last :: IsRun(s, steps, delay) && NoReadBack(steps) ==> HeldAfter(s, steps, delay, last)
  }

  lemma {:induction false} SettledReads(s: State, last: Step, delay: nat)
    requires Settled(s) && Enabled(s, last, delay) && Returned(s, last).Some?
    ensures EverHeld(s, Returned(s, last).value)
  {
  }

  /** A state that is not settled has a continuation that serves what the database never held: a hit, a fill,
      or a writer's fill and a hit. */
  lemma {:induction false} UnsettledServes(s: State, delay: nat) returns (steps: seq<Step>, last: Step)
    requires !Settled(s)
    ensures IsRun(s, steps, delay) && NoReadBack(steps) && !HeldAfter(s, steps, delay, last)
  {
    steps := [];
    if Live(s) && !EverHeld(s, s.cache.value.value) {
      last := Hit;
    } else if r :| r in s.pending && !EverHeld(s, s.pending[r].value) {
      last := Fill(r);
    } else {
      var w :| HasReadBack(s, w) && !EverHeld(s, s.writers[w].phase.load.value);
      steps, last := [OwnFill(w)] + [], Hit;
      RunCons(s, OwnFill(w), [], delay);
      OwnFillServes(s, w, delay);
    }
  }

  lemma {:induction false} OwnFillServes(s: State, w: nat, delay: nat)
    requires HasReadBack(s, w) && !EverHeld(s, s.writers[w].phase.load.value)
    ensures
      var s' := Apply(s, OwnFill(w), delay);
      Enabled(s', Hit, delay) && Returned(s', Hit).Some? && !EverHeld(s', Returned(s', Hit).value)
  {
    var s' := Apply(s, OwnFill(w), delay);
    assert s'.table == s.table && s'.past == s.past;
  }

  /** From a state on, and with no further read-back, every read returns a map the database held exactly when
      the state is settled. */
  lemma {:induction false} SettledExactly(s: State, delay: nat)
    ensures HeldFromHere(s, delay) <==> Settled(s)
  {
    if Settled(s) {
      forall steps, last | IsRun(s, steps, delay) && NoReadBack(steps)
        ensures HeldAfter(s, steps, delay, last)
      {
        SettledRun(s, steps, delay);
        var s' := After(s, steps, delay);
        if Enabled(s', last, delay) && Returned(s', last).Some? {
          SettledReads(s', last, delay);
        }
      }
    } else {
      var steps, last := UnsettledServes(s, delay);
    }
  }

  /** A writer's read-back keeps a settled state settled exactly when the database has held what the writer then
      sees, its own edit included. */
  lemma {:induction false} ReadBackSettles(s: State, w: nat, delay: nat)
    requires Settled(s) && Enabled(s, OwnLoad(w), delay)
    ensures Settled(Apply(s, OwnLoad(w), delay)) <==> EverHeld(s, Edited(s.table, s.writers[w].edit))
  {
    var s' := Apply(s, OwnLoad(w), delay);
    assert s'.table == s.table && s'.past == s.past;
    assert HasReadBack(s', w);
    forall x | HasReadBack(s', x) && x != w
      ensures EverHeld(s', s'.writers[x].phase.load.value)
    {
      assert HasReadBack(s, x);
    }
  }

  /** What every read-back of the run sees, the database has held before. */
  ghost predicate ReadBacksHeld(s: State, steps: seq<Step>, delay: nat)
    requires IsRun(s, steps, delay)
    decreases steps
  {
    steps == [] ||
    ((steps[0].OwnLoad? ==> EverHeld(s, Edited(s.table, s.writers[steps[0].w].edit)))
     && ReadBacksHeld(Apply(s, steps[0], delay), steps[1..], delay))
  }

  ghost predicate SettledThroughout(s: State, steps: seq<Step>, delay: nat)
    requires IsRun(s, steps, delay)
    decreases steps
  {
    Settled(s) && (steps == [] || SettledThroughout(Apply(s, steps[0], delay), steps[1..], delay))
  }

  /** A run of the service as it is, read-backs included, stays settled all the way exactly when what every
      read-back sees, the database has held before. */
  lemma {:induction false} SettledThroughoutExactly(s: State, steps: seq<Step>, delay: nat)
    requires Settled(s) && IsRun(s, steps, delay)
    ensures SettledThroughout(s, steps, delay) <==> ReadBacksHeld(s, steps, delay)
    decreases steps
  {
    if steps != [] {
      var s' := Apply(s, steps[0], delay);
      if steps[0].OwnLoad? {
        ReadBackSettles(s, steps[0].w, delay);
      } else {
        SettledStep(s, steps[0], delay);
      }
      if Settled(s') {
        SettledThroughoutExactly(s', steps[1..], delay);
      }
    }
  }

  // ---------- when reads are current ----------

  predicate ReaderStep(step: Step) {
    step.Tick? || step.Evict? || step.Hit? || step.Load? || step.LoadFails? || step.Fill? || step.FillFails?
  }

  ghost predicate OnlyReaders(steps: seq<Step>) {
    forall i :: 0 <= i < |steps| ==> ReaderStep(steps[i])
  }

  /** Whatever is cached or on its way into the cache is the current map. */
  ghost predicate Quiet(s: State) {
    && (Live(s) ==> s.cache.value.value == s.table)
    && (forall r :: r in s.pending ==> s.pending[r].value == s.table)
  }

  lemma {:induction false} QuietStep(s: State, step: Step, delay: nat)
    requires Quiet(s) && ReaderStep(step) && Enabled(s, step, delay)
    ensures Quiet(Apply(s, step, delay)) && Apply(s, step, delay).table == s.table
    ensures Returned(s, step).Some? ==> Returned(s, step).value == s.table
  {
  }

  lemma {:induction false} QuietRun(s: State, steps: seq<Step>, delay: nat)
    requires Quiet(s) && OnlyReaders(steps) && IsRun(s, steps, delay)
    ensures Quiet(After(s, steps, delay)) && After(s, steps, delay).table == s.table
    decreases steps
  {
    if steps != [] {
      assert ReaderStep(steps[0]);
      QuietStep(s, steps[0], delay);
      QuietRun(Apply(s, steps[0], delay), steps[1..], delay);
    }
  }

  /** However the readers go on, every read returns the current map. */
  ghost predicate Fresh(s: State, delay: nat) {
    forall steps, last ::
      OnlyReaders(steps) && IsRun(s, steps, delay) && Enabled(After(s, steps, delay), last, delay)
      && Returned(After(s, steps, delay), last).Some? ==>
        Returned(After(s, steps, delay), last).value == s.table
  }

  /** Until the next write, reads are current exactly when the state is quiet. */
  lemma {:induction false} FreshExactly(s: State, delay: nat)
    ensures Fresh(s, delay) <==> Quiet(s)
  {
    if Quiet(s) {
      forall steps, last |
        OnlyReaders(steps) && IsRun(s, steps, delay) && Enabled(After(s, steps, delay), last, delay)
        && Returned(After(s, steps, delay), last).Some?
        ensures Returned(After(s, steps, delay), last).value == s.table
      {
        QuietRun(s, steps, delay);
        QuietStep(After(s, steps, delay), last, delay);
      }
    } else {
      var last := if Live(s) && s.cache.value.value != s.table then Hit
                  else var r :| r in s.pending && s.pending[r].value != s.table; Fill(r);
      assert After(s, [], delay) == s && OnlyReaders([]);
      assert Enabled(After(s, [], delay), last, delay);
      assert Returned(After(s, [], delay), last).value != s.table;
    }
  }

  // ---------- a write nobody straddles ----------

  /** A step of writer `w`'s own read-back, a step that touches neither table nor loads, or a step of another
      writer short of filling the cache and of committing. */
  predicate Unobtrusive(step: Step, w: nat) {
    || step.Tick? || step.Evict? || step.Hit? || step.LoadFails? || step.Begin?
    || ((step.OwnHit? || step.OwnLoad? || step.OwnLoadFails? || step.OwnFillFails?))
    || (step.OwnFill? && step.w == w)
    || ((step.Invalidate? || step.InvalidateFails? || step.Abort?) && step.w != w)
  }

  ghost predicate AllUnobtrusive(steps: seq<Step>, w: nat) {
    forall i :: 0 <= i < |steps| ==> Unobtrusive(steps[i], w)
  }

  /** Between invalidating and committing: nothing but the writer's own view can be cached. */
  ghost predicate OnlyOwnView(s: State, w: nat, view: Layer) {
    && s.pending == map[] && w in s.writers && view == Edited(s.table, s.writers[w].edit)
    && (s.cache.Some? ==> s.cache.value.value == view)
    && (s.writers[w].phase.ReadBack? ==> s.writers[w].phase.load.value == view)
  }

  lemma {:induction false} OwnViewStep(s: State, step: Step, delay: nat, w: nat, view: Layer)
    requires OnlyOwnView(s, w, view) && Unobtrusive(step, w) && Enabled(s, step, delay)
    ensures OnlyOwnView(Apply(s, step, delay), w, view)
  {
  }

  lemma {:induction false} OwnViewRun(s: State, steps: seq<Step>, delay: nat, w: nat, view: Layer)
    requires OnlyOwnView(s, w, view) && AllUnobtrusive(steps, w) && IsRun(s, steps, delay)
    ensures OnlyOwnView(After(s, steps, delay), w, view)
    decreases steps
  {
    if steps != [] {
      assert Unobtrusive(steps[0], w);
      OwnViewStep(s, steps[0], delay, w, view);
      OwnViewRun(Apply(s, steps[0], delay), steps[1..], delay, w, view);
    }
  }

  /** When no load is under way at the invalidation and no reader's starts before the commit, and no other
      writer fills the cache or commits in between, every later read is current until the next write. */
  lemma {:induction false} UnstraddledWriteFresh(s: State, mid: seq<Step>, delay: nat, w: nat)
    requires s.pending == map[] && Enabled(s, Invalidate(w), delay)
    requires AllUnobtrusive(mid, w) && IsRun(Apply(s, Invalidate(w), delay), mid, delay)
    requires Enabled(After(Apply(s, Invalidate(w), delay), mid, delay), Commit(w), delay)
    ensures Fresh(Apply(After(Apply(s, Invalidate(w), delay), mid, delay), Commit(w), delay), delay)
  {
    var s1 := Apply(s, Invalidate(w), delay);
    OwnViewRun(s1, mid, delay, w, Edited(s.table, s.writers[w].edit));
    FreshExactly(Apply(After(s1, mid, delay), Commit(w), delay), delay);
  }

  lemma {:induction false} HitAndCommit(s: State, w: nat, delay: nat)
    requires In(s, w, Invalidated) && Live(s)
    ensures IsRun(s, [OwnHit(w)] + [Commit(w)], delay)
    ensures After(s, [OwnHit(w)] + [Commit(w)], delay)
         == s.(table := Edited(s.table, s.writers[w].edit), past := s.past + [Loaded(s.table, s.now)],
               writers := s.writers - {w})
  {
    var s1 := Apply(s, OwnHit(w), delay);
    assert s1.writers - {w} == s.writers - {w};
    RunCons(s1, Commit(w), [], delay);
    RunCons(s, OwnHit(w), [Commit(w)], delay);
  }

  /** A reader that starts after the invalidation and is done before the commit straddles neither, and still
      leaves the old map in the cache: invalidating inside the transaction is too early. */
  lemma {:induction false} EarlyInvalidationStale(edit: Edit, delay: nat) returns (steps: seq<Step>)
    requires Edited(map[], edit) != map[]
    ensures IsRun(Init(map[]), steps, delay)
    ensures
      var s := After(Init(map[]), steps, delay);
      s.pending == map[] && s.writers == map[] && s.table == Edited(map[], edit) && !Fresh(s, delay)
  {
    var end := [OwnHit(0)] + [Commit(0)];
    var s3 := Apply(Opened(edit), Load(0), delay);
    var s4 := Apply(s3, Fill(0), delay);
    HitAndCommit(s4, 0, delay);
    RunCons(s3, Fill(0), end, delay);
    RunCons(Opened(edit), Load(0), [Fill(0)] + end, delay);
    OpenedRun(edit, [Load(0)] + ([Fill(0)] + end), delay);
    steps := [Begin(0, edit)] + ([Invalidate(0)] + ([Load(0)] + ([Fill(0)] + end)));
    assert s3.pending - {0} == map[];
    FreshExactly(After(s4, end, delay), delay);
  }

  // ---------- the loader itself ----------

  /** What an undisturbed call of a loader does, as steps. */
  ghost function ReadSteps(hit: bool, loadFails: bool, setFails: bool): seq<Step> {
    if hit then [Hit]
    else if loadFails then [LoadFails]
    else [Load(0)] + [if setFails then FillFails(0) else Fill(0)]
  }

  lemma {:induction false} SequentialRead(s: State, hit: bool, loadFails: bool, setFails: bool, delay: nat)
    requires s.pending == map[] && (hit ==> Live(s))
    ensures IsRun(s, ReadSteps(hit, loadFails, setFails), delay)
    ensures After(s, ReadSteps(hit, loadFails, setFails), delay)
         == if hit || loadFails || setFails then s else Filled(s, s.table)
  {
    var end := if setFails then FillFails(0) else Fill(0);
    if hit {
      RunCons(s, Hit, [], delay);
    } else if loadFails {
      RunCons(s, LoadFails, [], delay);
    } else {
      var s1 := Apply(s, Load(0), delay);
      assert s1.pending - {0} == map[];
      RunCons(s1, end, [], delay);
      RunCons(s, Load(0), [end], delay);
    }
  }

  /** One override layer: its table and its cache entry. */
  class OverrideLayer {
    var now: nat
    var table: Layer
    var cache: Option<Cached>

    ghost function Snapshot(): State
      reads this
    {
      State(now, table, cache, map[], map[], [], [])
    }

    constructor (table: Layer)
      ensures Snapshot() == Init(table)
    {
      this.now, this.table, this.cache := 0, table, None;
    }

    /** The layer is as the machine has it in `s`. */
    ghost predicate Shows(s: State)
      reads this
    {
      now == s.now && table == s.table && cache == s.cache
    }

    /** `_tenant_overrides` and `_global_overrides`: each of the three accesses may fail, none of the failures
        escapes, and a failed load is never cached. */
    method Overrides(f: Failures) returns (layer: Layer)
      modifies this`cache
      ensures
        var hit := !f.getFails && Live(old(Snapshot()));
        && IsRun(old(Snapshot()), ReadSteps(hit, f.loadFails, f.setFails), 0)
        && Snapshot() == After(old(Snapshot()), ReadSteps(hit, f.loadFails, f.setFails), 0)
      ensures layer == old(Offered(this, f))
      ensures old(Quiet(Snapshot())) ==> Quiet(Snapshot())
    {
      SequentialRead(Snapshot(), !f.getFails && Live(Snapshot()), f.loadFails, f.setFails, 0);
      if !f.getFails && cache.Some? && now < cache.value.expiry {
        return cache.value.value;
      }
      if f.loadFails {
        return map[];
      }
      layer := table;
      if !f.setFails {
        cache := Some(Cached(layer, now + TTL));
      }
    }

    /** `invalidate`, called by writer `w` of the machine: the step it is for the machine. Afterwards nothing
        stale is served unless the delete failed and something stale was there. */
    method Invalidate(ghost s: State, ghost w: nat, deleteFails: bool)
      requires Shows(s) && In(s, w, Writing)
      modifies this`cache
      ensures
        var step := if deleteFails then InvalidateFails(w) else Step.Invalidate(w);
        Enabled(s, step, 0) && Shows(Apply(s, step, 0))
      ensures Quiet(Snapshot()) <==> !deleteFails || old(Quiet(Snapshot()))
    {
      if !deleteFails {
        cache := None;
      }
    }
  }

  /** Which of a loader's three accesses fail. */
  datatype Failures = Failures(getFails: bool, loadFails: bool, setFails: bool)

  /** What a loader yields: the live entry if it can be read, else the table, or nothing if that fails too. */
  ghost function Offered(layer: OverrideLayer, f: Failures): Layer
    reads layer
  {
    var hit := Returned(layer.Snapshot(), Hit);
    if !f.getFails && hit.Some? then hit.value else if f.loadFails then map[] else layer.table
  }

  /** A `resolve_rate` call over the two loaders never raises, whatever fails and whatever the caches hold: it is
      the resolution on what the loaders yield. Quiet caches stay quiet, and over them, with no failing load, it
      is the resolution on the tables themselves. */
  method Rate(
    tenant: OverrideLayer?, global: OverrideLayer, scope: string, default: Option<string>, ft: Failures, fg: Failures)
    returns (rate: Option<string>)
    requires tenant != global
    modifies global`cache, (if tenant == null then {} else {tenant})`cache
    ensures rate
         == ResolveRate(
              if tenant == null then None else Some(old(Offered(tenant, ft))), old(Offered(global, fg)), scope, default)
    ensures old(Quiet(global.Snapshot())) ==> Quiet(global.Snapshot())
    ensures tenant != null && old(Quiet(tenant.Snapshot())) ==> Quiet(tenant.Snapshot())
    ensures
      && !ft.loadFails && !fg.loadFails && old(Quiet(global.Snapshot()))
      && (tenant != null ==> old(Quiet(tenant.Snapshot()))) ==>
        rate == ResolveRate(if tenant == null then None else Some(tenant.table), global.table, scope, default)
  {
    if tenant != null {
      var overrides := tenant.Overrides(ft);
      if Lookup(overrides, scope).Some? {
        return OrNone(Lookup(overrides, scope));
      }
    }
    var overrides := global.Overrides(fg);
    return OrNone(if Lookup(overrides, scope).Some? then Lookup(overrides, scope) else default);
  }
}
