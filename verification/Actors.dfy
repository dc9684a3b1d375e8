/** `get_or_create_external` and `get_or_create_for_user`: lookup, insert, and lookup again on conflict, by any
    number of transactions under READ COMMITTED with two partial unique indexes. */
module Actors {
  import opened Text

  /** An actor. An external name comes with its two lower-casings: the one the database computes for its index
      (`indexed`) and the one Python computes for the lookup (`asked`). */
  datatype Row = External(name: string, indexed: string, asked: string) | Internal(user: nat, name: string)

  /** An external actor's lower-cased name, or a user. */
  datatype Key = ByName(lower: string) | ByUser(user: nat)

  /** What the unique indexes hold of a row. */
  function IndexKey(row: Row): Key {
    match row
    case External(_, indexed, _) => ByName(indexed)
    case Internal(user, _) => ByUser(user)
  }

  /** What the lookup for a row compares the index with. */
  function LookupKey(row: Row): Key {
    match row
    case External(_, _, asked) => ByName(asked)
    case Internal(user, _) => ByUser(user)
  }

  /** The two lower-casings agree; they do on ASCII names, and there is only one key for a user. */
  predicate Agrees(row: Row) {
    IndexKey(row) == LookupKey(row)
  }

  /** A stored row; `owner` is the transaction that inserted it, until that commits. */
  datatype Entry = Entry(row: Row, owner: Option<nat>)

  /** Where a call stands. `wanted` is the row it would create. */
  datatype Phase = Idle | Missed(wanted: Row) | Conflicted(wanted: Row)

  /** A call for `call` returned row `id`. */
  datatype Answer = Answer(call: Row, id: nat)

  datatype Transaction = Transaction(phase: Phase, answers: seq<Answer>)

  /** `settled` collects the answers of committed transactions. */
  datatype State = State(rows: map<nat, Entry>, next: nat, open: map<nat, Transaction>, settled: seq<Answer>)

  datatype Step =
    | Open(t: nat)
    | Find(t: nat, call: Row, found: Option<nat>)
    | Insert(t: nat)
    | FindAgain(t: nat, found: Option<nat>)
    | Commit(t: nat)
    | RollBack(t: nat)

  function Init(): State {
    State(map[], 0, map[], [])
  }

  predicate Matches(s: State, id: nat, key: Key) {
    id in s.rows && IndexKey(s.rows[id].row) == key
  }

  /** The row is committed. */
  predicate Stored(s: State, id: nat) {
    id in s.rows && s.rows[id].owner == None
  }

  /** READ COMMITTED: a transaction sees committed rows and its own. */
  predicate Sees(s: State, t: nat, id: nat) {
    id in s.rows && (s.rows[id].owner == None || s.rows[id].owner == Some(t))
  }

  /** A visible row with this key exists. */
  predicate Taken(s: State, t: nat, key: Key) {
    exists id :: id in s.rows && Matches(s, id, key) && Sees(s, t, id)
  }

  /** Inserting waits while another transaction holds an uncommitted row with the same key. */
  predicate Blocked(s: State, t: nat, key: Key) {
    exists id :: id in s.rows && Matches(s, id, key) && !Sees(s, t, id)
  }

  /** What a lookup by key may return: some visible match, or nothing if there is none. */
  predicate Finds(s: State, t: nat, key: Key, found: Option<nat>) {
    if found.Some? then Matches(s, found.value, key) && Sees(s, t, found.value) else !Taken(s, t, key)
  }

  predicate Enabled(s: State, step: Step) {
    match step
    case Open(t) => t !in s.open
    case Find(t, call, found) =>
      t in s.open && s.open[t].phase.Idle? && Finds(s, t, LookupKey(call), found)
    case Insert(t) =>
      t in s.open && s.open[t].phase.Missed? && !Blocked(s, t, IndexKey(s.open[t].phase.wanted))
    case FindAgain(t, found) =>
      t in s.open && s.open[t].phase.Conflicted? && Finds(s, t, LookupKey(s.open[t].phase.wanted), found)
    case Commit(t) => t in s.open && s.open[t].phase.Idle?
    case RollBack(t) => t in s.open
  }

  function Answered(s: State, t: nat, call: Row, id: nat): State
    requires t in s.open
  {
    s.(open := s.open[t := Transaction(Idle, s.open[t].answers + [Answer(call, id)])])
  }

  function InPhase(s: State, t: nat, p: Phase): State
    requires t in s.open
  {
    s.(open := s.open[t := s.open[t].(phase := p)])
  }

  function Publish(rows: map<nat, Entry>, t: nat): map<nat, Entry> {
    map id | id in rows :: if rows[id].owner == Some(t) then rows[id].(owner := None) else rows[id]
  }

  function Discard(rows: map<nat, Entry>, t: nat): map<nat, Entry> {
    map id | id in rows && rows[id].owner != Some(t) :: rows[id]
  }

  /** The failed second lookup re-raises; that ends the call without an answer. */
  function Apply(s: State, step: Step): State
    requires Enabled(s, step)
  {
    match step
    case Open(t) => s.(open := s.open[t := Transaction(Idle, [])])
    case Find(t, call, found) =>
      if found.Some? then Answered(s, t, call, found.value) else InPhase(s, t, Missed(call))
    case Insert(t) =>
      var call := s.open[t].phase.wanted;
      if Taken(s, t, IndexKey(call)) then InPhase(s, t, Conflicted(call))
      else
        Answered(s, t, call, s.next).(rows := s.rows[s.next := Entry(call, Some(t))], next := s.next + 1)
    case FindAgain(t, found) =>
      if found.Some? then Answered(s, t, s.open[t].phase.wanted, found.value) else InPhase(s, t, Idle)
    case Commit(t) =>
      s.(rows := Publish(s.rows, t), open := s.open - {t}, settled := s.settled + s.open[t].answers)
    case RollBack(t) => s.(rows := Discard(s.rows, t), open := s.open - {t})
  }

  ghost predicate IsRun(s: State, steps: seq<Step>)
    decreases steps
  {
    steps == [] || (Enabled(s, steps[0]) && IsRun(Apply(s, steps[0]), steps[1..]))
  }

  ghost function After(s: State, steps: seq<Step>): State
    requires IsRun(s, steps)
    decreases steps
  {
    if steps == [] then s else After(Apply(s, steps[0]), steps[1..])
  }

  // ---------- what every step keeps ----------

  /** No two stored rows, committed or not, share a key. */
  ghost predicate Unique(s: State) {
    forall i, j :: i in s.rows && j in s.rows && IndexKey(s.rows[i].row) == IndexKey(s.rows[j].row) ==> i == j
  }

  ghost predicate Owned(s: State) {
    forall i :: i in s.rows ==> i < s.next && (s.rows[i].owner.Some? ==> s.rows[i].owner.value in s.open)
  }

  /** The row of an answer is the one that was asked for, or the one the call inserted. */
  ghost predicate Answers(s: State, a: Answer) {
    Matches(s, a.id, LookupKey(a.call)) || Matches(s, a.id, IndexKey(a.call))
  }

  ghost predicate Backed(s: State, t: nat, a: Answer) {
    Answers(s, a) && Sees(s, t, a.id)
  }

  ghost predicate OpenSound(s: State, t: nat)
    requires t in s.open
  {
    && (forall k :: 0 <= k < |s.open[t].answers| ==> Backed(s, t, s.open[t].answers[k]))
    && (s.open[t].phase.Conflicted? ==> Taken(s, t, IndexKey(s.open[t].phase.wanted)))
  }

  ghost predicate SettledSound(s: State) {
    forall k :: 0 <= k < |s.settled| ==> Answers(s, s.settled[k]) && Stored(s, s.settled[k].id)
  }

  ghost predicate Inv(s: State) {
    Unique(s) && Owned(s) && SettledSound(s) && forall t :: t in s.open ==> OpenSound(s, t)
  }

  /** Neither a visible nor a hidden row has the key: nobody has it. */
  lemma {:induction false} NobodyHas(s: State, t: nat, key: Key)
    requires !Taken(s, t, key) && !Blocked(s, t, key)
    ensures forall i :: i in s.rows ==> IndexKey(s.rows[i].row) != key
  {
    forall i | i in s.rows
      ensures IndexKey(s.rows[i].row) != key
    {
      assert Matches(s, i, key) ==> Sees(s, t, i) || !Sees(s, t, i);
    }
  }

  lemma {:induction false} EndsKeepUnique(s: State, t: nat)
    requires Unique(s) && Owned(s) && t in s.open
    ensures
      var s' := s.(rows := Publish(s.rows, t), open := s.open - {t});
      Unique(s') && Owned(s')
    ensures
      var s' := s.(rows := Discard(s.rows, t), open := s.open - {t});
      Unique(s') && Owned(s')
  {
  }

  lemma {:induction false} UniqueKept(s: State, step: Step)
    requires Inv(s) && Enabled(s, step)
    ensures Unique(Apply(s, step)) && Owned(Apply(s, step))
  {
    if step.Commit? || step.RollBack? {
      EndsKeepUnique(s, step.t);
    } else if step.Insert? && !Taken(s, step.t, IndexKey(s.open[step.t].phase.wanted)) {
      NobodyHas(s, step.t, IndexKey(s.open[step.t].phase.wanted));
    }
  }

  /** Rows a transaction sees stay visible to it, and committed rows stay committed. */
  lemma {:induction false} SeenKept(s: State, step: Step, t: nat, id: nat, key: Key)
    requires Inv(s) && Enabled(s, step) && Matches(s, id, key)
    ensures Sees(s, t, id) && t in Apply(s, step).open ==>
              Matches(Apply(s, step), id, key) && Sees(Apply(s, step), t, id)
    ensures Stored(s, id) ==> Matches(Apply(s, step), id, key) && Stored(Apply(s, step), id)
  {
  }

  lemma {:induction false} OpenKept(s: State, step: Step, t: nat)
    requires Inv(s) && Enabled(s, step) && t in Apply(s, step).open
    ensures OpenSound(Apply(s, step), t)
  {
    var s' := Apply(s, step);
    if t in s.open {
      AnswersKept(s, step, t);
      if s.open[t].phase.Conflicted? {
        var key := IndexKey(s.open[t].phase.wanted);
        var id :| id in s.rows && Matches(s, id, key) && Sees(s, t, id);
        SeenKept(s, step, t, id, key);
      }
      if step.Insert? && step.t == t && s'.open[t].phase.Conflicted? {
        var key := IndexKey(s.open[t].phase.wanted);
        var id :| id in s.rows && Matches(s, id, key) && Sees(s, t, id);
        SeenKept(s, step, t, id, key);
      }
    }
  }

  lemma {:induction false} BackedKept(s: State, step: Step, t: nat, a: Answer)
    requires Inv(s) && Enabled(s, step) && Backed(s, t, a) && t in Apply(s, step).open
    ensures Backed(Apply(s, step), t, a)
  {
    SeenKept(s, step, t, a.id, IndexKey(s.rows[a.id].row));
  }

  lemma {:induction false} AnswersKept(s: State, step: Step, t: nat)
    requires Inv(s) && Enabled(s, step) && t in s.open && t in Apply(s, step).open
    ensures
      var answers := Apply(s, step).open[t].answers;
      forall k :: 0 <= k < |answers| ==> Backed(Apply(s, step), t, answers[k])
  {
    var s' := Apply(s, step);
    var answers := s'.open[t].answers;
    forall k | 0 <= k < |answers|
      ensures Backed(s', t, answers[k])
    {
      if k < |s.open[t].answers| {
        BackedKept(s, step, t, s.open[t].answers[k]);
      }
    }
  }

  lemma {:induction false} SettledKept(s: State, step: Step)
    requires Inv(s) && Enabled(s, step)
    ensures SettledSound(Apply(s, step))
  {
    var s' := Apply(s, step);
    forall k | 0 <= k < |s'.settled|
      ensures Answers(s', s'.settled[k]) && Stored(s', s'.settled[k].id)
    {
      if k < |s.settled| {
        SeenKept(s, step, 0, s.settled[k].id, IndexKey(s.rows[s.settled[k].id].row));
      } else {
        assert Backed(s, step.t, s.open[step.t].answers[k - |s.settled|]);
      }
    }
  }

  lemma {:induction false} StepKeeps(s: State, step: Step)
    requires Inv(s) && Enabled(s, step)
    ensures Inv(Apply(s, step))
  {
    UniqueKept(s, step);
    SettledKept(s, step);
    forall t | t in Apply(s, step).open
      ensures OpenSound(Apply(s, step), t)
    {
      OpenKept(s, step, t);
    }
  }

  lemma {:induction false} RunKeeps(s: State, steps: seq<Step>)
    requires Inv(s) && IsRun(s, steps)
    ensures Inv(After(s, steps))
    decreases steps
  {
    if steps != [] {
      StepKeeps(s, steps[0]);
      RunKeeps(Apply(s, steps[0]), steps[1..]);
    }
  }

  // ---------- over every interleaving ----------

  /** At most one committed actor per key, whoever raced and whoever rolled back. */
  lemma {:induction false} OneActorPerKey(steps: seq<Step>, i: nat, j: nat)
    requires IsRun(Init(), steps)
    requires
      var s := After(Init(), steps);
      Stored(s, i) && Stored(s, j) && IndexKey(s.rows[i].row) == IndexKey(s.rows[j].row)
    ensures i == j
  {
    RunKeeps(Init(), steps);
  }

  lemma {:induction false} CommittedForGood(s: State, steps: seq<Step>, id: nat)
    requires Inv(s) && IsRun(s, steps) && Stored(s, id)
    ensures Stored(After(s, steps), id) && After(s, steps).rows[id].row == s.rows[id].row
    decreases steps
  {
    if steps != [] {
      SeenKept(s, steps[0], 0, id, IndexKey(s.rows[id].row));
      StepKeeps(s, steps[0]);
      CommittedForGood(Apply(s, steps[0]), steps[1..], id);
    }
  }

  // ---------- where the two lower-casings come in ----------

  /** The run asks for actors of `calls` only. */
  ghost predicate Within(steps: seq<Step>, calls: iset<Row>) {
    forall i :: 0 <= i < |steps| && steps[i].Find? ==> steps[i].call in calls
  }

  /** So what is stored, wanted and answered is among `calls`. */
  ghost predicate Known(s: State, calls: iset<Row>) {
    && (forall i :: i in s.rows ==> s.rows[i].row in calls)
    && (forall t :: t in s.open && !s.open[t].phase.Idle? ==> s.open[t].phase.wanted in calls)
  }

  lemma {:induction false} KnownStep(s: State, step: Step, calls: iset<Row>)
    requires Known(s, calls) && Enabled(s, step) && (step.Find? ==> step.call in calls)
    ensures Known(Apply(s, step), calls)
  {
  }

  lemma {:induction false} KnownRun(s: State, steps: seq<Step>, calls: iset<Row>)
    requires Known(s, calls) && IsRun(s, steps) && Within(steps, calls)
    ensures Known(After(s, steps), calls)
    decreases steps
  {
    if steps != [] {
      assert steps[0].Find? ==> steps[0].call in calls;
      KnownStep(s, steps[0], calls);
      KnownRun(Apply(s, steps[0]), steps[1..], calls);
    }
  }

  lemma {:induction false} RunCons(s: State, step: Step, rest: seq<Step>)
    requires Enabled(s, step) && IsRun(Apply(s, step), rest)
    ensures IsRun(s, [step] + rest) && After(s, [step] + rest) == After(Apply(s, step), rest)
  {
    assert ([step] + rest)[1..] == rest;
  }

  /** A run for these actors leads from one state to the other. */
  ghost predicate Leads(s: State, steps: seq<Step>, s': State, calls: iset<Row>) {
    IsRun(s, steps) && After(s, steps) == s' && Within(steps, calls)
  }

  lemma {:induction false} WithinOn(step: Step, rest: seq<Step>, calls: iset<Row>)
    requires (step.Find? ==> step.call in calls) && Within(rest, calls)
    ensures Within([step] + rest, calls)
  {
  }

  lemma {:induction false} LeadsOn(s: State, step: Step, next: State, rest: seq<Step>, end: State, calls: iset<Row>)
    requires Enabled(s, step) && Apply(s, step) == next && (step.Find? ==> step.call in calls)
    requires Leads(next, rest, end, calls)
    ensures Leads(s, [step] + rest, end, calls)
  {
    RunCons(s, step, rest);
    WithinOn(step, rest, calls);
  }

  // The re-raise after the failed second lookup.

  /** Some run for these actors comes to an empty second lookup. */
  ghost predicate ReRaises(calls: iset<Row>) {
    exists steps, t :: IsRun(Init(), steps) && Within(steps, calls) && Enabled(After(Init(), steps), FindAgain(t, None))
  }

  /** When the lower-casings agree on everything that is asked for, the lookup after a conflict never comes back
      empty, whoever races and whoever rolls back. */
  lemma {:induction false} ReRaiseUnreachable(calls: iset<Row>, steps: seq<Step>, t: nat)
    requires IsRun(Init(), steps) && Within(steps, calls) && forall c :: c in calls ==> Agrees(c)
    ensures !Enabled(After(Init(), steps), FindAgain(t, None))
  {
    RunKeeps(Init(), steps);
    KnownRun(Init(), steps, calls);
    var s := After(Init(), steps);
    if t in s.open && s.open[t].phase.Conflicted? {
      assert OpenSound(s, t) && Agrees(s.open[t].phase.wanted);
    }
  }

  /** One transaction has inserted `call` and asks for it again, in vain. */
  ghost function AskedAgain(call: Row, phase: Phase): State {
    State(map[0 := Entry(call, Some(0))], 1, map[0 := Transaction(phase, [Answer(call, 0)])], [])
  }

  lemma {:induction false} SecondAskFails(call: Row)
    requires !Agrees(call)
    ensures
      var s := AskedAgain(call, Idle);
      && Enabled(s, Find(0, call, None)) && Apply(s, Find(0, call, None)) == AskedAgain(call, Missed(call))
      && Enabled(AskedAgain(call, Missed(call)), Insert(0))
      && Apply(AskedAgain(call, Missed(call)), Insert(0)) == AskedAgain(call, Conflicted(call))
      && Enabled(AskedAgain(call, Conflicted(call)), FindAgain(0, None))
  {
    var m := AskedAgain(call, Missed(call));
    assert Matches(m, 0, IndexKey(call)) && Sees(m, 0, 0);
    assert Taken(m, 0, IndexKey(call));
  }

  lemma {:induction false} FirstAskInserts(call: Row)
    ensures
      var s1 := State(map[], 0, map[0 := Transaction(Idle, [])], []);
      var s2 := State(map[], 0, map[0 := Transaction(Missed(call), [])], []);
      && Enabled(Init(), Open(0)) && Apply(Init(), Open(0)) == s1
      && Enabled(s1, Find(0, call, None)) && Apply(s1, Find(0, call, None)) == s2
      && Enabled(s2, Insert(0)) && Apply(s2, Insert(0)) == AskedAgain(call, Idle)
  {
    assert [] + [Answer(call, 0)] == [Answer(call, 0)];
  }

  lemma {:induction false} SecondAsk(call: Row, calls: iset<Row>) returns (steps: seq<Step>)
    requires !Agrees(call) && call in calls
    ensures Leads(AskedAgain(call, Idle), steps, AskedAgain(call, Conflicted(call)), calls)
  {
    SecondAskFails(call);
    var end := AskedAgain(call, Conflicted(call));
    LeadsOn(AskedAgain(call, Missed(call)), Insert(0), end, [], end, calls);
    LeadsOn(AskedAgain(call, Idle), Find(0, call, None), AskedAgain(call, Missed(call)), [Insert(0)] + [], end, calls);
    steps := [Find(0, call, None)] + ([Insert(0)] + []);
  }

  /** A name whose lower-casings differ raises on the second call, without any race. */
  lemma {:induction false} DifferingNameRaises(call: Row, calls: iset<Row>) returns (steps: seq<Step>)
    requires !Agrees(call) && call in calls
    ensures Leads(Init(), steps, AskedAgain(call, Conflicted(call)), calls)
  {
    var end := AskedAgain(call, Conflicted(call));
    var s1 := State(map[], 0, map[0 := Transaction(Idle, [])], []);
    var s2 := State(map[], 0, map[0 := Transaction(Missed(call), [])], []);
    FirstAskInserts(call);
    var again := SecondAsk(call, calls);
    LeadsOn(s2, Insert(0), AskedAgain(call, Idle), again, end, calls);
    LeadsOn(s1, Find(0, call, None), s2, [Insert(0)] + again, end, calls);
    LeadsOn(Init(), Open(0), s1, [Find(0, call, None)] + ([Insert(0)] + again), end, calls);
    steps := [Open(0)] + ([Find(0, call, None)] + ([Insert(0)] + again));
  }

  /** The re-raise can be reached exactly when the two lower-casings differ on some name that is asked for. */
  lemma {:induction false} ReRaiseExactly(calls: iset<Row>)
    ensures ReRaises(calls) <==> exists c :: c in calls && !Agrees(c)
  {
    if c :| c in calls && !Agrees(c) {
      var steps := DifferingNameRaises(c, calls);
      SecondAskFails(c);
      assert Enabled(After(Init(), steps), FindAgain(0, None));
    } else if ReRaises(calls) {
      var steps, t: nat :|
        IsRun(Init(), steps) && Within(steps, calls) && Enabled(After(Init(), steps), FindAgain(t, None));
      ReRaiseUnreachable(calls, steps, t);
    }
  }

  // Whether all committed callers get the same row.

  /** One name is looked up under what another, different one is stored under. */
  ghost predicate Crossed(calls: iset<Row>) {
    exists x, z :: x in calls && z in calls && LookupKey(x) == IndexKey(z) != IndexKey(x)
  }

  /** Every answer is a row stored under the index key of what was asked for. */
  ghost predicate Direct(s: State) {
    && (forall k :: 0 <= k < |s.settled| ==> Matches(s, s.settled[k].id, IndexKey(s.settled[k].call)))
    && (forall t :: t in s.open ==> DirectIn(s, t))
  }

  ghost predicate DirectIn(s: State, t: nat)
    requires t in s.open
  {
    var answers := s.open[t].answers;
    forall k :: 0 <= k < |answers| ==> Matches(s, answers[k].id, IndexKey(answers[k].call))
  }

  /** Without crossing names, what a lookup finds is stored under the index key of what was asked for. */
  lemma {:induction false} FoundDirect(s: State, calls: iset<Row>, call: Row, id: nat)
    requires Known(s, calls) && !Crossed(calls) && call in calls && Matches(s, id, LookupKey(call))
    ensures Matches(s, id, IndexKey(call))
  {
    assert s.rows[id].row in calls;
  }

  lemma {:induction false} DirectInKept(s: State, step: Step, calls: iset<Row>, t: nat)
    requires Inv(s) && Known(s, calls) && !Crossed(calls) && Direct(s)
    requires Enabled(s, step) && (step.Find? ==> step.call in calls) && t in Apply(s, step).open
    ensures DirectIn(Apply(s, step), t)
  {
    var s' := Apply(s, step);
    if t in s.open {
      assert DirectIn(s, t) && OpenSound(s, t);
      var before, answers := s.open[t].answers, s'.open[t].answers;
      forall k | 0 <= k < |answers|
        ensures Matches(s', answers[k].id, IndexKey(answers[k].call))
      {
        if k < |before| {
          assert answers[k] == before[k] && Backed(s, t, before[k]);
          SeenKept(s, step, t, before[k].id, IndexKey(before[k].call));
        } else if step.Find? {
          FoundDirect(s, calls, step.call, step.found.value);
        } else if step.FindAgain? {
          FoundDirect(s, calls, s.open[t].phase.wanted, step.found.value);
        }
      }
    }
  }

  lemma {:induction false} DirectSettledKept(s: State, step: Step, k: nat)
    requires Inv(s) && Direct(s) && Enabled(s, step) && k < |Apply(s, step).settled|
    ensures
      var s' := Apply(s, step);
      Matches(s', s'.settled[k].id, IndexKey(s'.settled[k].call))
  {
    if k < |s.settled| {
      SeenKept(s, step, 0, s.settled[k].id, IndexKey(s.settled[k].call));
    } else {
      var a := s.open[step.t].answers[k - |s.settled|];
      assert DirectIn(s, step.t) && OpenSound(s, step.t) && Backed(s, step.t, a);
    }
  }

  lemma {:induction false} DirectStep(s: State, step: Step, calls: iset<Row>)
    requires Inv(s) && Known(s, calls) && !Crossed(calls) && Direct(s)
    requires Enabled(s, step) && (step.Find? ==> step.call in calls)
    ensures Direct(Apply(s, step))
  {
    var s' := Apply(s, step);
    forall k | 0 <= k < |s'.settled|
      ensures Matches(s', s'.settled[k].id, IndexKey(s'.settled[k].call))
    {
      DirectSettledKept(s, step, k);
    }
    forall t | t in s'.open
      ensures DirectIn(s', t)
    {
      DirectInKept(s, step, calls, t);
    }
  }

  lemma {:induction false} DirectRun(s: State, steps: seq<Step>, calls: iset<Row>)
    requires Inv(s) && Known(s, calls) && !Crossed(calls) && Direct(s) && IsRun(s, steps) && Within(steps, calls)
    ensures Direct(After(s, steps))
    decreases steps
  {
    if steps != [] {
      assert steps[0].Find? ==> steps[0].call in calls;
      StepKeeps(s, steps[0]);
      KnownStep(s, steps[0], calls);
      DirectStep(s, steps[0], calls);
      DirectRun(Apply(s, steps[0]), steps[1..], calls);
    }
  }

  /** Two committed callers whose names share an index key got the same row. */
  ghost predicate SameRow(s: State) {
    forall j, k :: 0 <= j < |s.settled| && 0 <= k < |s.settled|
                   && IndexKey(s.settled[j].call) == IndexKey(s.settled[k].call) ==>
      s.settled[j].id == s.settled[k].id
  }

  ghost predicate AllCallersAgree(calls: iset<Row>) {
    forall steps :: IsRun(Init(), steps) && Within(steps, calls) ==> SameRow(After(Init(), steps))
  }

  /** In every interleaving without crossing names all committed callers of one actor got the same row, and it
      is there. */
  lemma {:induction false} CommittedCallersAgree(calls: iset<Row>, steps: seq<Step>)
    requires IsRun(Init(), steps) && Within(steps, calls) && !Crossed(calls)
    ensures SameRow(After(Init(), steps)) && SettledSound(After(Init(), steps))
  {
    RunKeeps(Init(), steps);
    DirectRun(Init(), steps, calls);
  }

  // A run in which `x`, looked up under what `z` is stored under, gets two rows.

  /** Transaction 1 has missed `z`; transaction 0 stands at `phase`. */
  ghost function Racing(z: Row, phase: Phase): State {
    State(map[], 0, map[1 := Transaction(Missed(z), []), 0 := Transaction(phase, [])], [])
  }

  ghost function FirstInserted(x: Row, z: Row): State {
    State(map[0 := Entry(x, Some(0))], 1,
          map[1 := Transaction(Missed(z), []), 0 := Transaction(Idle, [Answer(x, 0)])], [])
  }

  ghost function FirstStored(x: Row, z: Row): State {
    State(map[0 := Entry(x, None)], 1, map[1 := Transaction(Missed(z), [])], [Answer(x, 0)])
  }

  ghost function SecondInserted(x: Row, z: Row, answers: seq<Answer>): State {
    State(map[0 := Entry(x, None), 1 := Entry(z, Some(1))], 2, map[1 := Transaction(Idle, answers)], [Answer(x, 0)])
  }

  ghost function BothStored(x: Row, z: Row): State {
    State(map[0 := Entry(x, None), 1 := Entry(z, None)], 2, map[], [Answer(x, 0), Answer(z, 1), Answer(x, 1)])
  }

  lemma {:induction false} RaceOpens(x: Row, z: Row)
    ensures
      var s1 := State(map[], 0, map[1 := Transaction(Idle, [])], []);
      var s2 := State(map[], 0, map[1 := Transaction(Missed(z), [])], []);
      && Enabled(Init(), Open(1)) && Apply(Init(), Open(1)) == s1
      && Enabled(s1, Find(1, z, None)) && Apply(s1, Find(1, z, None)) == s2
      && Enabled(s2, Open(0)) && Apply(s2, Open(0)) == Racing(z, Idle)
      && Enabled(Racing(z, Idle), Find(0, x, None))
      && Apply(Racing(z, Idle), Find(0, x, None)) == Racing(z, Missed(x))
  {
  }

  lemma {:induction false} FirstInserts(x: Row, z: Row)
    ensures Enabled(Racing(z, Missed(x)), Insert(0))
    ensures Apply(Racing(z, Missed(x)), Insert(0)) == FirstInserted(x, z)
  {
    assert [] + [Answer(x, 0)] == [Answer(x, 0)];
  }

  lemma {:induction false} FirstCommits(x: Row, z: Row)
    ensures Enabled(FirstInserted(x, z), Commit(0))
    ensures Apply(FirstInserted(x, z), Commit(0)) == FirstStored(x, z)
  {
    assert [] + [Answer(x, 0)] == [Answer(x, 0)];
    assert FirstInserted(x, z).open - {0} == map[1 := Transaction(Missed(z), [])];
  }

  lemma {:induction false} SecondInserts(x: Row, z: Row)
    requires IndexKey(z) != IndexKey(x)
    ensures Enabled(FirstStored(x, z), Insert(1))
    ensures Apply(FirstStored(x, z), Insert(1)) == SecondInserted(x, z, [Answer(z, 1)])
  {
    assert [] + [Answer(z, 1)] == [Answer(z, 1)];
  }

  lemma {:induction false} SecondFinds(x: Row, z: Row)
    requires LookupKey(x) == IndexKey(z)
    ensures Enabled(SecondInserted(x, z, [Answer(z, 1)]), Find(1, x, Some(1)))
    ensures Apply(SecondInserted(x, z, [Answer(z, 1)]), Find(1, x, Some(1)))
         == SecondInserted(x, z, [Answer(z, 1), Answer(x, 1)])
  {
    assert [Answer(z, 1)] + [Answer(x, 1)] == [Answer(z, 1), Answer(x, 1)];
  }

  lemma {:induction false} SecondCommits(x: Row, z: Row)
    ensures Enabled(SecondInserted(x, z, [Answer(z, 1), Answer(x, 1)]), Commit(1))
    ensures Apply(SecondInserted(x, z, [Answer(z, 1), Answer(x, 1)]), Commit(1)) == BothStored(x, z)
  {
    assert [Answer(x, 0)] + [Answer(z, 1), Answer(x, 1)] == [Answer(x, 0), Answer(z, 1), Answer(x, 1)];
    assert SecondInserted(x, z, [Answer(z, 1), Answer(x, 1)]).open - {1} == map[];
  }

  lemma {:induction false} SecondHalf(x: Row, z: Row, calls: iset<Row>) returns (steps: seq<Step>)
    requires LookupKey(x) == IndexKey(z) != IndexKey(x) && x in calls
    ensures Leads(FirstStored(x, z), steps, BothStored(x, z), calls)
  {
    SecondInserts(x, z);
    SecondFinds(x, z);
    SecondCommits(x, z);
    var end := BothStored(x, z);
    var s7, s8 := SecondInserted(x, z, [Answer(z, 1)]), SecondInserted(x, z, [Answer(z, 1), Answer(x, 1)]);
    LeadsOn(s8, Commit(1), end, [], end, calls);
    LeadsOn(s7, Find(1, x, Some(1)), s8, [Commit(1)] + [], end, calls);
    LeadsOn(FirstStored(x, z), Insert(1), s7, [Find(1, x, Some(1))] + ([Commit(1)] + []), end, calls);
    steps := [Insert(1)] + ([Find(1, x, Some(1))] + ([Commit(1)] + []));
  }

  lemma {:induction false} FirstHalf(x: Row, z: Row, rest: seq<Step>, end: State, calls: iset<Row>)
    returns (steps: seq<Step>)
    requires Leads(FirstStored(x, z), rest, end, calls) && x in calls
    ensures Leads(Racing(z, Idle), steps, end, calls)
  {
    RaceOpens(x, z);
    FirstInserts(x, z);
    FirstCommits(x, z);
    LeadsOn(FirstInserted(x, z), Commit(0), FirstStored(x, z), rest, end, calls);
    LeadsOn(Racing(z, Missed(x)), Insert(0), FirstInserted(x, z), [Commit(0)] + rest, end, calls);
    LeadsOn(Racing(z, Idle), Find(0, x, None), Racing(z, Missed(x)), [Insert(0)] + ([Commit(0)] + rest), end, calls);
    steps := [Find(0, x, None)] + ([Insert(0)] + ([Commit(0)] + rest));
  }

  lemma {:induction false} CrossingRun(x: Row, z: Row, calls: iset<Row>) returns (steps: seq<Step>)
    requires LookupKey(x) == IndexKey(z) != IndexKey(x) && x in calls && z in calls
    ensures Leads(Init(), steps, BothStored(x, z), calls)
  {
    var end := BothStored(x, z);
    var s1 := State(map[], 0, map[1 := Transaction(Idle, [])], []);
    var s2 := State(map[], 0, map[1 := Transaction(Missed(z), [])], []);
    var second := SecondHalf(x, z, calls);
    var first := FirstHalf(x, z, second, end, calls);
    RaceOpens(x, z);
    LeadsOn(s2, Open(0), Racing(z, Idle), first, end, calls);
    LeadsOn(s1, Find(1, z, None), s2, [Open(0)] + first, end, calls);
    LeadsOn(Init(), Open(1), s1, [Find(1, z, None)] + ([Open(0)] + first), end, calls);
    steps := [Open(1)] + ([Find(1, z, None)] + ([Open(0)] + first));
  }

  lemma {:induction false} TwoRows(x: Row, z: Row)
    ensures !SameRow(BothStored(x, z))
  {
    var settled := BothStored(x, z).settled;
    assert settled[0] == Answer(x, 0) && settled[2] == Answer(x, 1);
  }

  /** All committed callers of one actor get the same row in every run exactly when no two of the names cross. */
  lemma {:induction false} CallersAgreeExactly(calls: iset<Row>)
    ensures AllCallersAgree(calls) <==> !Crossed(calls)
  {
    if Crossed(calls) {
      var x, z :| x in calls && z in calls && LookupKey(x) == IndexKey(z) != IndexKey(x);
      var steps := CrossingRun(x, z, calls);
      TwoRows(x, z);
    } else {
      forall steps | IsRun(Init(), steps) && Within(steps, calls)
        ensures SameRow(After(Init(), steps))
      {
        CommittedCallersAgree(calls, steps);
      }
    }
  }

  // ---------- one call among others ----------

  datatype Outcome = Returned(id: nat) | BlankName | UserNotFound | IntegrityError

  /** Stored rows keep what they say, and no row becomes transaction `t`'s. */
  ghost predicate Undisturbed(before: State, after: State, t: nat) {
    && before.next <= after.next
    && (forall id :: id in after.rows && id in before.rows ==>
      after.rows[id].row == before.rows[id].row
      && (after.rows[id].owner == Some(t) ==> before.rows[id].owner == Some(t)))
    && (forall id :: id in after.rows && id !in before.rows ==> before.next <= id && after.rows[id].owner != Some(t))
  }

  lemma {:induction false} OtherStepUndisturbed(s: State, step: Step, t: nat)
    requires Inv(s) && Enabled(s, step) && step.t != t
    ensures Undisturbed(s, Apply(s, step), t)
  {
  }

  lemma {:induction false} UndisturbedThrough(a: State, b: State, c: State, t: nat)
    requires Owned(a) && Undisturbed(a, b, t) && Undisturbed(b, c, t)
    ensures Undisturbed(a, c, t)
  {
  }

  /** What an inserting call stores is the row it wanted. */
  lemma {:induction false} InsertStores(s: State, t: nat)
    requires Inv(s) && Enabled(s, Insert(t))
    ensures
      var s' := Apply(s, Insert(t));
      if s'.open[t].phase.Idle?
      then s.next !in s.rows && s'.rows == s.rows[s.next := Entry(s.open[t].phase.wanted, Some(t))]
      else s'.rows == s.rows && s'.next == s.next
  {
  }

  class ActorTable {
    var s: State

    constructor ()
      ensures s == Init() && Inv(s)
    {
      s := Init();
    }

    /** Whatever other transactions do in the meantime; steps that are not possible are skipped. */
    method Meanwhile(t: nat, steps: seq<Step>)
      requires Inv(s) && t in s.open
      modifies this
      ensures Inv(s) && t in s.open && s.open[t] == old(s.open[t]) && Undisturbed(old(s), s, t)
    {
      for i := 0 to |steps|
        invariant Inv(s) && t in s.open && s.open[t] == old(s.open[t]) && Undisturbed(old(s), s, t)
      {
        if steps[i].t != t && Enabled(s, steps[i]) {
          StepKeeps(s, steps[i]);
          OtherStepUndisturbed(s, steps[i], t);
          UndisturbedThrough(old(s), s, Apply(s, steps[i]), t);
          s := Apply(s, steps[i]);
        }
      }
    }

    /** The insert waits for the transaction that holds an uncommitted row with this key to end. */
    method AwaitHolder(t: nat, key: Key, holderCommits: bool)
      requires Inv(s) && t in s.open
      modifies this
      ensures Inv(s) && t in s.open && s.open[t] == old(s.open[t]) && !Blocked(s, t, key)
      ensures Undisturbed(old(s), s, t)
    {
      if Blocked(s, t, key) {
        var id :| id in s.rows && Matches(s, id, key) && !Sees(s, t, id);
        var holder := s.rows[id].owner.value;
        var end := if holderCommits && s.open[holder].phase.Idle? then Commit(holder) else RollBack(holder);
        StepKeeps(s, end);
        OtherStepUndisturbed(s, end, t);
        s := Apply(s, end);
      }
    }

    /** Lookup, insert, lookup again, with other transactions running in between. The call answers with a row
        of its key, visible to it; a conflict escapes only when the two lower-casings differ. `known` is false
        for an unknown user. */
    method GetOrCreate(
      t: nat, wanted: Row, known: bool, before: seq<Step>, holderCommits: bool, after: seq<Step>)
      returns (r: Outcome)
      requires Inv(s) && t in s.open && s.open[t].phase.Idle?
      modifies this
      ensures Inv(s) && t in s.open && s.open[t].phase.Idle?
      ensures r.Returned? || r.UserNotFound? || r.IntegrityError?
      ensures r.Returned? ==>
        Backed(s, t, Answer(wanted, r.id)) && s.open[t].answers == old(s.open[t].answers) + [Answer(wanted, r.id)]
      ensures r.UserNotFound? ==> !known && s == old(s) && !Taken(s, t, LookupKey(wanted))
      ensures r.Returned? && !known ==> r.id in old(s.rows)
      ensures r.IntegrityError? ==> !Agrees(wanted) && s.open[t].answers == old(s.open[t].answers)
      ensures known && Agrees(wanted) ==> r.Returned?
      ensures r.Returned? && r.id in old(s.rows) ==> s.rows[r.id].row == old(s.rows[r.id].row)
      ensures r.Returned? && r.id !in old(s.rows) && s.rows[r.id].owner == Some(t) ==> s.rows[r.id].row == wanted
    {
      if Taken(s, t, LookupKey(wanted)) {
        var id :| id in s.rows && Matches(s, id, LookupKey(wanted)) && Sees(s, t, id);
        StepKeeps(s, Find(t, wanted, Some(id)));
        s := Apply(s, Find(t, wanted, Some(id)));
        return Returned(id);
      }
      if !known {
        return UserNotFound;
      }
      StepKeeps(s, Find(t, wanted, None));
      s := Apply(s, Find(t, wanted, None));
      ghost var s0 := s;
      Meanwhile(t, before);
      ghost var s1 := s;
      AwaitHolder(t, IndexKey(wanted), holderCommits);
      UndisturbedThrough(s0, s1, s, t);
      var id := s.next;
      StepKeeps(s, Insert(t));
      InsertStores(s, t);
      s := Apply(s, Insert(t));
      if s.open[t].phase.Idle? {
        return Returned(id);
      }
      ghost var s2 := s;
      Meanwhile(t, after);
      UndisturbedThrough(s0, s2, s, t);
      assert OpenSound(s, t);
      if !Taken(s, t, LookupKey(wanted)) {
        StepKeeps(s, FindAgain(t, None));
        s := Apply(s, FindAgain(t, None));
        return IntegrityError;
      }
      id :| id in s.rows && Matches(s, id, LookupKey(wanted)) && Sees(s, t, id);
      StepKeeps(s, FindAgain(t, Some(id)));
      s := Apply(s, FindAgain(t, Some(id)));
      return Returned(id);
    }

    /** `get_or_create_external`, given the two lower-casings of the stripped name: blank names are refused; the
        others answer with a row indexed under one of them, unless the two differ and the insert conflicts. */
    method GetOrCreateExternal(
      t: nat, displayName: string, indexed: string, asked: string, before: seq<Step>, holderCommits: bool,
      after: seq<Step>)
      returns (r: Outcome)
      requires Inv(s) && t in s.open && s.open[t].phase.Idle?
      modifies this
      ensures Inv(s) && t in s.open && s.open[t].phase.Idle?
      ensures r == BlankName <==> Strip(displayName) == ""
      ensures r == BlankName ==> s == old(s)
      ensures r.Returned? ==> Backed(s, t, Answer(External(Strip(displayName), indexed, asked), r.id))
      ensures r != BlankName && indexed == asked ==> r.Returned?
      ensures r != BlankName ==> r.Returned? || (r.IntegrityError? && indexed != asked)
      ensures r.Returned? && r.id in old(s.rows) ==> s.rows[r.id].row == old(s.rows[r.id].row)
      ensures r.Returned? && r.id !in old(s.rows) && s.rows[r.id].owner == Some(t) ==>
        s.rows[r.id].row == External(Strip(displayName), indexed, asked)
    {
      var name := Strip(displayName);
      if name == "" {
        return BlankName;
      }
      r := GetOrCreate(t, External(name, indexed, asked), true, before, holderCommits, after);
    }

    /** `get_or_create_for_user`: the user's one actor, or the user is not there; no conflict ever escapes. */
    method GetOrCreateForUser(
      t: nat, user: nat, name: Option<string>, before: seq<Step>, holderCommits: bool, after: seq<Step>)
      returns (r: Outcome)
      requires Inv(s) && t in s.open && s.open[t].phase.Idle?
      modifies this
      ensures Inv(s) && t in s.open && s.open[t].phase.Idle?
      ensures r.Returned? || (r.UserNotFound? && name.None? && s == old(s))
      ensures r.Returned? ==> Matches(s, r.id, ByUser(user)) && Sees(s, t, r.id)
      ensures r.Returned? && r.id in old(s.rows) ==> s.rows[r.id].row == old(s.rows[r.id].row)
      ensures r.Returned? && r.id !in old(s.rows) && s.rows[r.id].owner == Some(t) ==>
        name.Some? && s.rows[r.id].row == Internal(user, name.value)
    {
      var wanted := Internal(user, if name.Some? then name.value else "");
      r := GetOrCreate(t, wanted, name.Some?, before, holderCommits, after);
    }
  }
}
