/** The checker for the version-coupled manifests, and what a bump means for it. */
module VersionCheck {
  import opened Text
  import opened PyJson
  import opened JsonPointer
  import opened VersionBump
  import opened BumpFacts

  datatype Problem =
    | Missing(path: string)
    | NotJson(path: string)
    | NoPointer(path: string, pointer: Pointer)
    | WrongVersion(path: string, pointer: Pointer, found: Json)

  /** What `json.loads` leaves in the parse cache; an unparsable file and a `null` document look alike. */
  function Cached(files: Files, path: string): Json
    requires path in files
  {
    if files[path].None? then Null else files[path].value
  }

  function PointerProblem(doc: Json, loc: Location, expected: string): seq<Problem> {
    if doc == Null then []
    else
      var found := Dig(doc, loc.pointer);
      if found.None? then [NoPointer(loc.path, loc.pointer)]
      else if found.value != Str(expected) then [WrongVersion(loc.path, loc.pointer, found.value)]
      else []
  }

  /** The files of the first `n` locations. */
  function Seen(table: seq<Location>, n: nat): set<string>
    requires n <= |table|
  {
    if n == 0 then {} else Seen(table, n - 1) + {table[n - 1].path}
  }

  lemma {:induction false} SeenHold(table: seq<Location>, n: nat, path: string)
    requires n <= |table|
    ensures path in Seen(table, n) <==> exists j :: 0 <= j < n && table[j].path == path
  {
    if n > 0 {
      SeenHold(table, n - 1, path);
    }
  }

  lemma {:induction false} SeenIsPaths(table: seq<Location>, n: nat, path: string)
    requires n <= |table|
    ensures path in Seen(table, n) <==> path in Paths(table, n)
  {
    if n > 0 {
      SeenIsPaths(table, n - 1, path);
      InAppended(Paths(table, n - 1), table[n - 1].path, path);
    }
  }

  /** What one location adds; an unparsable file is reported at its first location only. */
  function ProblemsOf(files: Files, loc: Location, seen: bool, expected: string): seq<Problem> {
    if loc.path !in files then [Missing(loc.path)]
    else
      (if files[loc.path].None? && !seen then [NotJson(loc.path)] else [])
      + PointerProblem(Cached(files, loc.path), loc, expected)
  }

  function ProblemsAt(files: Files, table: seq<Location>, i: nat, expected: string): seq<Problem>
    requires i < |table|
  {
    ProblemsOf(files, table[i], table[i].path in Seen(table, i), expected)
  }

  /** Which problem one location gives: its file is missing; it does not parse, said at its first location only;
      the pointer addresses nothing; or something else than the version stands there, and what. Nothing is said
      about a document that is `null`. */
  lemma {:induction false} ProblemsExactly(files: Files, table: seq<Location>, i: nat, expected: string)
    requires i < |table|
    ensures
      var problems, path, pointer := ProblemsAt(files, table, i, expected), table[i].path, table[i].pointer;
      && (path !in files ==> problems == [Missing(path)])
      && (path in files && files[path] == None ==>
        problems == if exists j :: 0 <= j < i && table[j].path == path then [] else [NotJson(path)])
      && (path in files && files[path] == Some(Null) ==> problems == [])
      && (path in files && files[path].Some? && files[path] != Some(Null) ==>
        && var found := Dig(files[path].value, pointer);
        && (found == None ==> problems == [NoPointer(path, pointer)])
        && (found == Some(Str(expected)) ==> problems == [])
        && (found.Some? && found.value != Str(expected) ==> problems == [WrongVersion(path, pointer, found.value)]))
  {
    SeenHold(table, i, table[i].path);
  }

  /** What every location adds, in order. */
  ghost function Rounds(files: Files, table: seq<Location>, expected: string): seq<seq<Problem>> {
    seq(|table|, i requires 0 <= i < |table| => ProblemsAt(files, table, i, expected))
  }

  /** The first `n` lists put together. */
  ghost function Flat(rounds: seq<seq<Problem>>, n: nat): seq<Problem>
    requires n <= |rounds|
  {
    if n == 0 then [] else Flat(rounds, n - 1) + rounds[n - 1]
  }

  /** The problems of all locations. */
  ghost function Problems(files: Files, table: seq<Location>, expected: string): seq<Problem> {
    Flat(Rounds(files, table, expected), |table|)
  }

  ghost function Reported(rounds: seq<seq<Problem>>, n: nat): nat
    requires n <= |rounds|
  {
    if n == 0 then 0 else Reported(rounds, n - 1) + |rounds[n - 1]|
  }

  /** The report lists the locations' problems one after the other: the `k`-th of location `i` stands `k` after
      all those of the locations before. */
  lemma {:induction false} FlatExactly(rounds: seq<seq<Problem>>, n: nat, i: nat, k: nat)
    requires i < n <= |rounds| && k < |rounds[i]|
    ensures Reported(rounds, i) + k < |Flat(rounds, n)| == Reported(rounds, n)
    ensures Flat(rounds, n)[Reported(rounds, i) + k] == rounds[i][k]
  {
    FlatLength(rounds, n - 1);
    if i < n - 1 {
      FlatExactly(rounds, n - 1, i, k);
    }
  }

  lemma {:induction false} FlatLength(rounds: seq<seq<Problem>>, n: nat)
    requires n <= |rounds|
    ensures |Flat(rounds, n)| == Reported(rounds, n)
  {
    if n > 0 {
      FlatLength(rounds, n - 1);
    }
  }

  lemma {:induction false} FlatEmpty(rounds: seq<seq<Problem>>, n: nat)
    requires n <= |rounds|
    ensures Flat(rounds, n) == [] <==> forall i :: 0 <= i < n ==> rounds[i] == []
  {
    if n > 0 {
      FlatEmpty(rounds, n - 1);
      assert |Flat(rounds, n)| == |Flat(rounds, n - 1)| + |rounds[n - 1]|;
    }
  }

  /** The parse cache after the first `n` locations. */
  function ParsedUpTo(files: Files, table: seq<Location>, n: nat): map<string, Json>
    requires n <= |table|
  {
    if n == 0 then map[]
    else
      var before, path := ParsedUpTo(files, table, n - 1), table[n - 1].path;
      if path in files && path !in before then before[path := Cached(files, path)] else before
  }

  lemma {:induction false} ParsedHolds(files: Files, table: seq<Location>, n: nat, path: string)
    requires n <= |table|
    ensures path in ParsedUpTo(files, table, n) <==> path in files && path in Seen(table, n)
    ensures path in ParsedUpTo(files, table, n) ==>
              path in files && ParsedUpTo(files, table, n)[path] == Cached(files, path)
  {
    if n > 0 {
      ParsedHolds(files, table, n - 1, path);
    }
  }

  /** One round of the loop: the file is parsed unless the cache has it. */
  method CheckLocation(files: Files, loc: Location, parsed: map<string, Json>, expected: string)
    returns (found: seq<Problem>, cache: map<string, Json>)
    requires loc.path in parsed ==> loc.path in files && parsed[loc.path] == Cached(files, loc.path)
    ensures found == ProblemsOf(files, loc, loc.path in parsed, expected)
    ensures cache
         == if loc.path in files && loc.path !in parsed then parsed[loc.path := Cached(files, loc.path)] else parsed
  {
    cache := parsed;
    if loc.path !in files {
      return [Missing(loc.path)], cache;
    }
    found := [];
    if loc.path !in cache {
      if files[loc.path].None? {
        found := [NotJson(loc.path)];
      }
      cache := cache[loc.path := Cached(files, loc.path)];
    }
    found := found + PointerProblem(cache[loc.path], loc, expected);
  }

  /** The version-coupled loop of `collect_problems`, with its parse cache. */
  method VersionProblems(files: Files, table: seq<Location>, expected: string) returns (problems: seq<Problem>)
    ensures problems == Problems(files, table, expected)
  {
    problems := [];
    var parsed: map<string, Json> := map[];
    ghost var rounds := Rounds(files, table, expected);
    for i := 0 to |table|
      invariant |rounds| == |table| && rounds == Rounds(files, table, expected)
      invariant problems == Flat(rounds, i) && parsed == ParsedUpTo(files, table, i)
    {
      ParsedHolds(files, table, i, table[i].path);
      var found, cache := CheckLocation(files, table[i], parsed, expected);
      RoundIs(files, table, i, expected, parsed, found);
      problems, parsed := problems + found, cache;
    }
  }

  lemma {:induction false} RoundIs(
    files: Files, table: seq<Location>, i: nat, expected: string, parsed: map<string, Json>, found: seq<Problem>)
    requires i < |table| && (table[i].path in parsed <==> table[i].path in files && table[i].path in Seen(table, i))
    requires found == ProblemsOf(files, table[i], table[i].path in parsed, expected)
    ensures found == ProblemsAt(files, table, i, expected)
  {
  }

  /** A location the checker is satisfied with: it reads the version, or the whole document is `null`. */
  ghost predicate Satisfied(files: Files, loc: Location, expected: string) {
    && loc.path in files && files[loc.path].Some?
    && (files[loc.path].value == Null || Dig(files[loc.path].value, loc.pointer) == Some(Str(expected)))
  }

  ghost predicate SatisfiedAt(files: Files, table: seq<Location>, i: nat, expected: string)
    requires i < |table|
  {
    Satisfied(files, table[i], expected)
  }

  ghost predicate SilentAt(files: Files, table: seq<Location>, i: nat, expected: string)
    requires i < |table|
  {
    ProblemsAt(files, table, i, expected) == []
  }

  ghost predicate AllSatisfied(files: Files, table: seq<Location>, expected: string) {
    forall i :: 0 <= i < |table| ==> SatisfiedAt(files, table, i, expected)
  }

  ghost predicate AllSilent(files: Files, table: seq<Location>, n: nat, expected: string)
    requires n <= |table|
  {
    forall i :: 0 <= i < n ==> SilentAt(files, table, i, expected)
  }

  /** Nothing is reported exactly when no location adds anything. */
  lemma {:induction false} EmptyIsSilent(files: Files, table: seq<Location>, expected: string)
    ensures Problems(files, table, expected) == [] <==> AllSilent(files, table, |table|, expected)
  {
    var rounds := Rounds(files, table, expected);
    FlatEmpty(rounds, |table|);
    assert forall i :: 0 <= i < |table| ==> (rounds[i] == [] <==> SilentAt(files, table, i, expected));
  }

  lemma {:induction false} SatisfiedIsSilent(files: Files, table: seq<Location>, i: nat, expected: string)
    requires i < |table| && SatisfiedAt(files, table, i, expected)
    ensures SilentAt(files, table, i, expected)
  {
  }

  lemma {:induction false} SeenParses(files: Files, table: seq<Location>, n: nat, expected: string, path: string)
    requires n <= |table| && AllSilent(files, table, n, expected) && path in Seen(table, n)
    ensures path in files && files[path].Some?
  {
    if path in Seen(table, n - 1) {
      SeenParses(files, table, n - 1, expected, path);
    } else {
      assert SilentAt(files, table, n - 1, expected);
    }
  }

  lemma {:induction false} SilentIsSatisfied(files: Files, table: seq<Location>, i: nat, expected: string)
    requires i < |table| && AllSilent(files, table, i + 1, expected)
    ensures SatisfiedAt(files, table, i, expected)
  {
    assert SilentAt(files, table, i, expected);
    SeenParses(files, table, i + 1, expected, table[i].path);
  }

  /** The checker reports nothing exactly when it is satisfied with every location. */
  lemma {:induction false} NoProblems(files: Files, table: seq<Location>, expected: string)
    ensures Problems(files, table, expected) == [] <==> AllSatisfied(files, table, expected)
  {
    EmptyIsSilent(files, table, expected);
    if AllSilent(files, table, |table|, expected) {
      forall i | 0 <= i < |table|
        ensures SatisfiedAt(files, table, i, expected)
      {
        SilentIsSatisfied(files, table, i, expected);
      }
    }
    if AllSatisfied(files, table, expected) {
      forall i | 0 <= i < |table|
        ensures SilentAt(files, table, i, expected)
      {
        SatisfiedIsSilent(files, table, i, expected);
      }
    }
  }

  lemma {:induction false} PointerListed(table: seq<Location>, n: nat, i: nat)
    requires i < n <= |table|
    ensures table[i].pointer in PointersOf(table, n, table[i].path)
  {
    if i < n - 1 {
      PointerListed(table, n - 1, i);
    }
  }

  lemma {:induction false} ListedPointer(table: seq<Location>, n: nat, path: string, k: nat) returns (i: nat)
    requires n <= |table| && k < |PointersOf(table, n, path)|
    ensures i < n && table[i].path == path && table[i].pointer == PointersOf(table, n, path)[k]
  {
    if k < |PointersOf(table, n - 1, path)| {
      i := ListedPointer(table, n - 1, path, k);
    } else {
      i := n - 1;
    }
  }

  /** After a successful bump the checker has nothing to report. */
  lemma {:induction false} BumpSatisfiesChecker(files: Files, table: seq<Location>, value: string)
    requires TableIndependent(table) && |value| != 1 && Bump(files, table, value, false).outcome.Bumped?
    ensures Problems(Bump(files, table, value, false).files, table, value) == []
  {
    var order, after := Paths(table, |table|), Bump(files, table, value, false).files;
    BumpExact(files, table, value);
    PathsDistinct(table, |table|);
    forall i | 0 <= i < |table|
      ensures SatisfiedAt(after, table, i, value)
    {
      var j :| 0 <= j < |order| && order[j] == table[i].path;
      assert UpToDate(after, table, order[j], value);
      PointerListed(table, |table|, i);
    }
    NoProblems(after, table, value);
  }

  lemma {:induction false} ReportGrows(
    files: Files, order: seq<string>, i: nat, k: nat, table: seq<Location>, value: string, changes: seq<(string, nat)>)
    requires i <= k <= |order|
    ensures |Report(files, order, i, k, table, value, changes)| >= |changes|
    decreases k - i
  {
    if i < k {
      ReportGrows(files, order, i + 1, k, table, value, changes + Line(files, table, order[i], value));
    }
  }

  lemma {:induction false} NothingReported(
    files: Files, order: seq<string>, i: nat, k: nat, table: seq<Location>, value: string, changes: seq<(string, nat)>)
    requires i <= k <= |order| && Report(files, order, i, k, table, value, changes) == changes
    ensures forall j :: i <= j < k ==> Line(files, table, order[j], value) == []
    decreases k - i
  {
    if i < k {
      var line := Line(files, table, order[i], value);
      ReportGrows(files, order, i + 1, k, table, value, changes + line);
      assert changes + [] == changes;
      NothingReported(files, order, i + 1, k, table, value, changes);
    }
  }

  lemma {:induction false} UsableNotStale(files: Files, table: seq<Location>, path: string, value: string)
    requires Usable(files, table, path) && Line(files, table, path, value) == []
    ensures UpToDate(files, table, path, value)
  {
    StaleNone(files[path].value, PointersInto(table, path), 0, value);
  }

  lemma {:induction false} SatisfiedUpToDate(files: Files, table: seq<Location>, value: string, path: string)
    requires path in files && files[path].Some? && files[path] != Some(Null)
    requires AllSatisfied(files, table, value)
    ensures UpToDate(files, table, path, value)
  {
    forall k | 0 <= k < |PointersInto(table, path)|
      ensures Dig(files[path].value, PointersInto(table, path)[k]) == Some(Str(value))
    {
      var i := ListedPointer(table, |table|, path, k);
      assert SatisfiedAt(files, table, i, value);
    }
  }

  lemma {:induction false} PathOwner(table: seq<Location>, n: nat, path: string) returns (i: nat)
    requires n <= |table| && path in Paths(table, n)
    ensures i < n && table[i].path == path
  {
    InAppended(Paths(table, n - 1), table[n - 1].path, path);
    if path in Paths(table, n - 1) {
      i := PathOwner(table, n - 1, path);
    } else {
      i := n - 1;
    }
  }

  lemma {:induction false} UpToDateNotNull(files: Files, table: seq<Location>, path: string, value: string)
    requires TableIndependent(table) && path in Paths(table, |table|) && UpToDate(files, table, path, value)
    ensures files[path] != Some(Null)
  {
    var i := PathOwner(table, |table|, path);
    PointerListed(table, |table|, i);
    var pointers := PointersInto(table, path);
    var k :| 0 <= k < |pointers| && pointers[k] == table[i].pointer;
    assert IndependentInto(table, path);
    assert Dig(Null, pointers[k]) == None;
  }

  /** No carrier is the bare document `null`. */
  ghost predicate NoNullCarrier(files: Files, order: seq<string>) {
    forall k :: 0 <= k < |order| && order[k] in files ==> files[order[k]] != Some(Null)
  }

  /** The checker is content and no carrier is `null` exactly when a bump has nothing to do. */
  lemma {:induction false} CheckerAgreesWithBump(files: Files, table: seq<Location>, value: string)
    requires TableIndependent(table) && |value| != 1
    ensures Bump(files, table, value, false).outcome == Bumped([]) <==>
              Problems(files, table, value) == [] && NoNullCarrier(files, Paths(table, |table|))
  {
    var order := Paths(table, |table|);
    BumpExact(files, table, value);
    if Bump(files, table, value, false).outcome == Bumped([]) {
      NothingReported(files, order, 0, |order|, table, value, []);
      forall k | 0 <= k < |order|
        ensures UpToDate(files, table, order[k], value)
      {
        assert Usable(files, table, order[k]);
        UsableNotStale(files, table, order[k], value);
      }
      NothingToBump(files, order, 0, table, value, []);
      BumpSatisfiesChecker(files, table, value);
      forall k | 0 <= k < |order|
        ensures files[order[k]] != Some(Null)
      {
        assert UpToDate(files, table, order[k], value);
        UpToDateNotNull(files, table, order[k], value);
      }
    }
    if Problems(files, table, value) == [] && NoNullCarrier(files, order) {
      NoProblems(files, table, value);
      EmptyIsSilent(files, table, value);
      forall k | 0 <= k < |order|
        ensures UpToDate(files, table, order[k], value)
      {
        SeenIsPaths(table, |table|, order[k]);
        SeenParses(files, table, |table|, value, order[k]);
        SatisfiedUpToDate(files, table, value, order[k]);
      }
      NothingToBump(files, order, 0, table, value, []);
    }
  }

  // ---------- the table ----------

  const VERSION: Pointer := [Name("version")]
  const LOCK_ROOT: Pointer := [Name("packages"), Name(""), Name("version")]
  const FIRST_PLUGIN: Pointer := [Name("plugins"), Index(0), Name("version")]

  /** The version-coupled manifests. */
  const VERSION_COUPLED: seq<Location> := [
    Location("integrations/hermes-plugin/reqogniloom/package.json", VERSION),
    Location("integrations/hermes-plugin/reqogniloom/hermes-plugin.json", VERSION),
    Location("integrations/hermes-plugin/reqogniloom/package-lock.json", VERSION),
    Location("integrations/hermes-plugin/reqogniloom/package-lock.json", LOCK_ROOT),
    Location("dist/plugins/claude-code/reqogniloom/.claude-plugin/plugin.json", VERSION),
    Location("dist/plugins/antigravity/reqogniloom/plugin.json", VERSION),
    Location(".claude-plugin/marketplace.json", VERSION),
    Location(".claude-plugin/marketplace.json", FIRST_PLUGIN),
    Location("server.json", VERSION),
    Location("dist/npm/reqogniloom-opencode/package.json", VERSION),
    Location("frontend/package.json", VERSION),
    Location("frontend/package-lock.json", VERSION),
    Location("frontend/package-lock.json", LOCK_ROOT)]

  /** Within one file no pointer leads to or through another, location by location. */
  ghost predicate LocationsIndependent(table: seq<Location>) {
    && (forall i :: 0 <= i < |table| ==> table[i].pointer != [])
    && (forall i, j :: 0 <= i < j < |table| && table[i].path == table[j].path ==>
          !Comparable(table[i].pointer, table[j].pointer))
  }

  lemma {:induction false} PointersIndependent(table: seq<Location>, n: nat, path: string)
    requires n <= |table| && LocationsIndependent(table)
    ensures Independent(PointersOf(table, n, path))
  {
    if n > 0 {
      PointersIndependent(table, n - 1, path);
      var before := PointersOf(table, n - 1, path);
      forall k | 0 <= k < |before| && table[n - 1].path == path
        ensures !Comparable(before[k], table[n - 1].pointer)
      {
        var i := ListedPointer(table, n - 1, path, k);
      }
    }
  }

  lemma {:induction false} FirstKeysDiffer(p: Pointer, q: Pointer)
    requires p != [] && q != [] && p[0] != q[0]
    ensures !Comparable(p, q)
  {
  }

  /** The real table is such a table, so everything above holds of it. */
  lemma {:induction false} CoupledIndependent()
    ensures TableIndependent(VERSION_COUPLED)
  {
    FirstKeysDiffer(VERSION, LOCK_ROOT);
    FirstKeysDiffer(VERSION, FIRST_PLUGIN);
    assert LocationsIndependent(VERSION_COUPLED);
    forall path
      ensures IndependentInto(VERSION_COUPLED, path)
    {
      PointersIndependent(VERSION_COUPLED, |VERSION_COUPLED|, path);
    }
  }

  // ---------- failures at an input ----------

  /** Every carrier of the table holds the same document. */
  function Uniform(table: seq<Location>, doc: Json): Files {
    map path | path in Seen(table, |table|) :: Some(doc)
  }

  lemma {:induction false} UniformHas(table: seq<Location>, doc: Json, i: nat)
    requires i < |table|
    ensures table[i].path in Uniform(table, doc) && Uniform(table, doc)[table[i].path] == Some(doc)
  {
    PathsDistinct(table, |table|);
    SeenIsPaths(table, |table|, table[i].path);
  }

  lemma {:induction false} FirstPath(table: seq<Location>, n: nat)
    requires 0 < n <= |table|
    ensures |Paths(table, n)| > 0 && Paths(table, n)[0] == table[0].path
  {
    if n > 1 {
      FirstPath(table, n - 1);
    }
  }

  lemma {:induction false} NullNowhere(p: Pointer)
    requires p != []
    ensures Dig(Null, p) == None && !RunsShort(Null, p)
  {
    RunsShortSplit(Null, p);
  }

  lemma {:induction false} NullDiagnosis(path: string)
    requires Uniform(VERSION_COUPLED, Null).Keys >= {path} && Uniform(VERSION_COUPLED, Null)[path] == Some(Null)
    requires PointersInto(VERSION_COUPLED, path) != [] && TableIndependent(VERSION_COUPLED)
    ensures !Usable(Uniform(VERSION_COUPLED, Null), VERSION_COUPLED, path)
    ensures Diagnosis(Uniform(VERSION_COUPLED, Null), VERSION_COUPLED, path) == NoSuchPointer(path)
  {
    assert IndependentInto(VERSION_COUPLED, path);
    var pointers := PointersInto(VERSION_COUPLED, path);
    NullNowhere(pointers[0]);
    assert FirstMissing(Null, pointers, 0) == 0;
  }

  /** With every version-coupled manifest the bare document `null`, the checker has nothing to report and the
      bump stops at the first of them. */
  lemma {:induction false} NullCarrierSkipped(value: string)
    requires |value| != 1
    ensures
      var files := Uniform(VERSION_COUPLED, Null);
      && Problems(files, VERSION_COUPLED, value) == []
      && Bump(files, VERSION_COUPLED, value, false) == Result(files, NoSuchPointer(VERSION_COUPLED[0].path))
  {
    var table := VERSION_COUPLED;
    var files := Uniform(table, Null);
    forall i | 0 <= i < |table|
      ensures SatisfiedAt(files, table, i, value)
    {
      UniformHas(table, Null, i);
    }
    NoProblems(files, table, value);
    CoupledIndependent();
    FirstPath(table, |table|);
    UniformHas(table, Null, 0);
    PointerListed(table, |table|, 0);
    NullDiagnosis(table[0].path);
    UnusableStep(files, Paths(table, |table|), 0, table, value, []);
  }

  /** A manifest with a version everywhere but in its empty plugin list. */
  function NoPlugins(): Json {
    Obj(map["version" := Str("0.0.0"), "packages" := Obj(map["" := Obj(map["version" := Str("0.0.0")])]),
            "plugins" := Arr([])])
  }

  lemma {:induction false} NoPluginsAddresses()
    ensures Dig(NoPlugins(), VERSION).Some? && Dig(NoPlugins(), LOCK_ROOT).Some?
    ensures Dig(NoPlugins(), FIRST_PLUGIN) == None && RunsShort(NoPlugins(), FIRST_PLUGIN)
  {
    var doc := NoPlugins();
    assert VERSION[1..] == [];
    var packages := doc.fields["packages"];
    assert LOCK_ROOT[1..] == [Name(""), Name("version")] && LOCK_ROOT[1..][1..] == VERSION;
    assert Dig(packages.fields[""], VERSION).Some?;
    assert Dig(packages, LOCK_ROOT[1..]).Some?;
    assert FIRST_PLUGIN[1..] == [Index(0), Name("version")];
    assert Dig(Arr([]), FIRST_PLUGIN[1..]) == None;
    RunsShortSplit(doc, FIRST_PLUGIN);
    RunsShortSplit(Arr([]), FIRST_PLUGIN[1..]);
  }

  const MARKETPLACE := ".claude-plugin/marketplace.json"

  /** Only the marketplace is asked for a plugin. */
  lemma {:induction false} PluginPointer(i: nat)
    requires i < |VERSION_COUPLED|
    ensures VERSION_COUPLED[i].pointer == FIRST_PLUGIN <==> i == 7
    ensures VERSION_COUPLED[i].pointer in {VERSION, LOCK_ROOT, FIRST_PLUGIN}
    ensures VERSION_COUPLED[7].path == MARKETPLACE
  {
    FirstKeysDiffer(VERSION, FIRST_PLUGIN);
    assert LOCK_ROOT[0] != FIRST_PLUGIN[0];
  }

  lemma {:induction false} OnlyMarketplaceFails(path: string, m: nat)
    requires m < |PointersInto(VERSION_COUPLED, path)|
    requires Dig(NoPlugins(), PointersInto(VERSION_COUPLED, path)[m]).None?
    ensures path == MARKETPLACE && RunsShort(NoPlugins(), PointersInto(VERSION_COUPLED, path)[m])
  {
    var i := ListedPointer(VERSION_COUPLED, |VERSION_COUPLED|, path, m);
    PluginPointer(i);
    NoPluginsAddresses();
  }

  lemma {:induction false} MarketplaceUnusable()
    ensures !Usable(Uniform(VERSION_COUPLED, NoPlugins()), VERSION_COUPLED, MARKETPLACE)
  {
    PluginPointer(7);
    UniformHas(VERSION_COUPLED, NoPlugins(), 7);
    PointerListed(VERSION_COUPLED, |VERSION_COUPLED|, 7);
    var pointers := PointersInto(VERSION_COUPLED, MARKETPLACE);
    var k :| 0 <= k < |pointers| && pointers[k] == FIRST_PLUGIN;
    NoPluginsAddresses();
  }

  /** Where the loop stops on these files. */
  lemma {:induction false} StopsAtMarketplace(k: nat)
    requires k <= |Paths(VERSION_COUPLED, |VERSION_COUPLED|)|
    requires StopsAt(
               Uniform(VERSION_COUPLED, NoPlugins()), VERSION_COUPLED, Paths(VERSION_COUPLED, |VERSION_COUPLED|), 0, k)
    ensures k < |Paths(VERSION_COUPLED, |VERSION_COUPLED|)|
    ensures Paths(VERSION_COUPLED, |VERSION_COUPLED|)[k] == MARKETPLACE
    ensures Diagnosis(Uniform(VERSION_COUPLED, NoPlugins()), VERSION_COUPLED, MARKETPLACE)
         == EscapedIndexError(MARKETPLACE)
  {
    var table := VERSION_COUPLED;
    var files, order := Uniform(table, NoPlugins()), Paths(table, |table|);
    PluginPointer(7);
    PathsDistinct(table, |table|);
    MarketplaceUnusable();
    var j :| 0 <= j < |order| && order[j] == MARKETPLACE;
    assert k <= j;
    var path := order[k];
    var i := PathOwner(table, |table|, path);
    UniformHas(table, NoPlugins(), i);
    var pointers := PointersInto(table, path);
    FirstMissingIs(NoPlugins(), pointers, 0);
    OnlyMarketplaceFails(path, FirstMissing(NoPlugins(), pointers, 0));
  }

  /** With manifests that carry the version but an empty plugin list, the bump edits the carriers before the
      marketplace and then lets an index error escape. */
  lemma {:induction false} EmptyPluginsEscape(value: string)
    requires |value| != 1
    ensures Bump(Uniform(VERSION_COUPLED, NoPlugins()), VERSION_COUPLED, value, false).outcome
         == EscapedIndexError(MARKETPLACE)
  {
    var table := VERSION_COUPLED;
    var files, order := Uniform(table, NoPlugins()), Paths(table, |table|);
    CoupledIndependent();
    PathsDistinct(table, |table|);
    var k := FindStop(files, table, order, 0);
    StopsAtMarketplace(k);
    LoopOutcome(files, order, 0, table, value, [], k);
  }
}
