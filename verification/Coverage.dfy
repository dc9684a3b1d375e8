/** The counting parts of sections 4 and 5: two views of the same corpus, computed separately. */
module Coverage {
  import opened Text
  import opened IdLists
  import opened TraceParse
  import opened ChildrenIndex
  import TraceCorpus

  // ---------- decomposition ----------

  predicate AnyStarts(ids: seq<ReqId>, prefix: string) {
    exists i :: 0 <= i < |ids| && prefix <= ids[i]
  }

  /** Section 4, `has_child`: no entry means no child. */
  predicate HasChild(index: Index, id: ReqId, prefix: string) {
    id in index && AnyStarts(index[id].primary + index[id].contributing, prefix)
  }

  /** Section 4: how many of these requirements have a child on the next level. */
  method CountDecomposed(reqs: seq<Requirement>, index: Index, childLevel: nat) returns (count: nat)
    ensures count == Decomposed(reqs, |reqs|, index, LevelPrefix(childLevel))
  {
    count := 0;
    for i := 0 to |reqs|
      invariant count == Decomposed(reqs, i, index, LevelPrefix(childLevel))
    {
      if HasChild(index, reqs[i].reqId, LevelPrefix(childLevel)) {
        count := count + 1;
      }
    }
  }

  /** Section 5, `undecomposed`: a missing entry is read as two empty lists. */
  method ListUndecomposed(reqs: seq<Requirement>, index: Index, childPrefix: string) returns (out: seq<ReqId>)
    ensures out == Undecomposed(reqs, |reqs|, index, childPrefix)
  {
    out := [];
    for i := 0 to |reqs|
      invariant out == Undecomposed(reqs, i, index, childPrefix)
    {
      var kids := if reqs[i].reqId in index then index[reqs[i].reqId] else Links([], []);
      if !AnyStarts(kids.primary + kids.contributing, childPrefix) {
        out := out + [reqs[i].reqId];
      }
    }
  }

  /** `REQ-L<n>-`. */
  function LevelPrefix(n: nat): string {
    "REQ-L" + Decimal(n) + "-"
  }

  function Decomposed(reqs: seq<Requirement>, n: nat, index: Index, prefix: string): nat
    requires n <= |reqs|
  {
    if n == 0 then 0
    else Decomposed(reqs, n - 1, index, prefix) + if HasChild(index, reqs[n - 1].reqId, prefix) then 1 else 0
  }

  function Undecomposed(reqs: seq<Requirement>, n: nat, index: Index, prefix: string): seq<ReqId>
    requires n <= |reqs|
  {
    if n == 0 then []
    else
      var id := reqs[n - 1].reqId;
      var kids := if id in index then index[id] else Links([], []);
      Undecomposed(reqs, n - 1, index, prefix) + if AnyStarts(kids.primary + kids.contributing, prefix) then [] else [id]
  }

  /** Whatever the index, the decomposed and the undecomposed add up to the level. */
  lemma {:induction false} ViewsAddUp(reqs: seq<Requirement>, n: nat, index: Index, prefix: string)
    requires n <= |reqs|
    ensures Decomposed(reqs, n, index, prefix) + |Undecomposed(reqs, n, index, prefix)| == n
  {
    if n > 0 {
      ViewsAddUp(reqs, n - 1, index, prefix);
    }
  }

  /** The two prefixes are spelled separately in the two sections. */
  lemma {:induction false} SamePrefixes()
    ensures LevelPrefix(1) == "REQ-L1-" && LevelPrefix(2) == "REQ-L2-"
  {
    assert Decimal(1) == "1" && Decimal(2) == "2";
  }

  /** On levels 0 and 1 the decomposed count of section 4 and the open list of section 5 add up to the level
      total. */
  method LevelCoverage(reqs: seq<Requirement>, index: Index, level: nat, childPrefix: string)
    returns (count: nat, open: seq<ReqId>)
    requires (level == 0 && childPrefix == "REQ-L1-") || (level == 1 && childPrefix == "REQ-L2-")
    ensures count == Decomposed(reqs, |reqs|, index, childPrefix)
    ensures open == Undecomposed(reqs, |reqs|, index, childPrefix)
    ensures count + |open| == |reqs|
  {
    SamePrefixes();
    count := CountDecomposed(reqs, index, level + 1);
    open := ListUndecomposed(reqs, index, childPrefix);
    ViewsAddUp(reqs, |reqs|, index, childPrefix);
  }

  lemma {:induction false} OpenPicked(
    reqs: seq<Requirement>, n: nat, index: Index, prefix: string, ids: seq<ReqId>, open: seq<bool>)
    requires n <= |reqs| == |ids| == |open|
    requires forall i :: 0 <= i < |reqs| ==> ids[i] == reqs[i].reqId
    requires forall i :: 0 <= i < |reqs| ==> open[i] == !HasChild(index, reqs[i].reqId, prefix)
    ensures Undecomposed(reqs, n, index, prefix) == Picked(ids, open, n)
  {
    if n > 0 {
      OpenPicked(reqs, n - 1, index, prefix, ids, open);
      OpenStep(reqs, n - 1, index, prefix);
      assert open[n - 1] == !HasChild(index, reqs[n - 1].reqId, prefix);
    }
  }

  lemma {:induction false} OpenStep(reqs: seq<Requirement>, n: nat, index: Index, prefix: string)
    requires n < |reqs|
    ensures Undecomposed(reqs, n + 1, index, prefix)
         == Undecomposed(reqs, n, index, prefix)
            + if HasChild(index, reqs[n].reqId, prefix) then [] else [reqs[n].reqId]
  {
  }

  /** The open list holds, in order, the ids at exactly the positions without a child on the level. */
  lemma {:induction false} OpenExactly(reqs: seq<Requirement>, index: Index, prefix: string)
    returns (ids: seq<ReqId>, open: seq<bool>, at: seq<nat>)
    ensures |ids| == |open| == |reqs|
    ensures forall i :: 0 <= i < |reqs| ==> ids[i] == reqs[i].reqId
    ensures forall i :: 0 <= i < |reqs| ==> open[i] == !HasChild(index, reqs[i].reqId, prefix)
    ensures Picks(ids, open, |reqs|, Undecomposed(reqs, |reqs|, index, prefix), at)
  {
    ids := seq(|reqs|, i requires 0 <= i < |reqs| => reqs[i].reqId);
    open := seq(|reqs|, i requires 0 <= i < |reqs| => !HasChild(index, reqs[i].reqId, prefix));
    OpenPicked(reqs, |reqs|, index, prefix, ids, open);
    at := PickedPicks(ids, open, |reqs|);
  }

  /** Over the index of a corpus, having a child is being named as a parent by a requirement of that level. */
  lemma {:induction false} HasChildMeans(reqs: seq<Requirement>, id: ReqId, prefix: string)
    requires AllTidy(reqs) && DistinctIds(reqs)
    ensures HasChild(SortedIndex(IndexUpTo(reqs, |reqs|)), id, prefix) <==>
              exists i :: 0 <= i < |reqs| && prefix <= reqs[i].reqId && id in AllParents(reqs[i].parents)
  {
    var index := SortedIndex(IndexUpTo(reqs, |reqs|));
    if HasChild(index, id, prefix) {
      var all := index[id].primary + index[id].contributing;
      var k :| 0 <= k < |all| && prefix <= all[k];
      var kind := if k < |index[id].primary| then Primary else Contributing;
      assert all[k] in Kids(index, id, kind);
      IndexIsConverse(reqs, id, kind, all[k]);
      var i :| 0 <= i < |reqs| && reqs[i].reqId == all[k] && id in ListOf(reqs[i].parents, kind);
      assert id in AllParents(reqs[i].parents);
    }
    if i :| 0 <= i < |reqs| && prefix <= reqs[i].reqId && id in AllParents(reqs[i].parents) {
      var kind := if id in reqs[i].parents.primary then Primary else Contributing;
      IndexIsConverse(reqs, id, kind, reqs[i].reqId);
      ChildStarts(index, id, kind, reqs[i].reqId, prefix);
    }
  }

  /** `reqs` are the values of a dictionary, in the order of its keys. */
  ghost predicate ValuesOf(reqs: seq<Requirement>, keys: seq<ReqId>, m: map<ReqId, Requirement>) {
    |keys| == |reqs| && NoRepeats(keys) && forall i :: 0 <= i < |keys| ==> keys[i] in m && m[keys[i]] == reqs[i]
  }

  /** What a corpus of tidy blocks holds is fit for the index: distinct ids, no repeated parent. */
  lemma {:induction false} CorpusFitsIndex(blocks: seq<Requirement>, reqs: seq<Requirement>, keys: seq<ReqId>)
    requires AllTidy(blocks) && ValuesOf(reqs, keys, TraceCorpus.After(blocks, |blocks|).requirements)
    ensures AllTidy(reqs) && DistinctIds(reqs)
  {
    forall i | 0 <= i < |blocks|
      ensures Tidy(blocks[i].parents)
    {
      assert TidyAt(blocks, i);
    }
    forall i | 0 <= i < |reqs|
      ensures TidyAt(reqs, i) && reqs[i].reqId == keys[i]
    {
      TraceCorpus.ParentsStayTidy(blocks, |blocks|, keys[i]);
      TraceCorpus.KeyedById(blocks, |blocks|, keys[i]);
    }
  }

  lemma {:induction false} ChildStarts(index: Index, id: ReqId, kind: Kind, child: ReqId, prefix: string)
    requires child in Kids(index, id, kind) && prefix <= child
    ensures HasChild(index, id, prefix)
  {
    var kids, l := Kids(index, id, kind), index[id];
    var k :| 0 <= k < |kids| && kids[k] == child;
    var at := if kind.Primary? then k else |l.primary| + k;
    assert (l.primary + l.contributing)[at] == child;
  }

  // ---------- parent links ----------

  /** A requirement declares a parent on this level. */
  predicate HasParent(r: Requirement, prefix: string) {
    AnyStarts(r.parents.primary + r.parents.contributing, prefix)
  }

  lemma {:induction false} HasParentMeans(r: Requirement, prefix: string)
    ensures HasParent(r, prefix) <==> exists p :: p in AllParents(r.parents) && prefix <= p
  {
    var all := r.parents.primary + r.parents.contributing;
    if p :| p in AllParents(r.parents) && prefix <= p {
      assert p in all;
      var i :| 0 <= i < |all| && all[i] == p;
    }
    if HasParent(r, prefix) {
      var i :| 0 <= i < |all| && prefix <= all[i];
      assert all[i] in AllParents(r.parents);
    }
  }

  /** Section 4 counts the requirements with a parent link, section 5 lists those without. */
  method ParentCoverage(reqs: seq<Requirement>, prefix: string)
    returns (linked: nat, unlinked: seq<ReqId>, ghost at: seq<nat>)
    ensures linked + |unlinked| == |reqs|
    ensures forall i: nat :: i in at <==> i < |reqs| && !HasParent(reqs[i], prefix)
    ensures Rising(at) && |at| == |unlinked|
    ensures forall k :: 0 <= k < |at| ==> at[k] < |reqs| && unlinked[k] == reqs[at[k]].reqId
  {
    linked, unlinked, at := 0, [], [];
    for i := 0 to |reqs|
      invariant linked + |unlinked| == i
      invariant forall k: nat :: k in at <==> k < i && !HasParent(reqs[k], prefix)
      invariant Rising(at) && |at| == |unlinked|
      invariant forall k :: 0 <= k < |at| ==> at[k] < i && unlinked[k] == reqs[at[k]].reqId
    {
      if HasParent(reqs[i], prefix) {
        linked := linked + 1;
      } else {
        unlinked, at := unlinked + [reqs[i].reqId], at + [i];
      }
    }
  }

  // ---------- status buckets ----------

  const KNOWN_IMPL_STATES: seq<string> :=
    ["Implemented", "Not Implemented", "Planned", "Backlog", "In Progress", "Teilweise Implementiert", "Deferred"]
  const KNOWN_TEST_STATES: seq<string> := ["Covered", "Missing", "Untested"]
  const OTHER_BUCKET := "Sonstige (Freitext)"
  const UNSET_BUCKET := "(kein Marker)"
  const IMPL_BUCKETS: seq<string> := KNOWN_IMPL_STATES + [OTHER_BUCKET, UNSET_BUCKET]
  const TEST_BUCKETS: seq<string> := KNOWN_TEST_STATES + [OTHER_BUCKET, UNSET_BUCKET]

  /** A known state is its own bucket; no marker and free text have a bucket each. */
  function ImplBucket(r: Requirement): (b: string)
    ensures b in IMPL_BUCKETS
    ensures b == "(kein Marker)" <==> r.impl == None || r.impl == Some("")
    ensures r.impl.Some? && r.impl.value in [
        "Implemented", "Not Implemented", "Planned", "Backlog", "In Progress", "Teilweise Implementiert", "Deferred"]
      ==> b == r.impl.value
    ensures r.impl.Some? && r.impl.value !in [
        "", "Implemented", "Not Implemented", "Planned", "Backlog", "In Progress", "Teilweise Implementiert", "Deferred"]
      ==> b == "Sonstige (Freitext)"
  {
    if r.impl.None? || r.impl.value == "" then UNSET_BUCKET
    else if r.impl.value in KNOWN_IMPL_STATES then r.impl.value
    else OTHER_BUCKET
  }

  /** `s.split(" ")[0]`. */
  function FirstWord(s: string): string {
    if s == [] || s[0] == ' ' then "" else [s[0]] + FirstWord(s[1..])
  }

  /** `s.rstrip(",;")`. */
  function TrimmedEnd(s: string): string {
    if s != [] && (s[|s| - 1] == ',' || s[|s| - 1] == ';') then TrimmedEnd(s[..|s| - 1]) else s
  }

  /** The first word is what stands before the first space. */
  lemma {:induction false} FirstWordExactly(s: string)
    ensures
      var w := FirstWord(s);
      w <= s && ' ' !in w && (w == s || s[|w|] == ' ')
  {
    if s != [] && s[0] != ' ' {
      FirstWordExactly(s[1..]);
      assert FirstWord(s)[1..] == FirstWord(s[1..]);
    }
  }

  ghost predicate OnlyMarks(s: string) {
    forall k :: 0 <= k < |s| ==> s[k] == ',' || s[k] == ';'
  }

  lemma {:induction false} TrimmedEndExactly(s: string)
    ensures
      var t := TrimmedEnd(s);
      t <= s && OnlyMarks(s[|t|..]) && (t != [] ==> t[|t| - 1] != ',' && t[|t| - 1] != ';')
  {
    if s != [] && (s[|s| - 1] == ',' || s[|s| - 1] == ';') {
      TrimmedEndExactly(s[..|s| - 1]);
      var t := TrimmedEnd(s);
      assert s[|t|..] == s[..|s| - 1][|t|..] + [s[|s| - 1]];
    }
  }

  /** The text starts with this word, commas and semicolons after it, then a space or its end. */
  ghost predicate LeadsWith(s: string, word: string) {
    exists n :: |word| <= n <= |s| && word <= s && OnlyMarks(s[|word|..n]) && (n == |s| || s[n] == ' ')
  }

  lemma {:induction false} FirstWordUpTo(word: string, rest: string)
    requires ' ' !in word && (rest == [] || rest[0] == ' ')
    ensures FirstWord(word + rest) == word
  {
    if word == [] {
      assert word + rest == rest;
    } else {
      FirstWordUpTo(word[1..], rest);
      assert (word + rest)[1..] == word[1..] + rest;
    }
  }

  lemma {:induction false} TrimmedOff(word: string, marks: string)
    requires word != [] && word[|word| - 1] != ',' && word[|word| - 1] != ';' && OnlyMarks(marks)
    ensures TrimmedEnd(word + marks) == word
    decreases |marks|
  {
    var all := word + marks;
    if marks == [] {
      assert all == word;
    } else {
      TrimmedOff(word, marks[..|marks| - 1]);
      assert all[..|all| - 1] == word + marks[..|marks| - 1];
      assert all[|all| - 1] == marks[|marks| - 1];
    }
  }

  lemma {:induction false} LedBy(s: string, word: string, n: nat)
    requires word != [] && ' ' !in word && word[|word| - 1] != ',' && word[|word| - 1] != ';'
    requires |word| <= n <= |s| && word <= s && OnlyMarks(s[|word|..n]) && (n == |s| || s[n] == ' ')
    ensures TrimmedEnd(FirstWord(s)) == word
  {
    var marks := s[|word|..n];
    assert ' ' !in word + marks;
    assert s == (word + marks) + s[n..];
    FirstWordUpTo(word + marks, s[n..]);
    TrimmedOff(word, marks);
  }

  /** Stripping the first word of trailing commas and semicolons gives a word exactly when the text leads with it. */
  lemma {:induction false} HeadExactly(s: string, word: string)
    requires word != [] && ' ' !in word && word[|word| - 1] != ',' && word[|word| - 1] != ';'
    ensures TrimmedEnd(FirstWord(s)) == word <==> LeadsWith(s, word)
  {
    var first := FirstWord(s);
    if TrimmedEnd(first) == word {
      FirstWordExactly(s);
      TrimmedEndExactly(first);
      assert s[|word|..|first|] == first[|word|..];
    }
    if LeadsWith(s, word) {
      var n :| |word| <= n <= |s| && word <= s && OnlyMarks(s[|word|..n]) && (n == |s| || s[n] == ' ');
      LedBy(s, word, n);
    }
  }

  lemma {:induction false} KnownState(known: string)
    requires known in KNOWN_TEST_STATES
    ensures known != [] && ' ' !in known && known[|known| - 1] != ',' && known[|known| - 1] != ';'
    ensures TrimmedEnd(FirstWord(known)) == known
  {
    assert forall k :: 0 <= k < 7 ==> "Covered"[k] != ' ' && "Missing"[k] != ' ';
    assert forall k :: 0 <= k < 8 ==> "Untested"[k] != ' ';
    LedBy(known, known, |known|);
  }

  /** Whose status a known test state is: whoever wrote exactly it, or leads with it. */
  lemma {:induction false} TestBucketExactly(r: Requirement, known: string)
    requires known in ["Covered", "Missing", "Untested"]
    ensures TestBucket(r) == known <==> r.test.Some? && (r.test.value == known || LeadsWith(r.test.value, known))
  {
    if r.test.Some? {
      KnownState(known);
      HeadExactly(r.test.value, known);
      if r.test.value in KNOWN_TEST_STATES {
        KnownState(r.test.value);
      }
    }
  }

  /** No marker has a bucket of its own; the known states are `TestBucketExactly`'s; the rest is free text. */
  function TestBucket(r: Requirement): (b: string)
    ensures b in TEST_BUCKETS
    ensures b == "(kein Marker)" <==> r.test == None || r.test == Some("")
    ensures b in ["Covered", "Missing", "Untested", "Sonstige (Freitext)", "(kein Marker)"]
  {
    if r.test.None? || r.test.value == "" then UNSET_BUCKET
    else if r.test.value in KNOWN_TEST_STATES then r.test.value
    else
      var head := TrimmedEnd(FirstWord(r.test.value));
      if head in KNOWN_TEST_STATES then head else OTHER_BUCKET
  }

  /** How often a bucket occurs among the first `n` names. */
  function Tally(names: seq<string>, n: nat, bucket: string): nat
    requires n <= |names|
  {
    if n == 0 then 0 else Tally(names, n - 1, bucket) + if names[n - 1] == bucket then 1 else 0
  }

  /** ... that is, at how many positions. */
  lemma {:induction false} TallyCounts(names: seq<string>, n: nat, bucket: string)
    requires n <= |names|
    ensures Tally(names, n, bucket) == |set i: nat | i < n && names[i] == bucket|
  {
    var found := set i: nat | i < n && names[i] == bucket;
    if n == 0 {
      assert found == {};
    } else {
      TallyCounts(names, n - 1, bucket);
      var before := set i: nat | i < n - 1 && names[i] == bucket;
      assert found == before + (if names[n - 1] == bucket then {n - 1} else {});
    }
  }

  /** The first `k` columns of a table row, added up, for the first `n` names. */
  function RowSum(names: seq<string>, n: nat, buckets: seq<string>, k: nat): nat
    requires n <= |names| && k <= |buckets|
  {
    if k == 0 then 0 else RowSum(names, n, buckets, k - 1) + Tally(names, n, buckets[k - 1])
  }

  lemma {:induction false} NameCountedOnce(names: seq<string>, n: nat, buckets: seq<string>, k: nat)
    requires n < |names| && k <= |buckets| && NoRepeats(buckets)
    ensures RowSum(names, n + 1, buckets, k)
         == RowSum(names, n, buckets, k) + if names[n] in buckets[..k] then 1 else 0
  {
    if k > 0 {
      NameCountedOnce(names, n, buckets, k - 1);
      assert buckets[..k] == buckets[..k - 1] + [buckets[k - 1]];
    }
  }

  lemma {:induction false} EmptyRow(names: seq<string>, buckets: seq<string>, k: nat)
    requires k <= |buckets|
    ensures RowSum(names, 0, buckets, k) == 0
  {
    if k > 0 {
      EmptyRow(names, buckets, k - 1);
    }
  }

  /** When every name is a column, the columns add up to the number of names. */
  lemma {:induction false} RowAddsUp(names: seq<string>, n: nat, buckets: seq<string>)
    requires n <= |names| && NoRepeats(buckets) && forall i :: 0 <= i < |names| ==> names[i] in buckets
    ensures RowSum(names, n, buckets, |buckets|) == n
  {
    if n == 0 {
      EmptyRow(names, buckets, |buckets|);
    } else {
      RowAddsUp(names, n - 1, buckets);
      NameCountedOnce(names, n - 1, buckets, |buckets|);
      assert buckets[..|buckets|] == buckets;
    }
  }

  /** `counts = {b: 0 for b in buckets}`, then one increment per name. */
  method CountNames(names: seq<string>, buckets: seq<string>) returns (counts: map<string, nat>)
    requires forall i :: 0 <= i < |names| ==> names[i] in buckets
    ensures forall b :: b in counts <==> b in buckets
    ensures forall b :: b in counts ==> counts[b] == Tally(names, |names|, b)
  {
    counts := map b | b in buckets :: 0;
    for i := 0 to |names|
      invariant forall b :: b in counts <==> b in buckets
      invariant forall b :: b in counts ==> counts[b] == Tally(names, i, b)
    {
      assert names[i] in counts;
      counts := counts[names[i] := counts[names[i]] + 1];
    }
  }

  lemma {:induction false} BucketsDiffer()
    ensures NoRepeats(IMPL_BUCKETS) && NoRepeats(TEST_BUCKETS)
  {
    var sizes := [11, 15, 7, 7, 11, 23, 8, 19, 13];
    assert forall i :: 0 <= i < 9 ==> |IMPL_BUCKETS[i]| == sizes[i];
    assert IMPL_BUCKETS[0][1] != IMPL_BUCKETS[4][1] && IMPL_BUCKETS[2][0] != IMPL_BUCKETS[3][0];
    var tests := [7, 7, 8, 19, 13];
    assert forall i :: 0 <= i < 5 ==> |TEST_BUCKETS[i]| == tests[i];
    assert TEST_BUCKETS[0][0] != TEST_BUCKETS[1][0];
  }

  function ImplNames(reqs: seq<Requirement>): seq<string> {
    seq(|reqs|, i requires 0 <= i < |reqs| => ImplBucket(reqs[i]))
  }

  function TestNames(reqs: seq<Requirement>): seq<string> {
    seq(|reqs|, i requires 0 <= i < |reqs| => TestBucket(reqs[i]))
  }

  /** Section 4.1: every requirement of the level is in a listed bucket and the row adds up to the level. */
  method ImplementationRow(reqs: seq<Requirement>) returns (counts: map<string, nat>)
    ensures forall b :: b in counts <==> b in IMPL_BUCKETS
    ensures forall b :: b in counts ==> counts[b] == Tally(ImplNames(reqs), |reqs|, b)
    ensures RowSum(ImplNames(reqs), |reqs|, IMPL_BUCKETS, |IMPL_BUCKETS|) == |reqs|
  {
    BucketsDiffer();
    RowAddsUp(ImplNames(reqs), |reqs|, IMPL_BUCKETS);
    counts := CountNames(ImplNames(reqs), IMPL_BUCKETS);
  }

  /** Section 4.2, likewise. */
  method TestRow(reqs: seq<Requirement>) returns (counts: map<string, nat>)
    ensures forall b :: b in counts <==> b in TEST_BUCKETS
    ensures forall b :: b in counts ==> counts[b] == Tally(TestNames(reqs), |reqs|, b)
    ensures RowSum(TestNames(reqs), |reqs|, TEST_BUCKETS, |TEST_BUCKETS|) == |reqs|
  {
    BucketsDiffer();
    RowAddsUp(TestNames(reqs), |reqs|, TEST_BUCKETS);
    counts := CountNames(TestNames(reqs), TEST_BUCKETS);
  }
}
