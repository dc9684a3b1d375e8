/** The corpus: requirement blocks registered one by one, duplicates merged. */
module TraceCorpus {
  import opened Text
  import opened IdLists
  import opened TraceParse

  /** A restated heading: its id, where it stands, and which occurrence it is. */
  datatype Duplicate = Duplicate(id: ReqId, source: string, occurrence: nat)

  datatype Corpus = Corpus(requirements: map<ReqId, Requirement>, duplicates: seq<Duplicate>)

  const EMPTY := Corpus(map[], [])

  /** `new or old` for a status marker. */
  function Marker(newer: Option<string>, older: Option<string>): Option<string> {
    if newer.Some? && newer.value != "" then newer else older
  }

  function MergedLinks(l: Links, more: Links): Links {
    var primary := Merge(l.primary, more.primary, []);
    Links(Sort(primary), Sort(Merge(l.contributing, more.contributing, primary)))
  }

  /** What becomes of a registered requirement when its heading is restated. */
  function Merged(existing: Requirement, req: Requirement): Requirement {
    existing.(
      impl := Marker(req.impl, existing.impl),
      test := Marker(req.test, existing.test),
      parents := MergedLinks(existing.parents, req.parents),
      duplicateOf := existing.duplicateOf + 1)
  }

  function Registered(c: Corpus, req: Requirement): Corpus {
    if req.reqId !in c.requirements then c.(requirements := c.requirements[req.reqId := req])
    else
      var existing := c.requirements[req.reqId];
      Corpus(
        c.requirements[req.reqId := Merged(existing, req)],
        c.duplicates + [Duplicate(req.reqId, req.source, existing.duplicateOf + 2)])
  }

  /** The corpus after the first `n` blocks. */
  function After(blocks: seq<Requirement>, n: nat): Corpus
    requires n <= |blocks|
  {
    if n == 0 then EMPTY else Registered(After(blocks, n - 1), blocks[n - 1])
  }

  /** The corpus `c` with the blocks from `i` on registered. */
  function RegisterFrom(c: Corpus, blocks: seq<Requirement>, i: nat): Corpus
    requires i <= |blocks|
    decreases |blocks| - i
  {
    if i == |blocks| then c else RegisterFrom(Registered(c, blocks[i]), blocks, i + 1)
  }

  /** The body of the duplicate branch, one list after the other. */
  method MergeInto(existing: Requirement, req: Requirement) returns (r: Requirement)
    ensures r == Merged(existing, req)
  {
    r := existing.(
      duplicateOf := existing.duplicateOf + 1,
      impl := Marker(req.impl, existing.impl),
      test := Marker(req.test, existing.test));
    var primary := Append(existing.parents.primary, req.parents.primary, []);
    var contributing := Append(existing.parents.contributing, req.parents.contributing, primary);
    r := r.(parents := Links(Sort(primary), Sort(contributing)));
  }

  /** The body of `_register`. */
  method RegisterOne(c: Corpus, req: Requirement) returns (r: Corpus)
    ensures r == Registered(c, req)
  {
    if req.reqId !in c.requirements {
      return c.(requirements := c.requirements[req.reqId := req]);
    }
    var existing := c.requirements[req.reqId];
    var occurrence := existing.duplicateOf + 2;
    existing := MergeInto(existing, req);
    return Corpus(c.requirements[req.reqId := existing], c.duplicates + [Duplicate(req.reqId, req.source, occurrence)]);
  }

  class CorpusStore {
    var corpus: Corpus

    constructor ()
      ensures corpus == EMPTY
    {
      corpus := EMPTY;
    }

    /** `_register`. */
    method Register(blocks: seq<Requirement>)
      modifies this
      ensures corpus == RegisterFrom(old(corpus), blocks, 0)
    {
      for i := 0 to |blocks|
        invariant RegisterFrom(old(corpus), blocks, 0) == RegisterFrom(corpus, blocks, i)
      {
        corpus := RegisterOne(corpus, blocks[i]);
      }
    }
  }

  lemma {:induction false} RegisterGoesOn(all: seq<Requirement>, blocks: seq<Requirement>, done: nat, i: nat)
    requires i <= |blocks| && done + |blocks| == |all| && all[done..] == blocks
    ensures RegisterFrom(After(all, done + i), blocks, i) == After(all, |all|)
    decreases |blocks| - i
  {
    if i < |blocks| {
      assert all[done + i] == all[done..][i];
      RegisterGoesOn(all, blocks, done, i + 1);
    }
  }

  /** Registering list after list is registering all the blocks one after the other. */
  lemma {:induction false} RegisterContinues(before: seq<Requirement>, blocks: seq<Requirement>)
    ensures RegisterFrom(After(before, |before|), blocks, 0) == After(before + blocks, |before| + |blocks|)
  {
    var all := before + blocks;
    assert all[|before|..] == blocks && all[..|before|] == before == before[..|before|];
    SameStart(before, all, |before|);
    RegisterGoesOn(all, blocks, |before|, 0);
  }

  lemma {:induction false} SameStart(a: seq<Requirement>, b: seq<Requirement>, n: nat)
    requires n <= |a| && n <= |b| && a[..n] == b[..n]
    ensures After(a, n) == After(b, n)
  {
    if n > 0 {
      assert a[..n - 1] == a[..n][..n - 1] && b[..n - 1] == b[..n][..n - 1];
      assert a[n - 1] == a[..n][n - 1] && b[n - 1] == b[..n][n - 1];
      SameStart(a, b, n - 1);
    }
  }

  // ---------- what has been registered, id by id ----------

  function Occurrences(blocks: seq<Requirement>, n: nat, id: ReqId): nat
    requires n <= |blocks|
  {
    if n == 0 then 0 else Occurrences(blocks, n - 1, id) + if blocks[n - 1].reqId == id then 1 else 0
  }

  ghost function Primaries(blocks: seq<Requirement>, n: nat, id: ReqId): set<ReqId>
    requires n <= |blocks|
  {
    if n == 0 then {}
    else Primaries(blocks, n - 1, id) + if blocks[n - 1].reqId == id then Elems(blocks[n - 1].parents.primary) else {}
  }

  ghost function Parents(blocks: seq<Requirement>, n: nat, id: ReqId): set<ReqId>
    requires n <= |blocks|
  {
    if n == 0 then {}
    else Parents(blocks, n - 1, id) + if blocks[n - 1].reqId == id then AllParents(blocks[n - 1].parents) else {}
  }

  predicate Set(marker: Option<string>) {
    marker.Some? && marker.value != ""
  }

  /** Among the first `n` blocks, none from `k` on carries this id with a marker set. */
  ghost predicate NoImplFrom(blocks: seq<Requirement>, k: nat, n: nat, id: ReqId)
    requires n <= |blocks|
  {
    forall j :: k <= j < n && blocks[j].reqId == id ==> !Set(blocks[j].impl)
  }

  ghost predicate NoTestFrom(blocks: seq<Requirement>, k: nat, n: nat, id: ReqId)
    requires n <= |blocks|
  {
    forall j :: k <= j < n && blocks[j].reqId == id ==> !Set(blocks[j].test)
  }

  lemma {:induction false} MergedLinksAdd(l: Links, more: Links)
    ensures Elems(MergedLinks(l, more).primary) == Elems(l.primary) + Elems(more.primary)
    ensures Elems(MergedLinks(l, more).contributing)
         == Elems(l.contributing) + (Elems(more.contributing) - Elems(MergedLinks(l, more).primary))
    ensures AllParents(MergedLinks(l, more)) == AllParents(l) + AllParents(more)
    ensures Tidy(l) ==> Tidy(MergedLinks(l, more))
  {
    var primary := Merge(l.primary, more.primary, []);
    MergeAdds(l.primary, more.primary, []);
    MergeAdds(l.contributing, more.contributing, primary);
    SortKeeps(primary);
    SortKeeps(Merge(l.contributing, more.contributing, primary));
  }

  /** An id is in the corpus iff some block carried it. */
  lemma {:induction false} RegisteredIds(blocks: seq<Requirement>, n: nat, id: ReqId)
    requires n <= |blocks|
    ensures id in After(blocks, n).requirements <==> Occurrences(blocks, n, id) > 0
  {
    if n > 0 {
      RegisteredIds(blocks, n - 1, id);
    }
  }

  /** A requirement counts one duplicate less than the blocks it was made of. */
  lemma {:induction false} DuplicateCount(blocks: seq<Requirement>, n: nat, id: ReqId)
    requires n <= |blocks| && id in After(blocks, n).requirements
    requires forall i :: 0 <= i < n ==> blocks[i].duplicateOf == 0
    ensures After(blocks, n).requirements[id].duplicateOf + 1 == Occurrences(blocks, n, id)
  {
    if id in After(blocks, n - 1).requirements {
      DuplicateCount(blocks, n - 1, id);
    } else {
      RegisteredIds(blocks, n - 1, id);
      assert blocks[n - 1].duplicateOf == 0;
    }
  }

  lemma {:induction false} NothingYet(blocks: seq<Requirement>, n: nat, id: ReqId)
    requires n <= |blocks| && Occurrences(blocks, n, id) == 0
    ensures Primaries(blocks, n, id) == {} && Parents(blocks, n, id) == {}
    ensures forall j :: 0 <= j < n ==> blocks[j].reqId != id
  {
    if n > 0 {
      NothingYet(blocks, n - 1, id);
    }
  }

  /** Per id, the primary parents are the union of all primaries and all parents the union of all parents. */
  lemma {:induction false} ParentsAreUnions(blocks: seq<Requirement>, n: nat, id: ReqId)
    requires n <= |blocks| && id in After(blocks, n).requirements
    ensures
      var l := After(blocks, n).requirements[id].parents;
      Elems(l.primary) == Primaries(blocks, n, id) && AllParents(l) == Parents(blocks, n, id)
  {
    var before, req := After(blocks, n - 1).requirements, blocks[n - 1];
    if id in before {
      ParentsAreUnions(blocks, n - 1, id);
      if req.reqId == id {
        MergedLinksAdd(before[id].parents, req.parents);
      }
    } else {
      RegisteredIds(blocks, n - 1, id);
      NothingYet(blocks, n - 1, id);
    }
  }

  /** Block `k` brought `p` in as a contributing parent: it is the first with this id, or no block up to it
      had `p` as a primary one. */
  ghost predicate ContributedBy(blocks: seq<Requirement>, k: nat, id: ReqId, p: ReqId)
    requires k < |blocks|
  {
    && blocks[k].reqId == id && p in blocks[k].parents.contributing
    && (Occurrences(blocks, k, id) == 0 || p !in Primaries(blocks, k + 1, id))
  }

  ghost predicate Contributed(blocks: seq<Requirement>, n: nat, id: ReqId, p: ReqId)
    requires n <= |blocks|
  {
    exists k: nat :: k < n && ContributedBy(blocks, k, id, p)
  }

  lemma {:induction false} OneMoreBlock(blocks: seq<Requirement>, n: nat, id: ReqId, p: ReqId)
    requires n < |blocks|
    ensures Contributed(blocks, n + 1, id, p) <==> Contributed(blocks, n, id, p) || ContributedBy(blocks, n, id, p)
  {
  }

  lemma {:induction false} FirstContributes(blocks: seq<Requirement>, n: nat, id: ReqId, p: ReqId)
    requires n < |blocks| && Occurrences(blocks, n, id) == 0 && blocks[n].reqId == id
    ensures !Contributed(blocks, n, id, p)
    ensures ContributedBy(blocks, n, id, p) <==> p in blocks[n].parents.contributing
  {
    NothingYet(blocks, n, id);
  }

  lemma {:induction false} MergedContributing(l: Links, more: Links, p: ReqId)
    ensures p in MergedLinks(l, more).contributing <==>
              p in l.contributing || (p in more.contributing && p !in Elems(l.primary) + Elems(more.primary))
  {
    MergedLinksAdd(l, more);
    assert p in MergedLinks(l, more).contributing <==> p in Elems(MergedLinks(l, more).contributing);
    assert p in l.contributing <==> p in Elems(l.contributing);
    assert p in more.contributing <==> p in Elems(more.contributing);
  }

  lemma {:induction false} MoreContributed(blocks: seq<Requirement>, n: nat, id: ReqId, p: ReqId, l: Links)
    requires n < |blocks| && id in After(blocks, n).requirements && l == After(blocks, n).requirements[id].parents
    requires blocks[n].reqId == id
    ensures p in MergedLinks(l, blocks[n].parents).contributing <==>
              p in l.contributing || ContributedBy(blocks, n, id, p)
  {
    RegisteredIds(blocks, n, id);
    ParentsAreUnions(blocks, n, id);
    MergedContributing(l, blocks[n].parents, p);
  }

  /** The contributing parents depend on the order: those that some block brought in before they were primary,
      and they stay when a later block makes them primary as well. */
  lemma {:induction false} ContributingExactly(blocks: seq<Requirement>, n: nat, id: ReqId, p: ReqId)
    requires n <= |blocks| && id in After(blocks, n).requirements
    ensures p in After(blocks, n).requirements[id].parents.contributing <==> Contributed(blocks, n, id, p)
  {
    var before, req := After(blocks, n - 1).requirements, blocks[n - 1];
    OneMoreBlock(blocks, n - 1, id, p);
    RegisteredIds(blocks, n - 1, id);
    if id in before {
      ContributingExactly(blocks, n - 1, id, p);
      if req.reqId == id {
        MoreContributed(blocks, n - 1, id, p, before[id].parents);
      }
    } else {
      FirstContributes(blocks, n - 1, id, p);
    }
  }

  /** An id is listed both ways exactly when some block brought it in before it was primary, and some block has
      it as a primary parent. */
  lemma {:induction false} ListedBothWaysExactly(blocks: seq<Requirement>, n: nat, id: ReqId, p: ReqId)
    requires n <= |blocks| && id in After(blocks, n).requirements
    ensures
      var l := After(blocks, n).requirements[id].parents;
      p in l.primary && p in l.contributing <==> p in Primaries(blocks, n, id) && Contributed(blocks, n, id, p)
  {
    ContributingExactly(blocks, n, id, p);
    ParentsAreUnions(blocks, n, id);
    var l := After(blocks, n).requirements[id].parents;
    assert p in l.primary <==> p in Elems(l.primary);
  }

  /** It happens with two blocks: the first contributes to a parent, its restatement derives from it. */
  lemma {:induction false} RestatedBothWays()
    ensures
      var first := Requirement("REQ-L2-AS-001", 2, "a.md", None, None, Links([], ["REQ-L1-001"]), 0);
      var again := Requirement("REQ-L2-AS-001", 2, "b.md", None, None, Links(["REQ-L1-001"], []), 0);
      var r := After([first, again], 2).requirements;
      "REQ-L2-AS-001" in r && r["REQ-L2-AS-001"].parents == Links(["REQ-L1-001"], ["REQ-L1-001"])
  {
    var first := Requirement("REQ-L2-AS-001", 2, "a.md", None, None, Links([], ["REQ-L1-001"]), 0);
    var again := Requirement("REQ-L2-AS-001", 2, "b.md", None, None, Links(["REQ-L1-001"], []), 0);
    assert After([first, again], 1) == Registered(EMPTY, first);
    assert Merge([], ["REQ-L1-001"], []) == ["REQ-L1-001"];
    assert Merge(["REQ-L1-001"], [], ["REQ-L1-001"]) == ["REQ-L1-001"];
    assert Sort(["REQ-L1-001"]) == ["REQ-L1-001"];
  }

  /** Registered requirements keep the level and the source of their first block. */
  lemma {:induction false} FirstBlockNames(blocks: seq<Requirement>, n: nat, id: ReqId, k: nat)
    requires k < n <= |blocks| && blocks[k].reqId == id && Occurrences(blocks, k, id) == 0
    ensures id in After(blocks, n).requirements
    ensures
      var r := After(blocks, n).requirements[id];
      r.reqId == id && r.level == blocks[k].level && r.source == blocks[k].source
  {
    RegisteredIds(blocks, k, id);
    if k < n - 1 {
      FirstBlockNames(blocks, n - 1, id, k);
    }
  }

  /** Every block whose id occurred before is recorded with its source and the number of its occurrence. */
  lemma {:induction false} DuplicatesListed(blocks: seq<Requirement>, n: nat)
    requires n <= |blocks| && forall i :: 0 <= i < n ==> blocks[i].duplicateOf == 0
    ensures After(blocks, n).duplicates == Restated(blocks, n)
  {
    if n > 0 {
      var id := blocks[n - 1].reqId;
      DuplicatesListed(blocks, n - 1);
      RegisteredIds(blocks, n - 1, id);
      if Occurrences(blocks, n - 1, id) > 0 {
        DuplicateCount(blocks, n - 1, id);
      }
    }
  }

  ghost function Restated(blocks: seq<Requirement>, n: nat): seq<Duplicate>
    requires n <= |blocks|
  {
    if n == 0 then []
    else
      var b := blocks[n - 1];
      Restated(blocks, n - 1)
      + if Occurrences(blocks, n - 1, b.reqId) == 0 then []
        else [Duplicate(b.reqId, b.source, Occurrences(blocks, n, b.reqId))]
  }

  /** ... and the implementation state is that of the last block of the id that has one: some block carries it
      and none after it has any, or no block of the id has one at all. */
  lemma {:induction false} ImplIsLast(blocks: seq<Requirement>, n: nat, id: ReqId) returns (k: nat)
    requires n <= |blocks| && id in After(blocks, n).requirements
    ensures
      var impl := After(blocks, n).requirements[id].impl;
      if Set(impl)
      then k < n && blocks[k].reqId == id && blocks[k].impl == impl && NoImplFrom(blocks, k + 1, n, id)
      else NoImplFrom(blocks, 0, n, id)
  {
    var before, req := After(blocks, n - 1).requirements, blocks[n - 1];
    k := n - 1;
    if id in before {
      var earlier := ImplIsLast(blocks, n - 1, id);
      if req.reqId != id || !Set(req.impl) {
        k := earlier;
      }
    } else {
      RegisteredIds(blocks, n - 1, id);
      NothingYet(blocks, n - 1, id);
    }
  }

  /** The test status likewise. */
  lemma {:induction false} TestIsLast(blocks: seq<Requirement>, n: nat, id: ReqId) returns (k: nat)
    requires n <= |blocks| && id in After(blocks, n).requirements
    ensures
      var test := After(blocks, n).requirements[id].test;
      if Set(test)
      then k < n && blocks[k].reqId == id && blocks[k].test == test && NoTestFrom(blocks, k + 1, n, id)
      else NoTestFrom(blocks, 0, n, id)
  {
    var before, req := After(blocks, n - 1).requirements, blocks[n - 1];
    k := n - 1;
    if id in before {
      var earlier := TestIsLast(blocks, n - 1, id);
      if req.reqId != id || !Set(req.test) {
        k := earlier;
      }
    } else {
      RegisteredIds(blocks, n - 1, id);
      NothingYet(blocks, n - 1, id);
    }
  }

  /** Parent lists stay free of repeats through every merge. */
  lemma {:induction false} ParentsStayTidy(blocks: seq<Requirement>, n: nat, id: ReqId)
    requires n <= |blocks| && id in After(blocks, n).requirements
    requires forall i :: 0 <= i < n ==> Tidy(blocks[i].parents)
    ensures Tidy(After(blocks, n).requirements[id].parents)
  {
    var before, req := After(blocks, n - 1).requirements, blocks[n - 1];
    assert Tidy(req.parents);
    if id in before {
      ParentsStayTidy(blocks, n - 1, id);
      if req.reqId == id {
        MergedLinksAdd(before[id].parents, req.parents);
      }
    }
  }

  /** Every block is either the first with its id or a recorded duplicate. */
  lemma {:induction false} BlocksAccountedFor(blocks: seq<Requirement>, n: nat)
    requires n <= |blocks|
    ensures n == |After(blocks, n).requirements| + |After(blocks, n).duplicates|
  {
    if n > 0 {
      BlocksAccountedFor(blocks, n - 1);
      var before, req := After(blocks, n - 1).requirements, blocks[n - 1];
      KeyAdded(before, req.reqId, After(blocks, n).requirements);
    }
  }

  lemma {:induction false} KeyAdded(before: map<ReqId, Requirement>, id: ReqId, after: map<ReqId, Requirement>)
    requires id in after && after == before[id := after[id]]
    ensures |after| == |before| + if id in before then 0 else 1
  {
    assert after.Keys == before.Keys + {id};
    assert |after| == |after.Keys| && |before| == |before.Keys|;
  }

  lemma {:induction false} KeyedById(blocks: seq<Requirement>, n: nat, id: ReqId)
    requires n <= |blocks| && id in After(blocks, n).requirements
    ensures After(blocks, n).requirements[id].reqId == id
  {
    if id in After(blocks, n - 1).requirements {
      KeyedById(blocks, n - 1, id);
    }
  }

  // ---------- order does not matter ----------

  lemma {:induction false} PrimaryFrom(blocks: seq<Requirement>, n: nat, id: ReqId, p: ReqId)
    requires n <= |blocks|
    ensures p in Primaries(blocks, n, id) <==>
              exists b :: b in blocks[..n] && b.reqId == id && p in Elems(b.parents.primary)
  {
    if n > 0 {
      PrimaryFrom(blocks, n - 1, id, p);
      assert blocks[..n] == blocks[..n - 1] + [blocks[n - 1]];
    }
  }

  lemma {:induction false} ParentFrom(blocks: seq<Requirement>, n: nat, id: ReqId, p: ReqId)
    requires n <= |blocks|
    ensures p in Parents(blocks, n, id) <==>
              exists b :: b in blocks[..n] && b.reqId == id && p in AllParents(b.parents)
  {
    if n > 0 {
      ParentFrom(blocks, n - 1, id, p);
      assert blocks[..n] == blocks[..n - 1] + [blocks[n - 1]];
    }
  }

  ghost predicate SameBlocks(a: seq<Requirement>, b: seq<Requirement>) {
    forall x :: x in a <==> x in b
  }

  lemma {:induction false} SameUnions(a: seq<Requirement>, b: seq<Requirement>, id: ReqId)
    requires SameBlocks(a, b)
    ensures Primaries(a, |a|, id) == Primaries(b, |b|, id) && Parents(a, |a|, id) == Parents(b, |b|, id)
  {
    assert a[..|a|] == a && b[..|b|] == b;
    forall p
      ensures p in Primaries(a, |a|, id) <==> p in Primaries(b, |b|, id)
      ensures p in Parents(a, |a|, id) <==> p in Parents(b, |b|, id)
    {
      PrimaryFrom(a, |a|, id, p);
      PrimaryFrom(b, |b|, id, p);
      ParentFrom(a, |a|, id, p);
      ParentFrom(b, |b|, id, p);
    }
  }

  lemma {:induction false} RegisteredMeansBlock(blocks: seq<Requirement>, n: nat, id: ReqId)
    requires n <= |blocks|
    ensures id in After(blocks, n).requirements <==> exists b :: b in blocks[..n] && b.reqId == id
  {
    if n > 0 {
      RegisteredMeansBlock(blocks, n - 1, id);
      assert blocks[..n] == blocks[..n - 1] + [blocks[n - 1]];
    }
  }

  /** Registering the same blocks in another order registers the same ids, each with the same primary parents
      and the same parents. */
  lemma {:induction false} OrderIrrelevant(a: seq<Requirement>, b: seq<Requirement>, id: ReqId)
    requires SameBlocks(a, b)
    ensures
      var ra, rb := After(a, |a|).requirements, After(b, |b|).requirements;
      && (id in ra <==> id in rb)
      && (id in ra && id in rb ==>
            && Elems(ra[id].parents.primary) == Elems(rb[id].parents.primary)
            && AllParents(ra[id].parents) == AllParents(rb[id].parents))
  {
    assert a[..|a|] == a && b[..|b|] == b;
    RegisteredMeansBlock(a, |a|, id);
    RegisteredMeansBlock(b, |b|, id);
    if id in After(a, |a|).requirements && id in After(b, |b|).requirements {
      SameUnions(a, b, id);
      ParentsAreUnions(a, |a|, id);
      ParentsAreUnions(b, |b|, id);
    }
  }
}
