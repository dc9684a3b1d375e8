/** Theorems about accepted drafts: how much they add, that the three hierarchies and the
    trace links agree, and that every new requirement derives from the anchor. */
module CommitFacts {
  import opened Text
  import opened Draft
  import opened Workspace
  import opened DraftCommit
  import opened DraftGraft
  import FlattenFacts

  // ---------- when a commit goes through ----------

  lemma {:induction false} OffendingNone(findings: seq<Finding>, newIds: set<Id>)
    ensures Offending(findings, newIds) == [] <==> forall f :: f in findings ==> !Offends(f, newIds)
  {
    if findings != [] {
      OffendingNone(findings[1..], newIds);
    }
  }

  lemma {:induction false} PreflightEndpoints(db: Db, root: Id, anchor: Id, minimalTier: bool)
    requires Sound(db) && Preflight(db, root, anchor, minimalTier).Done?
    ensures Endpoints(db, Preflight(db, root, anchor, minimalTier).value)
  {
  }

  /** `d` is what an accepted draft leaves of `db`. */
  ghost predicate Committed(db: Db, d: Db, nodes: seq<DraftNode>, up: Parents, t: Target) {
    |nodes| == |up| && Rooted(up) && Endpoints(db, t) && Grafted(db, d, nodes, up, |nodes|, t)
  }

  lemma {:induction false} StartTracks(db: Db, nodes: seq<DraftNode>, up: Parents, t: Target)
    requires |nodes| == |up| && Endpoints(db, t)
    ensures Tracks(db, Start(db, t), nodes, up, 0, t)
  {
  }

  /** `commit_draft` returns normally exactly when every node can be replayed and no reported blocker of
      the three rules names a new id; it then leaves exactly the graft. */
  lemma {:induction false} CommitOutcome(
    db: Db, nodes: seq<DraftNode>, t: Target, minimalTier: bool, faults: set<nat>, findings: seq<Finding>)
    requires Sound(db) && Preflight(db, t.root, t.anchor, minimalTier) == Done(t)
    ensures |ParentsOf(nodes)| == |nodes| && Rooted(ParentsOf(nodes)) && Endpoints(db, t)
    ensures
      var r, up := Commit(db, nodes, t.root, t.anchor, minimalTier, faults, findings), ParentsOf(nodes);
      && (r.Done? <==>
            && (forall i :: 0 <= i < |nodes| ==> Replays(nodes, up, i, faults))
            && (forall f :: f in findings ==> !Offends(f, NewIdsAfter(db.next, |nodes|))))
      && (r.Done? ==> Committed(db, r.value.db, nodes, up, t) && Tracks(db, r.value, nodes, up, |nodes|, t))
  {
    var up := ParentsOf(nodes);
    ParentsOfRooted(nodes);
    PreflightEndpoints(db, t.root, t.anchor, minimalTier);
    StartTracks(db, nodes, up, t);
    ReplayGrafts(db, Start(db, t), nodes, up, 0, t, faults);
    AllReplayEach(nodes, up, 0, faults);
    OffendingNone(findings, NewIdsAfter(db.next, |nodes|));
  }

  /** The outcome, if it is a failure, is that of a service call that raises. */
  ghost predicate OnlyRejected(done: Outcome<Progress>, faults: set<nat>) {
    done.Raised? ==> done.failure.Rejected? && done.failure.call in faults
  }

  /** With these names known, every node from `i` on finds its parent. */
  ghost predicate AllResolve(known: set<string>, nodes: seq<DraftNode>, i: nat)
    requires i <= |nodes|
    decreases |nodes| - i
  {
    i == |nodes| ||
    ((nodes[i].parent.Some? ==> nodes[i].parent.value in known) && AllResolve(known + {nodes[i].tempId}, nodes, i + 1))
  }

  lemma {:induction false} StepResolved(
    p: Progress, nodes: seq<DraftNode>, i: nat, t: Target, faults: set<nat>, step: Outcome<Progress>)
    requires i < |nodes| && step == ReplayNode(p, nodes, i, t, faults)
    requires nodes[i].parent.Some? ==> nodes[i].parent.value in p.created.Keys
    ensures OnlyRejected(step, faults)
    ensures step.Done? ==> step.value.created.Keys == p.created.Keys + {nodes[i].tempId}
  {
  }

  lemma {:induction false} ResolvedStep(
    p: Progress, nodes: seq<DraftNode>, i: nat, t: Target, faults: set<nat>, known: set<string>) returns (q: Progress)
    requires i < |nodes| && known == p.created.Keys && AllResolve(known, nodes, i)
    ensures AllResolve(known + {nodes[i].tempId}, nodes, i + 1)
    ensures OnlyRejected(Replay(p, nodes, i, t, faults), faults) ||
            (Replay(p, nodes, i, t, faults) == Replay(q, nodes, i + 1, t, faults)
             && q.created.Keys == known + {nodes[i].tempId})
  {
    var step := ReplayNode(p, nodes, i, t, faults);
    ReplayUnfolds(p, nodes, i, t, faults, step);
    StepResolved(p, nodes, i, t, faults, step);
    q := if step.Done? then step.value else p;
  }

  lemma {:induction false} ResolvedOnlyRejected(
    p: Progress, nodes: seq<DraftNode>, i: nat, t: Target, faults: set<nat>, known: set<string>)
    requires i <= |nodes| && known == p.created.Keys && AllResolve(known, nodes, i)
    ensures OnlyRejected(Replay(p, nodes, i, t, faults), faults)
    decreases |nodes| - i
  {
    if i < |nodes| {
      var q := ResolvedStep(p, nodes, i, t, faults, known);
      if !OnlyRejected(Replay(p, nodes, i, t, faults), faults) {
        ResolvedOnlyRejected(q, nodes, i + 1, t, faults, known + {nodes[i].tempId});
      }
    }
  }

  /** The first `i` names. */
  ghost predicate KnowsFirst(known: set<string>, nodes: seq<DraftNode>, i: nat)
    requires i <= |nodes|
  {
    forall j :: 0 <= j < i ==> nodes[j].tempId in known
  }

  lemma {:induction false} ParentsFirstResolve(known: set<string>, nodes: seq<DraftNode>, i: nat)
    requires i <= |nodes| && KnowsFirst(known, nodes, i) && FlattenFacts.ParentsStandFirst(nodes)
    ensures AllResolve(known, nodes, i)
    decreases |nodes| - i
  {
    if i < |nodes| {
      assert FlattenFacts.ParentBefore(nodes, i);
      ParentsFirstResolve(known + {nodes[i].tempId}, nodes, i + 1);
    }
  }

  /** A draft whose parents stand first can be stopped by a raising service call only, never by the parent map. */
  lemma {:induction false} ReplayableOnlyRejected(db: Db, nodes: seq<DraftNode>, t: Target, faults: set<nat>)
    requires t.anchor in db.requirements && FlattenFacts.ParentsStandFirst(nodes)
    ensures OnlyRejected(Replay(Start(db, t), nodes, 0, t, faults), faults)
  {
    ParentsFirstResolve({}, nodes, 0);
    ResolvedOnlyRejected(Start(db, t), nodes, 0, t, faults, {});
  }

  // ---------- how much is added, and nothing else ----------

  lemma {:induction false} ElementKeyCount(base: Id, n: nat)
    ensures (forall x :: x in ElementKeys(base, n) ==> base <= x < base + 7 * n) && |ElementKeys(base, n)| == n
  {
    if n > 0 {
      ElementKeyCount(base, n - 1);
    }
  }

  lemma {:induction false} RequirementKeyCount(base: Id, n: nat)
    ensures (forall x :: x in RequirementKeys(base, n) ==> base <= x < base + 7 * n) && |RequirementKeys(base, n)| == n
  {
    if n > 0 {
      RequirementKeyCount(base, n - 1);
    }
  }

  lemma {:induction false} AddThree(s: set<Id>, a: Id, b: Id, c: Id)
    requires a !in s && b !in s && c !in s && a < b < c
    ensures |s + {a, b, c}| == |s| + 3
  {
    assert s + {a, b, c} == s + {a} + {b} + {c};
  }

  lemma {:induction false} LinkKeyRange(base: Id, n: nat, x: Id)
    ensures x in LinkKeys(base, n) ==> base <= x < base + 7 * n
  {
    if n > 0 {
      LinkKeyRange(base, n - 1, x);
    }
  }

  lemma {:induction false} LinkKeyCount(base: Id, n: nat)
    ensures (forall x :: x in LinkKeys(base, n) ==> base <= x < base + 7 * n) && |LinkKeys(base, n)| == 3 * n
  {
    forall x | x in LinkKeys(base, n)
      ensures base <= x < base + 7 * n
    {
      LinkKeyRange(base, n, x);
    }
    if n > 0 {
      var a, d, v := AllocationKey(base, n - 1), DecomposesKey(base, n - 1), DerivesKey(base, n - 1);
      LinkKeyCount(base, n - 1);
      LinkKeyRange(base, n - 1, a);
      LinkKeyRange(base, n - 1, d);
      LinkKeyRange(base, n - 1, v);
      AddThree(LinkKeys(base, n - 1), a, d, v);
    }
  }

  lemma {:induction false} DisjointUnion(a: set<Id>, b: set<Id>, base: Id)
    requires (forall x :: x in a ==> x < base) && (forall x :: x in b ==> base <= x)
    ensures |a + b| == |a| + |b|
  {
    assert a !! b;
  }

  /** n elements, n requirements and 3n links. */
  lemma {:induction false} GraftCounts(db: Db, d: Db, nodes: seq<DraftNode>, up: Parents, t: Target)
    requires Committed(db, d, nodes, up, t)
    ensures |d.elements.Keys| == |db.elements.Keys| + |nodes|
    ensures |d.requirements.Keys| == |db.requirements.Keys| + |nodes|
    ensures |d.links.Keys| == |db.links.Keys| + 3 * |nodes|
  {
    var b, n := db.next, |nodes|;
    ElementKeyCount(b, n);
    DisjointUnion(db.elements.Keys, ElementKeys(b, n), b);
    RequirementKeyCount(b, n);
    DisjointUnion(db.requirements.Keys, RequirementKeys(b, n), b);
    LinkKeyCount(b, n);
    DisjointUnion(db.links.Keys, LinkKeys(b, n), b);
  }

  /** ... reported as n, n and 3n ids. */
  lemma {:induction false} ReportedCounts(base: Id, n: nat)
    ensures |ElementIdsAfter(base, n)| == |RequirementIdsAfter(base, n)| == n
    ensures |LinkIdsAfter(base, n)| == 3 * n
  {
    if n > 0 {
      ReportedCounts(base, n - 1);
    }
  }

  lemma {:induction false} KeyOwner(base: Id, n: nat, x: Id) returns (i: nat)
    requires x in LinkKeys(base, n)
    ensures i < n && (x == AllocationKey(base, i) || x == DecomposesKey(base, i) || x == DerivesKey(base, i))
  {
    if x in LinkKeys(base, n - 1) {
      i := KeyOwner(base, n - 1, x);
    } else {
      i := n - 1;
    }
  }

  lemma {:induction false} ElementOwner(base: Id, n: nat, x: Id) returns (i: nat)
    requires x in ElementKeys(base, n)
    ensures i < n && x == ElementKey(base, i)
  {
    if x in ElementKeys(base, n - 1) {
      i := ElementOwner(base, n - 1, x);
    } else {
      i := n - 1;
    }
  }

  lemma {:induction false} RequirementOwner(base: Id, n: nat, x: Id) returns (i: nat)
    requires x in RequirementKeys(base, n)
    ensures i < n && x == RequirementKey(base, i)
  {
    if x in RequirementKeys(base, n - 1) {
      i := RequirementOwner(base, n - 1, x);
    } else {
      i := n - 1;
    }
  }

  /** A link of the committed workspace is either an old one between old artifacts, or one node's
      allocation, decomposition or derivation. */
  lemma {:induction false} LinkIs(db: Db, d: Db, nodes: seq<DraftNode>, up: Parents, t: Target, x: Id) returns (i: nat)
    requires Committed(db, d, nodes, up, t) && x in d.links
    ensures x in db.links ==>
      var link := d.links[x];
      link == db.links[x] && link.source < db.next && link.target < db.next
    ensures x !in db.links ==>
      && i < |nodes|
      && var link, b, pq := d.links[x], db.next, ParentRequirementArtifact(db, up, i, t);
         || link == Link(RequirementArtifact(b, i), ElementArtifact(b, i), AllocatedTo)
         || link == Link(pq, RequirementArtifact(b, i), Decomposes)
         || link == Link(RequirementArtifact(b, i), pq, DerivesFrom)
  {
    if x in db.links {
      i := 0;
    } else {
      i := KeyOwner(db.next, |nodes|, x);
      assert NodeRows(db, d, nodes, up, i, t);
    }
  }

  // ---------- links ----------

  /** The commit added a link of this kind between these artifacts. */
  ghost predicate NewLink(db: Db, d: Db, source: Id, target: Id, kind: LinkKind) {
    exists x :: x in d.links && x !in db.links && d.links[x] == Link(source, target, kind)
  }

  /** What a new link is: one node's allocation, decomposition or derivation. */
  lemma {:induction false} NewLinkIs(
    db: Db, d: Db, nodes: seq<DraftNode>, up: Parents, t: Target, source: Id, target: Id, kind: LinkKind)
    returns (i: nat)
    requires Committed(db, d, nodes, up, t)
    requires NewLink(db, d, source, target, kind)
    ensures i < |nodes|
    ensures
      var b, pq := db.next, ParentRequirementArtifact(db, up, i, t);
      || (kind == AllocatedTo && source == RequirementArtifact(b, i) && target == ElementArtifact(b, i))
      || (kind == Decomposes && source == pq && target == RequirementArtifact(b, i))
      || (kind == DerivesFrom && source == RequirementArtifact(b, i) && target == pq)
  {
    var x :| x in d.links && x !in db.links && d.links[x] == Link(source, target, kind);
    i := LinkIs(db, d, nodes, up, t, x);
  }

  lemma {:induction false} NodeLinksNew(db: Db, d: Db, nodes: seq<DraftNode>, up: Parents, t: Target, i: nat)
    requires Committed(db, d, nodes, up, t) && i < |nodes|
    ensures
      var b, pq := db.next, ParentRequirementArtifact(db, up, i, t);
      && NewLink(db, d, RequirementArtifact(b, i), ElementArtifact(b, i), AllocatedTo)
      && NewLink(db, d, pq, RequirementArtifact(b, i), Decomposes)
      && NewLink(db, d, RequirementArtifact(b, i), pq, DerivesFrom)
  {
    assert NodeRows(db, d, nodes, up, i, t);
    assert AllocationKey(db.next, i) !in db.links;
    assert DecomposesKey(db.next, i) !in db.links;
    assert DerivesKey(db.next, i) !in db.links;
  }

  /** The new `derives-from` edges are exactly the converse of the new `decomposes` edges. */
  lemma {:induction false} DerivesIsConverse(
    db: Db, d: Db, nodes: seq<DraftNode>, up: Parents, t: Target, parent: Id, child: Id)
    requires Committed(db, d, nodes, up, t)
    ensures NewLink(db, d, parent, child, Decomposes) <==> NewLink(db, d, child, parent, DerivesFrom)
  {
    if NewLink(db, d, parent, child, Decomposes) {
      var i := NewLinkIs(db, d, nodes, up, t, parent, child, Decomposes);
      NodeLinksNew(db, d, nodes, up, t, i);
    }
    if NewLink(db, d, child, parent, DerivesFrom) {
      var i := NewLinkIs(db, d, nodes, up, t, child, parent, DerivesFrom);
      NodeLinksNew(db, d, nodes, up, t, i);
    }
  }

  // ---------- every new requirement derives from the anchor ----------

  ghost predicate Derives(d: Db, source: Id, target: Id) {
    exists x :: x in d.links && d.links[x] == Link(source, target, DerivesFrom)
  }

  ghost predicate DerivesPath(d: Db, path: seq<Id>) {
    forall k :: 0 <= k < |path| - 1 ==> Derives(d, path[k], path[k + 1])
  }

  ghost predicate Decreasing(path: seq<Id>) {
    forall j, k :: 0 <= j < k < |path| ==> path[j] > path[k]
  }

  lemma {:induction false} DerivesToParent(
    db: Db, d: Db, nodes: seq<DraftNode>, up: Parents, t: Target, i: nat)
    requires Committed(db, d, nodes, up, t) && i < |nodes|
    ensures
      var pq := ParentRequirementArtifact(db, up, i, t);
      pq < RequirementArtifact(db.next, i) && Derives(d, RequirementArtifact(db.next, i), pq)
  {
    assert NodeRows(db, d, nodes, up, i, t);
    OldEndpoints(db, t);
  }

  lemma {:induction false} PathGrows(d: Db, me: Id, above: seq<Id>)
    requires above != [] && Derives(d, me, above[0]) && me > above[0] && DerivesPath(d, above) && Decreasing(above)
    ensures DerivesPath(d, [me] + above) && Decreasing([me] + above)
  {
    var path := [me] + above;
    assert forall j :: 1 <= j < |path| ==> path[j] == above[j - 1];
    assert forall j :: 0 <= j < |above| ==> above[j] <= above[0];
  }

  /** From every new requirement a repetition-free chain of `derives-from` links leads to the anchor. */
  lemma {:induction false} ReachesAnchor(db: Db, d: Db, nodes: seq<DraftNode>, up: Parents, t: Target, i: nat)
    returns (path: seq<Id>)
    requires Committed(db, d, nodes, up, t) && i < |nodes|
    ensures |path| >= 2 && path[0] == RequirementArtifact(db.next, i)
    ensures path[|path| - 1] == db.requirements[t.anchor].artifact
    ensures DerivesPath(d, path) && Decreasing(path)
    decreases i
  {
    DerivesToParent(db, d, nodes, up, t, i);
    var me, k := RequirementArtifact(db.next, i), up[i];
    if k.None? {
      path := [me, db.requirements[t.anchor].artifact];
    } else {
      var above := ReachesAnchor(db, d, nodes, up, t, k.value);
      path := [me] + above;
      PathGrows(d, me, above);
    }
  }

  lemma {:induction false} DerivesStep(
    db: Db, d: Db, nodes: seq<DraftNode>, up: Parents, t: Target, source: Id, target: Id)
    requires Committed(db, d, nodes, up, t)
    requires Derives(d, source, target)
    ensures target < db.next || target < source
  {
    var x :| x in d.links && d.links[x] == Link(source, target, DerivesFrom);
    var i := LinkIs(db, d, nodes, up, t, x);
    if x !in db.links {
      DerivesToParent(db, d, nodes, up, t, i);
    }
  }

  /** No chain of `derives-from` links, over old and new links alike, returns to a new requirement. */
  lemma {:induction false} NoCycleThroughNew(
    db: Db, d: Db, nodes: seq<DraftNode>, up: Parents, t: Target, path: seq<Id>)
    requires Committed(db, d, nodes, up, t) && |path| >= 2
    requires DerivesPath(d, path) && path[0] >= db.next
    ensures path[|path| - 1] < path[0]
  {
    var last := |path| - 1;
    assert Derives(d, path[last - 1], path[last - 1 + 1]);
    DerivesStep(db, d, nodes, up, t, path[last - 1], path[last]);
    if last > 1 {
      assert forall k :: 0 <= k < |path[..last]| ==> path[..last][k] == path[k];
      NoCycleThroughNew(db, d, nodes, up, t, path[..last]);
    }
  }

  // ---------- one tree in four representations ----------

  lemma {:induction false} PlacesDistinct(db: Db, up: Parents, t: Target, i: nat, j: nat)
    requires Endpoints(db, t) && i < |up|
    ensures ParentElement(db.next, up, i, t) == ElementKey(db.next, j) <==> up[i] == Some(j)
    ensures ParentElementArtifact(db, up, i, t) == ElementArtifact(db.next, j) <==> up[i] == Some(j)
    ensures ParentRequirementArtifact(db, up, i, t) == RequirementArtifact(db.next, j) <==> up[i] == Some(j)
  {
    OldEndpoints(db, t);
  }

  /** Node `i` hangs below node `j` in the draft, in the element table, in the element artifacts and in the
      requirement artifacts, or in none of them. */
  lemma {:induction false} TreesIsomorphic(
    db: Db, d: Db, nodes: seq<DraftNode>, up: Parents, t: Target, i: nat, j: nat)
    requires Committed(db, d, nodes, up, t) && i < |nodes| && j < |nodes|
    ensures
      var b := db.next;
      && NodeRows(db, d, nodes, up, i, t)
      && (d.elements[ElementKey(b, i)].parent == Some(ElementKey(b, j)) <==> up[i] == Some(j))
      && (d.artifacts[ElementArtifact(b, i)].parent == Some(ElementArtifact(b, j)) <==> up[i] == Some(j))
      && (d.artifacts[RequirementArtifact(b, i)].parent == Some(RequirementArtifact(b, j)) <==>
            up[i] == Some(j))
  {
    assert NodeRows(db, d, nodes, up, i, t);
    PlacesDistinct(db, up, t, i, j);
  }

  /** ... and so does the derivation between their requirements. */
  lemma {:induction false} DerivationIsomorphic(
    db: Db, d: Db, nodes: seq<DraftNode>, up: Parents, t: Target, i: nat, j: nat)
    requires Committed(db, d, nodes, up, t) && i < |nodes| && j < |nodes|
    ensures Derives(d, RequirementArtifact(db.next, i), RequirementArtifact(db.next, j))
       <==> up[i] == Some(j)
  {
    DerivesToParent(db, d, nodes, up, t, i);
    OldEndpoints(db, t);
    if Derives(d, RequirementArtifact(db.next, i), RequirementArtifact(db.next, j)) {
      DerivesTargetIsParent(db, d, nodes, up, t, i, RequirementArtifact(db.next, j));
    }
  }

  /** A new requirement derives from its parent only. */
  lemma {:induction false} DerivesTargetIsParent(
    db: Db, d: Db, nodes: seq<DraftNode>, up: Parents, t: Target, i: nat, target: Id)
    requires Committed(db, d, nodes, up, t) && i < |nodes|
    requires Derives(d, RequirementArtifact(db.next, i), target)
    ensures target == ParentRequirementArtifact(db, up, i, t)
  {
    var x :| x in d.links && d.links[x] == Link(RequirementArtifact(db.next, i), target, DerivesFrom);
    var k := LinkIs(db, d, nodes, up, t, x);
  }

  /** The draft's root level hangs below the selected element and derives from the anchor, in the same four
      representations. */
  lemma {:induction false} RootLevelAttached(
    db: Db, d: Db, nodes: seq<DraftNode>, up: Parents, t: Target, i: nat)
    requires Committed(db, d, nodes, up, t) && i < |nodes|
    ensures
      var b := db.next;
      && NodeRows(db, d, nodes, up, i, t)
      && (d.elements[ElementKey(b, i)].parent == Some(t.root) <==> up[i] == None)
      && (d.artifacts[ElementArtifact(b, i)].parent == Some(db.elements[t.root].artifact) <==>
            up[i] == None)
      && (d.artifacts[RequirementArtifact(b, i)].parent == Some(db.requirements[t.anchor].artifact) <==>
            up[i] == None)
      && (Derives(d, RequirementArtifact(b, i), db.requirements[t.anchor].artifact) <==> up[i] == None)
  {
    assert NodeRows(db, d, nodes, up, i, t);
    DerivesToParent(db, d, nodes, up, t, i);
    var anchorArtifact := db.requirements[t.anchor].artifact;
    OldEndpoints(db, t);
    if Derives(d, RequirementArtifact(db.next, i), anchorArtifact) {
      DerivesTargetIsParent(db, d, nodes, up, t, i, anchorArtifact);
    }
  }
}
