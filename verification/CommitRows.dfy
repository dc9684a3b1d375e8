/** What the rows of a committed draft say, what the call reports, and what it raises, spelled out field by field. */
module CommitRows {
  import opened Text
  import opened Draft
  import opened Workspace
  import opened DraftCommit
  import opened DraftGraft
  import opened CommitFacts

  // ---------- the rows ----------

  /** `Artifact.custom_fields["rationale"]`: there iff the draft has one. */
  ghost predicate Rationalised(a: Artifact, rationale: string) {
    if rationale == "" then a.rationale == None else a.rationale == Some(rationale)
  }

  /** The element of node `i` carries the node's texts, its requirement the draft requirement's, falling back to the
      node's title where it has none; both artifacts carry the rationale and lie in the root's workspace. */
  lemma {:induction false} CommittedTexts(db: Db, d: Db, nodes: seq<DraftNode>, up: Parents, t: Target, i: nat)
    requires Committed(db, d, nodes, up, t) && i < |nodes|
    ensures
      var b, n := db.next, nodes[i];
      && NodeRows(db, d, nodes, up, i, t)
      && var e, q := d.elements[ElementKey(b, i)], d.requirements[RequirementKey(b, i)];
         var ea, qa := d.artifacts[ElementArtifact(b, i)], d.artifacts[RequirementArtifact(b, i)];
         && e.artifact == ElementArtifact(b, i) && q.artifact == RequirementArtifact(b, i)
         && e.title == n.title && e.description == n.description && e.elementType == n.elementType
         && (n.requirement.title != "" ==> q.title == n.requirement.title)
         && (n.requirement.title == "" ==> q.title == n.title)
         && q.description == n.requirement.description
         && Rationalised(ea, n.requirement.rationale) && Rationalised(qa, n.requirement.rationale)
         && ea.workspace == t.workspace && qa.workspace == t.workspace
  {
    assert NodeRows(db, d, nodes, up, i, t);
  }

  // ---------- what the call reports ----------

  lemma {:induction false} ElementIdAt(base: Id, n: nat, i: nat)
    requires i < n
    ensures |ElementIdsAfter(base, n)| == n && ElementIdsAfter(base, n)[i] == ElementKey(base, i)
  {
    ReportedCounts(base, n);
    if i < n - 1 {
      ElementIdAt(base, n - 1, i);
    } else {
      ReportedCounts(base, n - 1);
    }
  }

  lemma {:induction false} RequirementIdAt(base: Id, n: nat, i: nat)
    requires i < n
    ensures |RequirementIdsAfter(base, n)| == n && RequirementIdsAfter(base, n)[i] == RequirementKey(base, i)
  {
    ReportedCounts(base, n);
    if i < n - 1 {
      RequirementIdAt(base, n - 1, i);
    } else {
      ReportedCounts(base, n - 1);
    }
  }

  lemma {:induction false} LinkIdsAt(base: Id, n: nat, i: nat)
    requires i < n
    ensures
      var ids := LinkIdsAfter(base, n);
      && |ids| == 3 * n && ids[3 * i] == AllocationKey(base, i)
      && ids[3 * i + 1] == DecomposesKey(base, i) && ids[3 * i + 2] == DerivesKey(base, i)
  {
    ReportedCounts(base, n);
    ReportedCounts(base, n - 1);
    if i < n - 1 {
      LinkIdsAt(base, n - 1, i);
    }
  }

  ghost predicate ReportedAt(p: Progress, base: Id, n: nat, i: nat) {
    && |p.elementIds| == |p.requirementIds| == n && |p.linkIds| == 3 * n && i < n
    && p.elementIds[i] == ElementKey(base, i) && p.requirementIds[i] == RequirementKey(base, i)
    && p.linkIds[3 * i] == AllocationKey(base, i)
    && p.linkIds[3 * i + 1] == DecomposesKey(base, i) && p.linkIds[3 * i + 2] == DerivesKey(base, i)
  }

  lemma {:induction false} ReportedKeys(db: Db, p: Progress, nodes: seq<DraftNode>, up: Parents, t: Target, i: nat)
    requires Committed(db, p.db, nodes, up, t) && Tracks(db, p, nodes, up, |nodes|, t) && i < |nodes|
    ensures ReportedAt(p, db.next, |nodes|, i)
  {
    ElementIdAt(db.next, |nodes|, i);
    RequirementIdAt(db.next, |nodes|, i);
    LinkIdsAt(db.next, |nodes|, i);
  }

  /** The reported ids are those of the rows: for node `i` its element, its requirement, and its allocation,
      decomposition and derivation, in the order they were made. */
  lemma {:induction false} ReportedRows(db: Db, p: Progress, nodes: seq<DraftNode>, up: Parents, t: Target, i: nat)
    requires Committed(db, p.db, nodes, up, t) && Tracks(db, p, nodes, up, |nodes|, t) && i < |nodes|
    ensures ReportedAt(p, db.next, |nodes|, i)
    ensures
      var e, q := p.elementIds[i], p.requirementIds[i];
      && e in p.db.elements && q in p.db.requirements
      && p.db.elements[e].title == nodes[i].title
      && p.db.requirements[q].description == nodes[i].requirement.description
      && var ea, qa := p.db.elements[e].artifact, p.db.requirements[q].artifact;
         var a, d, v := p.linkIds[3 * i], p.linkIds[3 * i + 1], p.linkIds[3 * i + 2];
         && a in p.db.links && d in p.db.links && v in p.db.links
         && p.db.links[a].kind == AllocatedTo && p.db.links[a].source == qa && p.db.links[a].target == ea
         && p.db.links[d].kind == Decomposes && p.db.links[d].target == qa
         && p.db.links[v].kind == DerivesFrom && p.db.links[v].source == qa
         && p.db.links[d].source == p.db.links[v].target
  {
    ReportedKeys(db, p, nodes, up, t, i);
    CommittedTexts(db, p.db, nodes, up, t, i);
  }

  lemma {:induction false} NewIdsAreKeys(base: Id, n: nat)
    ensures NewIdsAfter(base, n) == ElementKeys(base, n) + RequirementKeys(base, n) + ArtifactKeys(base, n)
  {
    if n > 0 {
      NewIdsAreKeys(base, n - 1);
    }
  }

  lemma {:induction false} ArtifactKeyRange(base: Id, n: nat, x: Id)
    ensures x in ArtifactKeys(base, n) ==> base <= x
  {
    if n > 0 {
      ArtifactKeyRange(base, n - 1, x);
    }
  }

  /** The ids a finding is matched against are those of the added elements, requirements and artifacts, all of
      them and no others. */
  lemma {:induction false} NewIdsExactly(db: Db, p: Progress, nodes: seq<DraftNode>, up: Parents, t: Target, x: Id)
    requires Committed(db, p.db, nodes, up, t) && Tracks(db, p, nodes, up, |nodes|, t)
    ensures x in p.newIds <==>
              || (x in p.db.elements && x !in db.elements)
              || (x in p.db.requirements && x !in db.requirements)
              || (x in p.db.artifacts && x !in db.artifacts)
  {
    var b, n := db.next, |nodes|;
    NewIdsAreKeys(b, n);
    ElementKeyCount(b, n);
    RequirementKeyCount(b, n);
    ArtifactKeyRange(b, n, x);
  }

  // ---------- what it raises ----------

  /** The first of a node's five calls that raises. */
  lemma {:induction false} FirstFaultExactly(faults: set<nat>, i: nat)
    ensures FirstFault(faults, i).None? <==> forall c :: 5 * i <= c < 5 * i + 5 ==> c !in faults
    ensures FirstFault(faults, i).Some? ==>
              var c := FirstFault(faults, i).value;
              5 * i <= c < 5 * i + 5 && c in faults && forall b :: 5 * i <= b < c ==> b !in faults
  {
  }

  /** A node that fails names itself and its unknown parent, or its first call that raises. */
  lemma {:induction false} NodeFailure(p: Progress, nodes: seq<DraftNode>, i: nat, t: Target, faults: set<nat>)
    requires i < |nodes| && ReplayNode(p, nodes, i, t, faults).Raised?
    ensures
      var failure := ReplayNode(p, nodes, i, t, faults).failure;
      if nodes[i].parent.Some? && nodes[i].parent.value !in p.created
      then failure == UnknownParent(nodes[i].tempId, nodes[i].parent.value)
      else
        && failure.Rejected? && 5 * i <= failure.call < 5 * i + 5 && failure.call in faults
        && forall b :: 5 * i <= b < failure.call ==> b !in faults
  {
    FirstFaultExactly(faults, i);
  }

  /** Node `k` names no parent, or one that an earlier node goes by. */
  ghost predicate ParentNamed(nodes: seq<DraftNode>, k: nat)
    requires k < |nodes|
  {
    nodes[k].parent.Some? ==> exists j :: 0 <= j < k && nodes[j].tempId == nodes[k].parent.value
  }

  /** Node `k` gets through: its parent is there, and none of its five calls raises. */
  ghost predicate GoesThrough(nodes: seq<DraftNode>, k: nat, faults: set<nat>)
    requires k < |nodes|
  {
    ParentNamed(nodes, k) && forall c :: 5 * k <= c < 5 * k + 5 ==> c !in faults
  }

  /** What node `k` raises when it does not: its unknown parent, else its first call that raises. */
  ghost predicate FailsWith(nodes: seq<DraftNode>, k: nat, faults: set<nat>, failure: Failure)
    requires k < |nodes|
  {
    if !ParentNamed(nodes, k)
    then nodes[k].parent.Some? && failure == UnknownParent(nodes[k].tempId, nodes[k].parent.value)
    else
      && failure.Rejected? && 5 * k <= failure.call < 5 * k + 5 && failure.call in faults
      && forall b :: 5 * k <= b < failure.call ==> b !in faults
  }

  lemma {:induction false} NamedIsFound(nodes: seq<DraftNode>, k: nat)
    requires k < |nodes|
    ensures ParentNamed(nodes, k) <==> (nodes[k].parent.Some? ==> DraftGraft.ParentOf(nodes, k).Some?)
  {
    if nodes[k].parent.Some? {
      LastNamedBelow(nodes, k, nodes[k].parent.value);
    }
  }

  lemma {:induction false} StepFailure(
    db: Db, p: Progress, nodes: seq<DraftNode>, up: Parents, i: nat, t: Target, faults: set<nat>,
    step: Outcome<Progress>)
    requires i < |nodes| == |up| && up[i] == DraftGraft.ParentOf(nodes, i) && Endpoints(db, t)
    requires p.created == CreatedAfter(db.next, nodes, i) && step == ReplayNode(p, nodes, i, t, faults)
    ensures if step.Raised? then FailsWith(nodes, i, faults, step.failure) else GoesThrough(nodes, i, faults)
  {
    NamedIsFound(nodes, i);
    ParentsFound(db, nodes, up, i, t);
    FirstFaultExactly(faults, i);
  }

  /** Nodes from `i` to `k` get through, node `k` fails. */
  ghost predicate FailsFirst(nodes: seq<DraftNode>, i: nat, k: nat, faults: set<nat>, failure: Failure) {
    k < |nodes| && FailsWith(nodes, k, faults, failure) && forall j :: i <= j < k ==> GoesThrough(nodes, j, faults)
  }

  ghost predicate AllGo(nodes: seq<DraftNode>, i: nat, faults: set<nat>) {
    forall j :: i <= j < |nodes| ==> GoesThrough(nodes, j, faults)
  }

  lemma {:induction false} GoesOn(nodes: seq<DraftNode>, i: nat, faults: set<nat>)
    requires i < |nodes| && GoesThrough(nodes, i, faults) && AllGo(nodes, i + 1, faults)
    ensures AllGo(nodes, i, faults)
  {
  }

  lemma {:induction false} FailsLater(nodes: seq<DraftNode>, i: nat, k: nat, faults: set<nat>, failure: Failure)
    requires i < k && i < |nodes| && GoesThrough(nodes, i, faults) && FailsFirst(nodes, i + 1, k, faults, failure)
    ensures FailsFirst(nodes, i, k, faults, failure)
  {
  }

  lemma {:induction false} TracksCreated(db: Db, p: Progress, nodes: seq<DraftNode>, up: Parents, i: nat, t: Target)
    requires i <= |nodes| == |up| && t.root in db.elements && t.anchor in db.requirements
    requires Tracks(db, p, nodes, up, i, t)
    ensures p.created == CreatedAfter(db.next, nodes, i)
  {
  }

  lemma {:induction false} LoopFailure(
    db: Db, p: Progress, nodes: seq<DraftNode>, up: Parents, i: nat, t: Target, faults: set<nat>)
    returns (k: nat)
    requires i <= |nodes| == |up| && Rooted(up) && Endpoints(db, t) && Tracks(db, p, nodes, up, i, t)
    requires up == ParentsOf(nodes)
    ensures
      var r := Replay(p, nodes, i, t, faults);
      if r.Raised? then i <= k && FailsFirst(nodes, i, k, faults, r.failure) else AllGo(nodes, i, faults)
    decreases |nodes| - i
  {
    k := i;
    if i < |nodes| {
      var step := ReplayNode(p, nodes, i, t, faults);
      ParentsUpToAt(nodes, |nodes|, i);
      TracksCreated(db, p, nodes, up, i, t);
      IterationGrafts(db, p, nodes, up, i, t, faults);
      StepFailure(db, p, nodes, up, i, t, faults, step);
      ReplayUnfolds(p, nodes, i, t, faults, step);
      if step.Done? {
        k := LoopFailure(db, step.value, nodes, up, i + 1, t, faults);
        var r := Replay(p, nodes, i, t, faults);
        if r.Raised? {
          FailsLater(nodes, i, k, faults, r.failure);
        } else {
          GoesOn(nodes, i, faults);
        }
      }
    }
  }

  lemma {:induction false} CommitIs(
    db: Db, nodes: seq<DraftNode>, t: Target, faults: set<nat>, findings: seq<Finding>, done: Outcome<Progress>)
    requires Sound(db) && Preflight(db, t.root, t.anchor, false) == Done(t) && t.anchor in db.requirements
    requires done == Replay(Start(db, t), nodes, 0, t, faults)
    ensures
      Commit(db, nodes, t.root, t.anchor, false, faults, findings)
      == if done.Raised? then done
         else if Offending(findings, done.value.newIds) != []
           then Raised(AuditFailed(Offending(findings, done.value.newIds)))
         else done
  {
  }

  lemma {:induction false} TracksNewIds(db: Db, p: Progress, nodes: seq<DraftNode>, up: Parents, t: Target)
    requires |nodes| == |up| && t.root in db.elements && t.anchor in db.requirements
    requires Tracks(db, p, nodes, up, |nodes|, t)
    ensures p.newIds == NewIdsAfter(db.next, |nodes|)
  {
  }

  /** What a commit raises once it has begun: the first node that does not get through decides, and if all do,
      the findings that offend. */
  lemma {:induction false} CommitFailure(
    db: Db, nodes: seq<DraftNode>, t: Target, faults: set<nat>, findings: seq<Finding>)
    returns (k: nat)
    requires Sound(db) && Preflight(db, t.root, t.anchor, false) == Done(t)
    ensures
      var r := Commit(db, nodes, t.root, t.anchor, false, faults, findings);
      r.Raised? ==>
        || FailsFirst(nodes, 0, k, faults, r.failure)
        || (AllGo(nodes, 0, faults) && r.failure == AuditFailed(Offending(findings, NewIdsAfter(db.next, |nodes|))))
  {
    var up := ParentsOf(nodes);
    ParentsOfRooted(nodes);
    PreflightEndpoints(db, t.root, t.anchor, false);
    StartTracks(db, nodes, up, t);
    var done := Replay(Start(db, t), nodes, 0, t, faults);
    ReplayGrafts(db, Start(db, t), nodes, up, 0, t, faults);
    CommitIs(db, nodes, t, faults, findings, done);
    k := LoopFailure(db, Start(db, t), nodes, up, 0, t, faults);
    if done.Done? {
      TracksNewIds(db, done.value, nodes, up, t);
    }
  }

  /** The findings that stop a commit: blockers of the three rules that name a new id. */
  lemma {:induction false} OffendingExactly(findings: seq<Finding>, newIds: set<Id>, f: Finding)
    ensures f in Offending(findings, newIds) <==>
              && f in findings && f.severity == Blocker
              && (f.rule == ARCH_003 || f.rule == TRACE_P4 || f.rule == TRACE_P5)
              && exists x :: x in f.ids && x in newIds
  {
    Meets(f.ids, newIds);
    OffendingFilters(findings, newIds, f);
  }

  lemma {:induction false} Meets(a: set<Id>, b: set<Id>)
    ensures a * b != {} <==> exists x :: x in a && x in b
  {
    if x :| x in a && x in b {
      assert x in a * b;
    }
    if a * b != {} {
      var x :| x in a * b;
    }
  }

  lemma {:induction false} OffendingFilters(findings: seq<Finding>, newIds: set<Id>, f: Finding)
    ensures f in Offending(findings, newIds) <==> f in findings && Offends(f, newIds)
  {
    if findings != [] {
      OffendingFilters(findings[1..], newIds, f);
    }
  }

  lemma {:induction false} OffendingGoesOn(findings: seq<Finding>, more: Finding, newIds: set<Id>)
    ensures Offending(findings + [more], newIds)
         == Offending(findings, newIds) + if Offends(more, newIds) then [more] else []
  {
    if findings == [] {
      assert [] + [more] == [more] && [more][1..] == [];
    } else {
      OffendingGoesOn(findings[1..], more, newIds);
      assert (findings + [more])[1..] == findings[1..] + [more];
    }
  }

  lemma {:induction false} OffendingPicked(findings: seq<Finding>, n: nat, newIds: set<Id>, chosen: seq<bool>)
    requires n <= |findings| == |chosen|
    requires forall i :: 0 <= i < |findings| ==> chosen[i] == (findings[i] in Offending(findings, newIds))
    ensures Offending(findings[..n], newIds) == Picked(findings, chosen, n)
  {
    if n > 0 {
      OffendingPicked(findings, n - 1, newIds, chosen);
      OffendingFilters(findings, newIds, findings[n - 1]);
      OffendingGoesOn(findings[..n - 1], findings[n - 1], newIds);
      assert findings[..n] == findings[..n - 1] + [findings[n - 1]];
    }
  }

  /** They are raised in the order and as often as they were reported. */
  lemma {:induction false} OffendingInOrder(findings: seq<Finding>, newIds: set<Id>)
    returns (chosen: seq<bool>, at: seq<nat>)
    ensures |chosen| == |findings|
    ensures forall i :: 0 <= i < |findings| ==> chosen[i] == (findings[i] in Offending(findings, newIds))
    ensures Picks(findings, chosen, |findings|, Offending(findings, newIds), at)
  {
    chosen := seq(|findings|, i requires 0 <= i < |findings| => findings[i] in Offending(findings, newIds));
    OffendingPicked(findings, |findings|, newIds, chosen);
    assert findings[..|findings|] == findings;
    at := PickedPicks(findings, chosen, |findings|);
  }

  /** The checks before the transaction, in their order. */
  lemma {:induction false} PreflightExactly(db: Db, root: Id, anchor: Id, minimalTier: bool)
    requires Sound(db)
    ensures
      var r := Preflight(db, root, anchor, minimalTier);
      && (root !in db.elements ==> r == Raised(RootNotFound))
      && (root in db.elements && minimalTier ==> r == Raised(NotAvailable))
      && (root in db.elements && !minimalTier && anchor !in db.requirements ==> r == Raised(AnchorNotFound))
      && (root in db.elements && !minimalTier && anchor in db.requirements ==>
            var ws := db.artifacts[db.elements[root].artifact].workspace;
            if db.artifacts[db.requirements[anchor].artifact].workspace == ws
            then r == Done(Target(ws, root, anchor))
            else r == Raised(DifferentWorkspaces))
  {
  }

  /** Allocating leaves the requirement with the one new allocation; every other link stays. */
  lemma {:induction false} AllocateReplaces(db: Db, requirementArtifact: Id, elementArtifact: Id, x: Id)
    requires forall l :: l in db.links ==> l < db.next
    ensures
      var d := Allocate(db, requirementArtifact, elementArtifact);
      && (x in d.links && d.links[x].source == requirementArtifact && d.links[x].kind == AllocatedTo <==> x == db.next)
      && (x in d.links && x != db.next ==> x in db.links && d.links[x] == db.links[x])
      && (x in db.links && !(db.links[x].source == requirementArtifact && db.links[x].kind == AllocatedTo) ==>
            x in d.links && d.links[x] == db.links[x])
      && db.next in d.links && d.links[db.next] == Link(requirementArtifact, elementArtifact, AllocatedTo)
  {
  }
}
