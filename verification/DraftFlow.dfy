/** The two phases together: a draft proposed by `generate_draft`, echoed back by the client and
    handed to `commit_draft`. */
module DraftFlow {
  import opened Text
  import opened PyJson
  import opened Draft
  import opened Workspace
  import opened DraftCommit
  import opened DraftGraft
  import opened CommitFacts
  import opened DraftAudit
  import FlattenFacts
  import FlattenTree

  lemma {:induction false} PreflightWorkspace(db: Db, t: Target, minimalTier: bool)
    requires Sound(db) && Preflight(db, t.root, t.anchor, minimalTier) == Done(t)
    ensures InWorkspace(db, t)
  {
  }

  /** The rule engine sees the rows the loop left behind. */
  ghost predicate Audited(db: Db, nodes: seq<DraftNode>, t: Target, faults: set<nat>, findings: seq<Finding>)
    requires t.anchor in db.requirements
  {
    var done := Replay(Start(db, t), nodes, 0, t, faults);
    done.Done? ==> EngineReport(done.value.db, t.workspace, findings)
  }

  /** Whatever the loop leaves behind, the engine has a report on it. */
  lemma {:induction false} AuditedExists(db: Db, nodes: seq<DraftNode>, t: Target, faults: set<nat>)
    returns (findings: seq<Finding>)
    requires t.anchor in db.requirements
    ensures Audited(db, nodes, t, faults, findings)
  {
    var done := Replay(Start(db, t), nodes, 0, t, faults);
    findings := ReportExists(if done.Done? then done.value.db else db, t.workspace);
  }

  /** With the three rules as they are, `commit_draft` succeeds exactly when every node can be replayed and
      the anchor was allocated to the root, both active, beforehand. */
  lemma {:induction false} CommitSucceeds(
    db: Db, nodes: seq<DraftNode>, t: Target, minimalTier: bool, faults: set<nat>, findings: seq<Finding>)
    requires Sound(db) && Preflight(db, t.root, t.anchor, minimalTier) == Done(t)
    requires Audited(db, nodes, t, faults, findings)
    ensures |ParentsOf(nodes)| == |nodes| && Endpoints(db, t)
    ensures Commit(db, nodes, t.root, t.anchor, minimalTier, faults, findings).Done? <==>
              && (forall i :: 0 <= i < |nodes| ==> Replays(nodes, ParentsOf(nodes), i, faults))
              && (nodes == [] || Grounded(db, t))
  {
    var up := ParentsOf(nodes);
    PreflightWorkspace(db, t, minimalTier);
    CommitOutcome(db, nodes, t, minimalTier, faults, findings);
    CommitOutcome(db, nodes, t, minimalTier, faults, []);
    var done := Commit(db, nodes, t.root, t.anchor, minimalTier, faults, []);
    if done.Done? {
      AuditPasses(db, done.value.db, nodes, up, t, findings);
    }
  }

  /** Blockers that name only rows that were there before never cause a rollback. */
  lemma {:induction false} OldBlockersIgnored(findings: seq<Finding>, base: Id, n: nat)
    requires forall f, x :: f in findings && x in f.ids ==> x < base
    ensures Offending(findings, NewIdsAfter(base, n)) == []
  {
    forall f | f in findings
      ensures !Offends(f, NewIdsAfter(base, n))
    {
      OldFindingSpared(f.ids, base, n);
    }
    OffendingNone(findings, NewIdsAfter(base, n));
  }

  /** A root and an anchor of one workspace, both active, without an allocation between them. */
  ghost function Unallocated(): Db {
    Db(map[1 := Element(0, None, "root", "", "component")], map[3 := Requirement(2, "anchor", "")],
       map[0 := Artifact(9, None, None), 2 := Artifact(9, None, None)], map[], {}, 10)
  }

  lemma {:induction false} UnallocatedAccepted(t: Target)
    requires t == Target(9, 1, 3)
    ensures Sound(Unallocated()) && Preflight(Unallocated(), t.root, t.anchor, false) == Done(t)
    ensures Endpoints(Unallocated(), t) && Unallocated().outdated == {}
  {
  }

  lemma {:induction false} UnallocatedNotGrounded(t: Target)
    requires Endpoints(Unallocated(), t)
    ensures !Grounded(Unallocated(), t)
  {
    assert Unallocated().links == map[];
  }

  lemma {:induction false} RootLevelReplays(node: DraftNode)
    requires node.parent.None?
    ensures |ParentsOf([node])| == 1 && Replays([node], ParentsOf([node]), 0, {})
  {
    ParentsUpToAt([node], 1, 0);
  }

  /** "By construction" does not hold for every accepted pair of endpoints: this one passes every check up
      front, its one node is replayed without a fault, and the audit rolls it back. */
  lemma {:induction false} UnallocatedRolledBack(node: DraftNode, t: Target) returns (findings: seq<Finding>)
    requires node.parent.None? && t == Target(9, 1, 3)
    ensures Sound(Unallocated()) && Preflight(Unallocated(), t.root, t.anchor, false) == Done(t)
    ensures Endpoints(Unallocated(), t) && Audited(Unallocated(), [node], t, {}, findings)
    ensures
      var r := Commit(Unallocated(), [node], t.root, t.anchor, false, {}, findings);
      r.Raised? && r.failure.AuditFailed?
  {
    UnallocatedAccepted(t);
    findings := AuditedExists(Unallocated(), [node], t, {});
    CommitSucceeds(Unallocated(), [node], t, false, {}, findings);
    UnallocatedNotGrounded(t);
    RootLevelReplays(node);
    CommitOutcome(Unallocated(), [node], t, false, {}, []);
    CommitUnfolds(Unallocated(), [node], t, false, {}, findings);
  }

  /** A commit whose loop goes through can only be stopped by the audit. */
  lemma {:induction false} CommitUnfolds(
    db: Db, nodes: seq<DraftNode>, t: Target, minimalTier: bool, faults: set<nat>, findings: seq<Finding>)
    requires Sound(db) && Preflight(db, t.root, t.anchor, minimalTier) == Done(t)
    requires Commit(db, nodes, t.root, t.anchor, minimalTier, faults, []).Done?
    ensures
      var r := Commit(db, nodes, t.root, t.anchor, minimalTier, faults, findings);
      r.Raised? ==> r.failure.AuditFailed?
  {
  }

  /** `_resolve_anchor_requirement`: the lowest-numbered requirement allocated to the element. Outdated
      requirements are not skipped. */
  ghost predicate Carries(db: Db, root: Id, q: Id) {
    && root in db.elements && q in db.requirements
    && Linked(db, db.requirements[q].artifact, db.elements[root].artifact, AllocatedTo)
  }

  ghost predicate IsAnchor(db: Db, root: Id, q: Id) {
    Carries(db, root, q) && forall other :: Carries(db, root, other) ==> q <= other
  }

  /** No two requirements share a backing artifact. */
  ghost predicate OwnArtifacts(db: Db) {
    forall p, q :: p in db.requirements && q in db.requirements && p != q ==>
      db.requirements[p].artifact != db.requirements[q].artifact
  }

  lemma {:induction false} AnchorActive(db: Db, t: Target)
    requires InWorkspace(db, t) && OwnArtifacts(db)
    ensures ActiveArtifact(db, t.workspace, db.requirements[t.anchor].artifact) <==> t.anchor !in db.outdated
  {
    if t.anchor !in db.outdated {
      assert ActiveRequirement(db, t.workspace, t.anchor);
    }
  }

  lemma {:induction false} ReplayableResolves(nodes: seq<DraftNode>, i: nat)
    requires i < |nodes| && FlattenFacts.ParentsStandFirst(nodes)
    ensures nodes[i].parent.Some? ==> |ParentsOf(nodes)| == |nodes| && ParentsOf(nodes)[i].Some?
  {
    ParentsUpToAt(nodes, |nodes|, i);
    assert FlattenFacts.ParentBefore(nodes, i);
    if nodes[i].parent.Some? {
      LastNamedBelow(nodes, i, nodes[i].parent.value);
    }
  }

  /** How a draft writes a key. */
  function KeyText(id: Id): string {
    Decimal(id)
  }

  lemma {:induction false} KeyTextTrimmed(id: Id)
    ensures KeyText(id) != "" && Trimmed(KeyText(id))
  {
    DecimalDigits(id);
    var s := KeyText(id);
    assert IsDigit(s[0]) && IsDigit(s[|s| - 1]);
  }

  /** The draft `generate_draft` returns for an element: the flattened answer, the element, and its anchor. */
  ghost predicate Generated(
    db: Db, draft: DecompositionDraft, tree: seq<Json>, maxBreadth: int, maxDepth: int, root: Id, anchor: Id)
  {
    && FlattenTree.Emit([], FlattenTree.Pruned(tree, maxBreadth, maxDepth), None, "n") == Some(draft.nodes)
    && draft.nodes != []
    && IsAnchor(db, root, anchor)
    && draft.rootElementId == KeyText(root) && draft.parentRequirementId == KeyText(anchor)
  }

  /** The client's copy of a generated draft is the draft itself. */
  lemma {:induction false} GeneratedRoundTrip(
    db: Db, draft: DecompositionDraft, tree: seq<Json>, maxBreadth: int, maxDepth: int, root: Id, anchor: Id)
    requires Generated(db, draft, tree, maxBreadth, maxDepth, root, anchor)
    ensures FromDict(ToDict(draft)) == Ok(draft) && FlattenFacts.Replayable(draft.nodes)
  {
    FlattenFacts.FlattenedCanonical(tree, maxBreadth, maxDepth, draft.nodes);
    FlattenFacts.FlattenedReplayable(FlattenTree.Pruned(tree, maxBreadth, maxDepth), draft.nodes);
    KeyTextTrimmed(root);
    KeyTextTrimmed(anchor);
    DraftRoundTrip(draft);
  }

  /** The artifacts of root and anchor lie in one workspace; generating does not check that. */
  ghost predicate OneWorkspace(db: Db, root: Id, anchor: Id)
    requires Sound(db) && root in db.elements && anchor in db.requirements
  {
    db.artifacts[db.requirements[anchor].artifact].workspace == db.artifacts[db.elements[root].artifact].workspace
  }

  function TargetOf(db: Db, root: Id, anchor: Id): Target
    requires Sound(db) && root in db.elements
  {
    Target(db.artifacts[db.elements[root].artifact].workspace, root, anchor)
  }

  /** When the checks before the transaction let a commit through. */
  lemma {:induction false} PreflightPasses(db: Db, root: Id, anchor: Id, minimalTier: bool)
    requires Sound(db) && root in db.elements && anchor in db.requirements
    ensures Preflight(db, root, anchor, minimalTier)
         == if minimalTier then Raised(NotAvailable)
            else if !OneWorkspace(db, root, anchor) then Raised(DifferentWorkspaces)
            else Done(TargetOf(db, root, anchor))
  {
  }

  /** The commit once the checks have let it through. */
  lemma {:induction false} AcceptedCommits(
    db: Db, nodes: seq<DraftNode>, t: Target, faults: set<nat>, findings: seq<Finding>)
    requires Sound(db) && OwnArtifacts(db) && Preflight(db, t.root, t.anchor, false) == Done(t)
    requires nodes != [] && FlattenFacts.Replayable(nodes) && Carries(db, t.root, t.anchor)
    requires Audited(db, nodes, t, faults, findings)
    ensures
      var r := Commit(db, nodes, t.root, t.anchor, false, faults, findings);
      && (r.Done? <==>
            && (forall i :: 0 <= i < |nodes| ==> FirstFault(faults, i).None?)
            && t.root !in db.outdated && t.anchor !in db.outdated)
      && (r.Raised? ==> r.failure.Rejected? || r.failure.AuditFailed?)
  {
    PreflightWorkspace(db, t, false);
    AnchorActive(db, t);
    CommitSucceeds(db, nodes, t, false, faults, findings);
    forall i | 0 <= i < |nodes|
      ensures Replays(nodes, ParentsOf(nodes), i, faults) <==> FirstFault(faults, i).None?
    {
      ReplayableResolves(nodes, i);
    }
    ReplayableOnlyRejected(db, nodes, t, faults);
  }

  /** Committing the client's unmodified copy of a generated draft against the rows it was generated from. The
      copy names the element and the anchor it was generated for, the parent map never fails, and the commit
      succeeds exactly when the workspace is not minimal, the anchor lies in the element's workspace, no service
      call raises and neither the element nor its anchor is outdated. */
  lemma {:induction false} GeneratedCommits(
    db: Db, draft: DecompositionDraft, tree: seq<Json>, maxBreadth: int, maxDepth: int, root: Id, anchor: Id,
    echo: DecompositionDraft, echoRoot: Id, echoAnchor: Id, minimalTier: bool, faults: set<nat>,
    findings: seq<Finding>)
    requires Sound(db) && OwnArtifacts(db) && Generated(db, draft, tree, maxBreadth, maxDepth, root, anchor)
    requires FromDict(ToDict(draft)) == Ok(echo)
    requires echo.rootElementId == KeyText(echoRoot) && echo.parentRequirementId == KeyText(echoAnchor)
    requires Audited(db, echo.nodes, TargetOf(db, root, anchor), faults, findings)
    ensures echo == draft && echoRoot == root && echoAnchor == anchor
    ensures
      var r := Commit(db, echo.nodes, echoRoot, echoAnchor, minimalTier, faults, findings);
      && (r.Done? <==>
            && !minimalTier && OneWorkspace(db, root, anchor)
            && (forall i :: 0 <= i < |draft.nodes| ==> FirstFault(faults, i).None?)
            && root !in db.outdated && anchor !in db.outdated)
      && (r.Raised? && minimalTier ==> r.failure == NotAvailable)
      && (r.Raised? && !minimalTier && !OneWorkspace(db, root, anchor) ==> r.failure == DifferentWorkspaces)
      && (r.Raised? && !minimalTier && OneWorkspace(db, root, anchor) ==> r.failure.Rejected? || r.failure.AuditFailed?)
  {
    GeneratedRoundTrip(db, draft, tree, maxBreadth, maxDepth, root, anchor);
    DecimalInjective(root, echoRoot);
    DecimalInjective(anchor, echoAnchor);
    PreflightPasses(db, root, anchor, minimalTier);
    if !minimalTier && OneWorkspace(db, root, anchor) {
      AcceptedCommits(db, draft.nodes, TargetOf(db, root, anchor), faults, findings);
    }
  }
}
