/** The three audit rules that police a committed draft, and exactly when it passes them. */
module DraftAudit {
  import opened Text
  import opened Draft
  import opened Workspace
  import opened DraftCommit
  import opened DraftGraft
  import opened CommitFacts

  // ---------- the rules ----------

  /** A row of the workspace whose workflow state is not "outdated". */
  ghost predicate ActiveElement(d: Db, ws: Id, e: Id) {
    && e in d.elements && e !in d.outdated
    && d.elements[e].artifact in d.artifacts && d.artifacts[d.elements[e].artifact].workspace == ws
  }

  ghost predicate ActiveRequirement(d: Db, ws: Id, q: Id) {
    && q in d.requirements && q !in d.outdated
    && d.requirements[q].artifact in d.artifacts && d.artifacts[d.requirements[q].artifact].workspace == ws
  }

  /** `a` backs an active requirement; the rules know requirements by their artifact only. */
  ghost predicate ActiveArtifact(d: Db, ws: Id, a: Id) {
    exists q :: ActiveRequirement(d, ws, q) && d.requirements[q].artifact == a
  }

  ghost predicate Linked(d: Db, source: Id, target: Id, kind: LinkKind) {
    exists x :: x in d.links && d.links[x] == Link(source, target, kind)
  }

  /** The active requirement behind `a` is allocated to element `e`. */
  ghost predicate Allocated(d: Db, ws: Id, a: Id, e: Id) {
    ActiveElement(d, ws, e) && ActiveArtifact(d, ws, a) && Linked(d, a, d.elements[e].artifact, AllocatedTo)
  }

  /** TRACE-P4: an active element below something that is not an active element. */
  ghost predicate Orphan(d: Db, ws: Id, e: Id) {
    ActiveElement(d, ws, e) && d.elements[e].parent.Some? && !ActiveElement(d, ws, d.elements[e].parent.value)
  }

  /** TRACE-P5: a decomposition that is not answered by a derivation. */
  ghost predicate Unanswered(d: Db, ws: Id, parent: Id, child: Id) {
    && ActiveArtifact(d, ws, parent) && ActiveArtifact(d, ws, child)
    && Linked(d, parent, child, Decomposes) && !Linked(d, child, parent, DerivesFrom)
  }

  /** ARCH-003: a requirement of the child element that derives from none of the parent element's. */
  ghost predicate Underived(d: Db, ws: Id, a: Id, child: Id, parent: Id) {
    Allocated(d, ws, a, child) && forall above :: Allocated(d, ws, above, parent) ==> !Linked(d, a, above, DerivesFrom)
  }

  /** The requirements one ARCH-003 finding lists for a decomposition edge. */
  ghost function Violating(d: Db, ws: Id, child: Id, parent: Id): set<Id> {
    set x | x in d.links && Underived(d, ws, d.links[x].source, child, parent) :: d.links[x].source
  }

  /** `child` hangs below an active element and some requirement allocated to it is underived. */
  ghost predicate Violates(d: Db, ws: Id, child: Id) {
    && ActiveElement(d, ws, child) && d.elements[child].parent.Some?
    && ActiveElement(d, ws, d.elements[child].parent.value)
    && Violating(d, ws, child, d.elements[child].parent.value) != {}
  }

  /** The ids an ARCH-003 finding names. */
  ghost function EdgeIds(d: Db, ws: Id, child: Id): set<Id>
    requires Violates(d, ws, child)
  {
    Violating(d, ws, child, d.elements[child].parent.value) + {child, d.elements[child].parent.value}
  }

  /** The ids a TRACE-P4 finding names. */
  ghost function OrphanIds(d: Db, ws: Id, e: Id): set<Id>
    requires Orphan(d, ws, e)
  {
    {e, d.elements[e].parent.value}
  }

  /** What the extended tier reports for the three rules. */
  ghost predicate Reports(d: Db, ws: Id, f: Finding) {
    && f.severity == Blocker
    && match f.rule
       case TRACE_P4 => exists e :: Orphan(d, ws, e) && f.ids == OrphanIds(d, ws, e)
       case TRACE_P5 => exists parent: Id, child: Id :: Unanswered(d, ws, parent, child) && f.ids == {child, parent}
       case ARCH_003 => exists e :: Violates(d, ws, e) && f.ids == EdgeIds(d, ws, e)
       case OtherRule(_) => false
  }

  /** The engine's findings for the three rules are exactly what the rules report on `d`. */
  ghost predicate EngineReport(d: Db, ws: Id, findings: seq<Finding>) {
    forall f: Finding :: f.rule in {ARCH_003, TRACE_P4, TRACE_P5} ==> (f in findings <==> Reports(d, ws, f))
  }

  // ---------- a report exists ----------

  ghost function OrphanFindings(d: Db, ws: Id): set<Finding> {
    set e | e in d.elements && Orphan(d, ws, e) :: Finding(TRACE_P4, Blocker, OrphanIds(d, ws, e))
  }

  ghost function UnansweredFindings(d: Db, ws: Id): set<Finding> {
    set x | x in d.links && Unanswered(d, ws, d.links[x].source, d.links[x].target) ::
      Finding(TRACE_P5, Blocker, {d.links[x].target, d.links[x].source})
  }

  ghost function EdgeFindings(d: Db, ws: Id): set<Finding> {
    set e | e in d.elements && Violates(d, ws, e) :: Finding(ARCH_003, Blocker, EdgeIds(d, ws, e))
  }

  lemma {:induction false} OrphansReported(d: Db, ws: Id, f: Finding)
    ensures f in OrphanFindings(d, ws) <==> f.rule == TRACE_P4 && Reports(d, ws, f)
  {
  }

  lemma {:induction false} UnansweredReported(d: Db, ws: Id, f: Finding)
    ensures f in UnansweredFindings(d, ws) <==> f.rule == TRACE_P5 && Reports(d, ws, f)
  {
    if f.rule == TRACE_P5 && Reports(d, ws, f) {
      var parent: Id, child: Id :| Unanswered(d, ws, parent, child) && f.ids == {child, parent};
      var x :| x in d.links && d.links[x] == Link(parent, child, Decomposes);
      assert f == Finding(TRACE_P5, Blocker, {d.links[x].target, d.links[x].source});
    }
  }

  lemma {:induction false} EdgesReported(d: Db, ws: Id, f: Finding)
    ensures f in EdgeFindings(d, ws) <==> f.rule == ARCH_003 && Reports(d, ws, f)
  {
  }

  lemma {:induction false} Listed(s: set<Finding>) returns (q: seq<Finding>)
    ensures forall f :: f in q <==> f in s
    decreases s
  {
    if s == {} {
      q := [];
    } else {
      var f :| f in s;
      var rest := Listed(s - {f});
      q := [f] + rest;
    }
  }

  /** On any rows the rules report finitely many findings: the engine's report exists. */
  lemma {:induction false} ReportExists(d: Db, ws: Id) returns (findings: seq<Finding>)
    ensures EngineReport(d, ws, findings)
  {
    findings := Listed(OrphanFindings(d, ws) + UnansweredFindings(d, ws) + EdgeFindings(d, ws));
    forall f: Finding | f.rule in {ARCH_003, TRACE_P4, TRACE_P5}
      ensures f in findings <==> Reports(d, ws, f)
    {
      OrphansReported(d, ws, f);
      UnansweredReported(d, ws, f);
      EdgesReported(d, ws, f);
    }
  }

  // ---------- what is active after a commit ----------

  lemma {:induction false} NewIdsRange(base: Id, n: nat, x: Id)
    ensures x in NewIdsAfter(base, n) ==> x >= base
    ensures forall i :: 0 <= i < n ==> ElementKey(base, i) in NewIdsAfter(base, n)
  {
    if n > 0 {
      NewIdsRange(base, n - 1, x);
    }
  }

  lemma {:induction false} OldFindingSpared(ids: set<Id>, base: Id, n: nat)
    requires forall x :: x in ids ==> x < base
    ensures ids * NewIdsAfter(base, n) == {}
  {
    forall x | x in ids
      ensures x !in NewIdsAfter(base, n)
    {
      NewIdsRange(base, n, x);
    }
  }

  ghost predicate InWorkspace(db: Db, t: Target) {
    && Endpoints(db, t)
    && db.artifacts[db.elements[t.root].artifact].workspace == t.workspace
    && db.artifacts[db.requirements[t.anchor].artifact].workspace == t.workspace
  }

  lemma {:induction false} NewElementActive(
    db: Db, d: Db, nodes: seq<DraftNode>, up: Parents, t: Target, i: nat)
    requires Committed(db, d, nodes, up, t) && i < |nodes|
    ensures ActiveElement(d, t.workspace, ElementKey(db.next, i))
    ensures d.elements[ElementKey(db.next, i)].parent == Some(ParentElement(db.next, up, i, t))
    ensures d.elements[ElementKey(db.next, i)].artifact == ElementArtifact(db.next, i)
  {
    assert NodeRows(db, d, nodes, up, i, t);
  }

  lemma {:induction false} NewRequirementActive(
    db: Db, d: Db, nodes: seq<DraftNode>, up: Parents, t: Target, i: nat)
    requires Committed(db, d, nodes, up, t) && i < |nodes|
    ensures ActiveArtifact(d, t.workspace, RequirementArtifact(db.next, i))
  {
    assert NodeRows(db, d, nodes, up, i, t);
    assert ActiveRequirement(d, t.workspace, RequirementKey(db.next, i));
  }

  lemma {:induction false} OldElementActive(db: Db, d: Db, nodes: seq<DraftNode>, up: Parents, t: Target, e: Id)
    requires Committed(db, d, nodes, up, t) && e in db.elements
    ensures e in d.elements && d.elements[e] == db.elements[e]
    ensures ActiveElement(d, t.workspace, e) <==> ActiveElement(db, t.workspace, e)
  {
    assert db.elements[e].artifact in db.artifacts;
  }

  lemma {:induction false} ElementIs(db: Db, d: Db, nodes: seq<DraftNode>, up: Parents, t: Target, e: Id) returns (i: nat)
    requires Committed(db, d, nodes, up, t) && e in d.elements
    ensures e in db.elements || (i < |nodes| && e == ElementKey(db.next, i))
  {
    i := 0;
    if e !in db.elements {
      i := ElementOwner(db.next, |nodes|, e);
    }
  }

  lemma {:induction false} RequirementIs(db: Db, d: Db, nodes: seq<DraftNode>, up: Parents, t: Target, q: Id)
    requires Committed(db, d, nodes, up, t) && q in d.requirements
    ensures q in db.requirements || d.requirements[q].artifact >= db.next
  {
    if q !in db.requirements {
      var i := RequirementOwner(db.next, |nodes|, q);
      assert NodeRows(db, d, nodes, up, i, t);
    }
  }

  /** For artifacts that were there before, being an active requirement's artifact is unchanged. */
  lemma {:induction false} OldArtifactActive(db: Db, d: Db, nodes: seq<DraftNode>, up: Parents, t: Target, a: Id)
    requires Committed(db, d, nodes, up, t) && a < db.next
    ensures ActiveArtifact(d, t.workspace, a) <==> ActiveArtifact(db, t.workspace, a)
  {
    if ActiveArtifact(d, t.workspace, a) {
      var q :| ActiveRequirement(d, t.workspace, q) && d.requirements[q].artifact == a;
      RequirementIs(db, d, nodes, up, t, q);
      assert db.requirements[q].artifact in db.artifacts;
      assert ActiveRequirement(db, t.workspace, q);
    }
    if ActiveArtifact(db, t.workspace, a) {
      var q :| ActiveRequirement(db, t.workspace, q) && db.requirements[q].artifact == a;
      assert ActiveRequirement(d, t.workspace, q);
    }
  }

  lemma {:induction false} OldPairLinked(
    db: Db, d: Db, nodes: seq<DraftNode>, up: Parents, t: Target, source: Id, target: Id, kind: LinkKind)
    requires Committed(db, d, nodes, up, t) && source < db.next && target < db.next
    ensures Linked(d, source, target, kind) <==> Linked(db, source, target, kind)
  {
    if Linked(d, source, target, kind) {
      var x :| x in d.links && d.links[x] == Link(source, target, kind);
      var i := LinkIs(db, d, nodes, up, t, x);
      assert x in db.links;
    }
    if Linked(db, source, target, kind) {
      var x :| x in db.links && db.links[x] == Link(source, target, kind);
      assert x in d.links;
    }
  }

  // ---------- TRACE-P4 and TRACE-P5 ----------

  /** A new element is an orphan only below an inactive root. */
  lemma {:induction false} NewOrphan(db: Db, d: Db, nodes: seq<DraftNode>, up: Parents, t: Target, i: nat)
    requires Committed(db, d, nodes, up, t) && InWorkspace(db, t) && i < |nodes|
    ensures Orphan(d, t.workspace, ElementKey(db.next, i)) <==> up[i].None? && t.root in db.outdated
  {
    NewElementActive(db, d, nodes, up, t, i);
    if up[i].Some? {
      NewElementActive(db, d, nodes, up, t, up[i].value);
    } else {
      OldElementActive(db, d, nodes, up, t, t.root);
    }
  }

  /** An old orphan names old ids only. */
  lemma {:induction false} OldElementOldParent(db: Db, d: Db, nodes: seq<DraftNode>, up: Parents, t: Target, e: Id)
    requires Committed(db, d, nodes, up, t) && e in db.elements && d.elements[e].parent.Some?
    ensures e < db.next && d.elements[e].parent.value < db.next
  {
  }

  /** Every new decomposition is answered, so what stays unanswered is between old requirements. */
  lemma {:induction false} UnansweredOld(
    db: Db, d: Db, nodes: seq<DraftNode>, up: Parents, t: Target, parent: Id, child: Id)
    requires Committed(db, d, nodes, up, t) && Unanswered(d, t.workspace, parent, child)
    ensures parent < db.next && child < db.next
  {
    var x :| x in d.links && d.links[x] == Link(parent, child, Decomposes);
    var i := LinkIs(db, d, nodes, up, t, x);
    if x !in db.links {
      DerivesToParent(db, d, nodes, up, t, i);
      assert Linked(d, child, parent, DerivesFrom);
      assert false;
    }
  }

  // ---------- ARCH-003 ----------

  /** What is allocated to a new element is its own requirement and nothing else. */
  lemma {:induction false} AllocatedToNew(
    db: Db, d: Db, nodes: seq<DraftNode>, up: Parents, t: Target, i: nat, a: Id)
    requires Committed(db, d, nodes, up, t) && i < |nodes|
    ensures Allocated(d, t.workspace, a, ElementKey(db.next, i)) <==> a == RequirementArtifact(db.next, i)
  {
    NewElementActive(db, d, nodes, up, t, i);
    NewRequirementActive(db, d, nodes, up, t, i);
    assert NodeRows(db, d, nodes, up, i, t);
    assert Linked(d, RequirementArtifact(db.next, i), ElementArtifact(db.next, i), AllocatedTo);
    if Linked(d, a, ElementArtifact(db.next, i), AllocatedTo) {
      var x :| x in d.links && d.links[x] == Link(a, ElementArtifact(db.next, i), AllocatedTo);
      var k := LinkIs(db, d, nodes, up, t, x);
    }
  }

  /** What is allocated to an old element was allocated to it before. */
  lemma {:induction false} AllocatedToOld(
    db: Db, d: Db, nodes: seq<DraftNode>, up: Parents, t: Target, e: Id, a: Id)
    requires Committed(db, d, nodes, up, t) && e in db.elements && Allocated(d, t.workspace, a, e)
    ensures a < db.next && Linked(db, a, db.elements[e].artifact, AllocatedTo)
  {
    assert db.elements[e].artifact in db.artifacts;
    var x :| x in d.links && d.links[x] == Link(a, db.elements[e].artifact, AllocatedTo);
    var k := LinkIs(db, d, nodes, up, t, x);
    assert x in db.links;
  }

  /** The anchor is allocated to the root, both active: what a caller can check before committing. */
  ghost predicate Grounded(db: Db, t: Target)
    requires Endpoints(db, t)
  {
    && t.root !in db.outdated
    && ActiveArtifact(db, t.workspace, db.requirements[t.anchor].artifact)
    && Linked(db, db.requirements[t.anchor].artifact, db.elements[t.root].artifact, AllocatedTo)
  }

  /** The artifact a node's requirement derives from is allocated to the node's parent element, unless the
      node is on the draft's root level and the anchor is not grounded. */
  lemma {:induction false} ParentAllocated(db: Db, d: Db, nodes: seq<DraftNode>, up: Parents, t: Target, i: nat)
    requires Committed(db, d, nodes, up, t) && InWorkspace(db, t) && i < |nodes|
    ensures Allocated(d, t.workspace, ParentRequirementArtifact(db, up, i, t), ParentElement(db.next, up, i, t)) <==>
              (up[i].Some? || Grounded(db, t))
  {
    if up[i].Some? {
      AllocatedToNew(db, d, nodes, up, t, up[i].value, RequirementArtifact(db.next, up[i].value));
    } else {
      OldEndpoints(db, t);
      OldElementActive(db, d, nodes, up, t, t.root);
      OldArtifactActive(db, d, nodes, up, t, db.requirements[t.anchor].artifact);
      OldPairLinked(
        db, d, nodes, up, t, db.requirements[t.anchor].artifact, db.elements[t.root].artifact, AllocatedTo);
    }
  }

  lemma {:induction false} NewUnderived(db: Db, d: Db, nodes: seq<DraftNode>, up: Parents, t: Target, i: nat, a: Id)
    requires Committed(db, d, nodes, up, t) && InWorkspace(db, t) && i < |nodes|
    ensures Underived(d, t.workspace, a, ElementKey(db.next, i), ParentElement(db.next, up, i, t)) <==>
              (a == RequirementArtifact(db.next, i) && up[i].None? && !Grounded(db, t))
  {
    var ws, parent, pq := t.workspace, ParentElement(db.next, up, i, t), ParentRequirementArtifact(db, up, i, t);
    AllocatedToNew(db, d, nodes, up, t, i, a);
    ParentAllocated(db, d, nodes, up, t, i);
    if a == RequirementArtifact(db.next, i) {
      DerivesToParent(db, d, nodes, up, t, i);
      assert Linked(d, a, pq, DerivesFrom);
      forall above | Allocated(d, ws, above, parent) && Linked(d, a, above, DerivesFrom)
        ensures above == pq
      {
        assert Derives(d, a, above);
        DerivesTargetIsParent(db, d, nodes, up, t, i, above);
      }
    }
  }

  /** An ARCH-003 finding on an old element names old ids only. */
  lemma {:induction false} ViolatingOld(db: Db, d: Db, nodes: seq<DraftNode>, up: Parents, t: Target, e: Id, parent: Id)
    requires Committed(db, d, nodes, up, t) && e in db.elements
    ensures forall a :: a in Violating(d, t.workspace, e, parent) ==> a < db.next
  {
    forall a | a in Violating(d, t.workspace, e, parent)
      ensures a < db.next
    {
      AllocatedToOld(db, d, nodes, up, t, e, a);
    }
  }

  // ---------- when the audit lets a draft through ----------

  lemma {:induction false} OrphanSpared(
    db: Db, d: Db, nodes: seq<DraftNode>, up: Parents, t: Target, e: Id)
    requires Committed(db, d, nodes, up, t) && InWorkspace(db, t) && t.root !in db.outdated
    requires Orphan(d, t.workspace, e)
    ensures OrphanIds(d, t.workspace, e) * NewIdsAfter(db.next, |nodes|) == {}
  {
    var i := ElementIs(db, d, nodes, up, t, e);
    if e !in db.elements {
      NewOrphan(db, d, nodes, up, t, i);
    }
    OldElementOldParent(db, d, nodes, up, t, e);
    OldFindingSpared(OrphanIds(d, t.workspace, e), db.next, |nodes|);
  }

  /** A new element violates ARCH-003 on the root level below an anchor that is not grounded, and only there. */
  lemma {:induction false} NewViolates(db: Db, d: Db, nodes: seq<DraftNode>, up: Parents, t: Target, i: nat)
    requires Committed(db, d, nodes, up, t) && InWorkspace(db, t) && i < |nodes|
    requires Violates(d, t.workspace, ElementKey(db.next, i))
    ensures !Grounded(db, t)
  {
    var e := ElementKey(db.next, i);
    NewElementActive(db, d, nodes, up, t, i);
    var a :| a in Violating(d, t.workspace, e, d.elements[e].parent.value);
    NewUnderived(db, d, nodes, up, t, i, a);
  }

  lemma {:induction false} EdgeSpared(
    db: Db, d: Db, nodes: seq<DraftNode>, up: Parents, t: Target, e: Id)
    requires Committed(db, d, nodes, up, t) && InWorkspace(db, t) && Grounded(db, t)
    requires Violates(d, t.workspace, e)
    ensures EdgeIds(d, t.workspace, e) * NewIdsAfter(db.next, |nodes|) == {}
  {
    var i := ElementIs(db, d, nodes, up, t, e);
    if e !in db.elements {
      NewViolates(db, d, nodes, up, t, i);
    }
    OldElementOldParent(db, d, nodes, up, t, e);
    ViolatingOld(db, d, nodes, up, t, e, d.elements[e].parent.value);
    OldFindingSpared(EdgeIds(d, t.workspace, e), db.next, |nodes|);
  }

  /** Below a grounded anchor no finding of the three rules names a new id. */
  lemma {:induction false} GroundedSpared(
    db: Db, d: Db, nodes: seq<DraftNode>, up: Parents, t: Target, f: Finding)
    requires Committed(db, d, nodes, up, t) && InWorkspace(db, t) && Grounded(db, t)
    requires Reports(d, t.workspace, f)
    ensures !Offends(f, NewIdsAfter(db.next, |nodes|))
  {
    if f.rule == TRACE_P4 {
      var e :| Orphan(d, t.workspace, e) && f.ids == OrphanIds(d, t.workspace, e);
      OrphanSpared(db, d, nodes, up, t, e);
    } else if f.rule == TRACE_P5 {
      var parent: Id, child: Id :| Unanswered(d, t.workspace, parent, child) && f.ids == {child, parent};
      UnansweredOld(db, d, nodes, up, t, parent, child);
      OldFindingSpared(f.ids, db.next, |nodes|);
    } else {
      var e :| Violates(d, t.workspace, e) && f.ids == EdgeIds(d, t.workspace, e);
      EdgeSpared(db, d, nodes, up, t, e);
    }
  }

  lemma {:induction false} FirstNodeViolates(db: Db, d: Db, nodes: seq<DraftNode>, up: Parents, t: Target)
    requires Committed(db, d, nodes, up, t) && InWorkspace(db, t) && !Grounded(db, t) && nodes != []
    requires t.root !in db.outdated
    ensures Violates(d, t.workspace, ElementKey(db.next, 0))
  {
    var a := RequirementArtifact(db.next, 0);
    NewElementActive(db, d, nodes, up, t, 0);
    OldElementActive(db, d, nodes, up, t, t.root);
    NewUnderived(db, d, nodes, up, t, 0, a);
    assert NodeRows(db, d, nodes, up, 0, t);
    assert d.links[AllocationKey(db.next, 0)].source == a;
    assert a in Violating(d, t.workspace, ElementKey(db.next, 0), t.root);
  }

  lemma {:induction false} NamesNewElement(f: Finding, base: Id, n: nat)
    requires n > 0 && ElementKey(base, 0) in f.ids && f.severity == Blocker && f.rule in {ARCH_003, TRACE_P4, TRACE_P5}
    ensures Offends(f, NewIdsAfter(base, n))
  {
    NewIdsRange(base, n, ElementKey(base, 0));
    assert ElementKey(base, 0) in f.ids * NewIdsAfter(base, n);
  }

  /** Below an anchor that is not grounded, the draft's first node is reported. */
  lemma {:induction false} UngroundedReported(
    db: Db, d: Db, nodes: seq<DraftNode>, up: Parents, t: Target) returns (f: Finding)
    requires Committed(db, d, nodes, up, t) && InWorkspace(db, t) && !Grounded(db, t) && nodes != []
    ensures Reports(d, t.workspace, f) && Offends(f, NewIdsAfter(db.next, |nodes|))
  {
    var e := ElementKey(db.next, 0);
    if t.root in db.outdated {
      NewOrphan(db, d, nodes, up, t, 0);
      f := Finding(TRACE_P4, Blocker, OrphanIds(d, t.workspace, e));
    } else {
      FirstNodeViolates(db, d, nodes, up, t);
      f := Finding(ARCH_003, Blocker, EdgeIds(d, t.workspace, e));
    }
    NamesNewElement(f, db.next, |nodes|);
  }

  /** A non-empty draft passes the audit exactly when its anchor was grounded before the commit. */
  lemma {:induction false} AuditPasses(
    db: Db, d: Db, nodes: seq<DraftNode>, up: Parents, t: Target, findings: seq<Finding>)
    requires Committed(db, d, nodes, up, t) && InWorkspace(db, t) && EngineReport(d, t.workspace, findings)
    ensures (forall f :: f in findings ==> !Offends(f, NewIdsAfter(db.next, |nodes|))) <==>
              (nodes == [] || Grounded(db, t))
  {
    if nodes != [] && !Grounded(db, t) {
      var f := UngroundedReported(db, d, nodes, up, t);
      assert f in findings;
    } else {
      forall f | f in findings
        ensures !Offends(f, NewIdsAfter(db.next, |nodes|))
      {
        if nodes != [] && f.rule in {ARCH_003, TRACE_P4, TRACE_P5} {
          GroundedSpared(db, d, nodes, up, t, f);
        }
      }
    }
  }
}
