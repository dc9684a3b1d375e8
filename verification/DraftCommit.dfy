/** `commit_draft`: replaying a draft into rows inside one transaction. */
module DraftCommit {
  import opened Text
  import opened Draft
  import opened Workspace

  datatype Severity = Blocker | Warning

  datatype RuleId = ARCH_003 | TRACE_P4 | TRACE_P5 | OtherRule(name: string)

  /** One audit finding with the ids it names. */
  datatype Finding = Finding(rule: RuleId, severity: Severity, ids: set<Id>)

  datatype Failure =
    | RootNotFound
    | NotAvailable
    | AnchorNotFound
    | DifferentWorkspaces
    | UnknownParent(tempId: string, parent: string)
    | Rejected(call: nat)
    | AuditFailed(findings: seq<Finding>)

  datatype Outcome<+T> = Done(value: T) | Raised(failure: Failure)

  /** What the replay loop has built so far. */
  datatype Progress = Progress(
    db: Db,
    created: map<string, (Id, Id)>,
    requirementArtifacts: map<Id, Id>,
    newIds: set<Id>,
    elementIds: seq<Id>,
    requirementIds: seq<Id>,
    linkIds: seq<Id>)

  /** The committed endpoints the draft hangs off. */
  datatype Target = Target(workspace: Id, root: Id, anchor: Id)

  function Rationale(r: DraftRequirement): Option<string> {
    if r.rationale != "" then Some(r.rationale) else None
  }

  function RequirementTitle(n: DraftNode): string {
    if n.requirement.title != "" then n.requirement.title else n.title
  }

  /** `_resolve_parents`: the parent element and the parent requirement. */
  function ResolveParents(n: DraftNode, t: Target, created: map<string, (Id, Id)>): Outcome<(Id, Id)> {
    if n.parent.None? then Done((t.root, t.anchor))
    else if n.parent.value in created then Done(created[n.parent.value])
    else Raised(UnknownParent(n.tempId, n.parent.value))
  }

  /** The number of the first service call node `i` makes. Every node makes five, and any of them may raise. */
  function FirstCall(i: nat): nat {
    5 * i
  }

  /** The rows one node adds once its parents are known. */
  function InsertNode(p: Progress, n: DraftNode, t: Target, parentElement: Id, parentRequirement: Id): Progress {
    var db1 := CreateElement(
                 p.db, t.workspace, parentElement, n.title, n.description, n.elementType, Rationale(n.requirement));
    var elementArtifact, element := p.db.next, p.db.next + 1;
    var parentArtifact :=
      if parentRequirement in p.requirementArtifacts then Some(p.requirementArtifacts[parentRequirement]) else None;
    var db2 := CreateRequirement(
                 db1, t.workspace, parentArtifact, RequirementTitle(n), n.requirement.description,
                 Rationale(n.requirement));
    var reqArtifact, requirement := db1.next, db1.next + 1;
    Progress(
      db2,
      p.created[n.tempId := (element, requirement)],
      p.requirementArtifacts[requirement := reqArtifact],
      p.newIds + {element, elementArtifact, requirement, reqArtifact},
      p.elementIds + [element],
      p.requirementIds + [requirement],
      p.linkIds)
  }

  /** A link endpoint may be given as a requirement key or directly as an artifact key. */
  function ResolveArtifact(db: Db, id: Id): Id {
    if id in db.requirements then db.requirements[id].artifact else id
  }

  /** `_link_node`: the three links of one node, endpoints resolved to artifacts. */
  function LinkNode(
    p: Progress, elementArtifact: Id, requirementArtifact: Id, parentRequirement: Id): Progress
  {
    var parentArtifact := ResolveArtifact(p.db, parentRequirement);
    var db1 := Allocate(p.db, requirementArtifact, elementArtifact);
    var db2 := CreateLink(db1, parentArtifact, requirementArtifact, Decomposes);
    var db3 := CreateLink(db2, requirementArtifact, parentArtifact, DerivesFrom);
    p.(db := db3, linkIds := p.linkIds + [p.db.next, db1.next, db2.next])
  }

  /** The first of the five calls of node `i` that raises. */
  function FirstFault(faults: set<nat>, i: nat): Option<nat> {
    var c := FirstCall(i);
    if c in faults then Some(c)
    else if c + 1 in faults then Some(c + 1)
    else if c + 2 in faults then Some(c + 2)
    else if c + 3 in faults then Some(c + 3)
    else if c + 4 in faults then Some(c + 4)
    else None
  }

  /** One iteration of the loop, node number `i`. */
  function ReplayNode(p: Progress, nodes: seq<DraftNode>, i: nat, t: Target, faults: set<nat>): Outcome<Progress>
    requires i < |nodes|
  {
    var parents := ResolveParents(nodes[i], t, p.created);
    if parents.Raised? then Raised(parents.failure)
    else
      var fault := FirstFault(faults, i);
      if fault.Some? then Raised(Rejected(fault.value))
      else
        var q := InsertNode(p, nodes[i], t, parents.value.0, parents.value.1);
        Done(LinkNode(q, p.db.next, p.db.next + 2, parents.value.1))
  }

  function Start(db: Db, t: Target): Progress
    requires t.anchor in db.requirements
  {
    Progress(db, map[], map[t.anchor := db.requirements[t.anchor].artifact], {}, [], [], [])
  }

  /** The rest of the loop from node `i` on. */
  function Replay(p: Progress, nodes: seq<DraftNode>, i: nat, t: Target, faults: set<nat>): Outcome<Progress>
    requires i <= |nodes|
    decreases |nodes| - i
  {
    if i == |nodes| then Done(p)
    else
      var step := ReplayNode(p, nodes, i, t, faults);
      if step.Raised? then step else Replay(step.value, nodes, i + 1, t, faults)
  }

  /** The findings that make `_verify_or_rollback` raise. */
  predicate Offends(f: Finding, newIds: set<Id>) {
    f.rule in {ARCH_003, TRACE_P4, TRACE_P5} && f.severity == Blocker && f.ids * newIds != {}
  }

  function Offending(findings: seq<Finding>, newIds: set<Id>): seq<Finding> {
    if findings == [] then []
    else (if Offends(findings[0], newIds) then [findings[0]] else []) + Offending(findings[1..], newIds)
  }

  /** Everything `commit_draft` checks before it opens the transaction. */
  function Preflight(db: Db, root: Id, anchor: Id, minimalTier: bool): Outcome<Target>
    requires Sound(db)
  {
    if root !in db.elements then Raised(RootNotFound)
    else
      var workspace := db.artifacts[db.elements[root].artifact].workspace;
      if minimalTier then Raised(NotAvailable)
      else if anchor !in db.requirements then Raised(AnchorNotFound)
      else if db.artifacts[db.requirements[anchor].artifact].workspace != workspace then Raised(DifferentWorkspaces)
      else Done(Target(workspace, root, anchor))
  }

  /** The outcome of the whole call, given which service calls raise and what the rule engine reports on
      the rows as they stand at the end of the loop. */
  function Commit(
    db: Db, nodes: seq<DraftNode>, root: Id, anchor: Id, minimalTier: bool, faults: set<nat>, findings: seq<Finding>)
    : Outcome<Progress>
    requires Sound(db)
  {
    var target := Preflight(db, root, anchor, minimalTier);
    if target.Raised? then Raised(target.failure)
    else
      var done := Replay(Start(db, target.value), nodes, 0, target.value, faults);
      if done.Raised? then Raised(done.failure)
      else
        var offending := Offending(findings, done.value.newIds);
        if offending != [] then Raised(AuditFailed(offending)) else done
  }

  /** A workspace store whose rows a transaction changes in place. */
  class Store {
    var db: Db

    constructor (db: Db)
      ensures this.db == db
    {
      this.db := db;
    }

    /** `commit_draft`. The transaction keeps a snapshot; leaving the block through an exception restores
        it. `findings` is what the rule engine reports on the rows it sees before the block is left. */
    method CommitDraft(
      nodes: seq<DraftNode>, root: Id, anchor: Id, minimalTier: bool, faults: set<nat>, findings: seq<Finding>)
      returns (r: Outcome<Progress>)
      requires Sound(db)
      modifies this
      ensures r == Commit(old(db), nodes, root, anchor, minimalTier, faults, findings)
      ensures r.Done? ==> db == r.value.db
      ensures r.Raised? ==> db == old(db)
    {
      var target := Preflight(db, root, anchor, minimalTier);
      if target.Raised? {
        return Raised(target.failure);
      }
      var snapshot := db;
      var p := Start(db, target.value);
      for i := 0 to |nodes|
        invariant snapshot == old(db) && db == p.db
        invariant Replay(Start(old(db), target.value), nodes, 0, target.value, faults)
               == Replay(p, nodes, i, target.value, faults)
      {
        var step := PersistNode(p, nodes, i, target.value, faults);
        if step.Raised? {
          db := snapshot;
          return Raised(step.failure);
        }
        p := step.value;
      }
      var offending := Offending(findings, p.newIds);
      if offending != [] {
        db := snapshot;
        return Raised(AuditFailed(offending));
      }
      return Done(p);
    }

    /** The loop body: five service calls that write one after the other, any of which may raise and
        leave the earlier ones behind for the transaction to undo. */
    method PersistNode(p: Progress, nodes: seq<DraftNode>, i: nat, t: Target, faults: set<nat>)
      returns (r: Outcome<Progress>)
      requires i < |nodes| && db == p.db
      modifies this
      ensures r == ReplayNode(p, nodes, i, t, faults)
      ensures r.Done? ==> db == r.value.db
    {
      var n := nodes[i];
      var parents := ResolveParents(n, t, p.created);
      if parents.Raised? {
        return Raised(parents.failure);
      }
      var (parentElement, parentRequirement) := parents.value;
      var call := FirstCall(i);
      if call in faults {
        return Raised(Rejected(call));
      }
      var elementArtifact, element := db.next, db.next + 1;
      db := CreateElement(
        db, t.workspace, parentElement, n.title, n.description, n.elementType, Rationale(n.requirement));
      if call + 1 in faults {
        return Raised(Rejected(call + 1));
      }
      var requirementArtifact, requirement := db.next, db.next + 1;
      var parentArtifact :=
        if parentRequirement in p.requirementArtifacts then Some(p.requirementArtifacts[parentRequirement]) else None;
      db := CreateRequirement(
        db, t.workspace, parentArtifact, RequirementTitle(n), n.requirement.description, Rationale(n.requirement));
      var q := p.(
        created := p.created[n.tempId := (element, requirement)],
        requirementArtifacts := p.requirementArtifacts[requirement := requirementArtifact],
        newIds := p.newIds + {element, elementArtifact, requirement, requirementArtifact},
        elementIds := p.elementIds + [element],
        requirementIds := p.requirementIds + [requirement]);
      if call + 2 in faults {
        return Raised(Rejected(call + 2));
      }
      var first := db.next;
      db := Allocate(db, requirementArtifact, elementArtifact);
      if call + 3 in faults {
        return Raised(Rejected(call + 3));
      }
      var source := ResolveArtifact(db, parentRequirement);
      var second := db.next;
      db := CreateLink(db, source, requirementArtifact, Decomposes);
      if call + 4 in faults {
        return Raised(Rejected(call + 4));
      }
      var third := db.next;
      db := CreateLink(db, requirementArtifact, source, DerivesFrom);
      return Done(q.(db := db, linkIds := q.linkIds + [first, second, third]));
    }
  }
}
