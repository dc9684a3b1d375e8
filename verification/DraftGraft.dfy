/** What an accepted draft adds to the workspace: one subtree hung below the root
    element and the anchor requirement, the same in all its representations. */
module DraftGraft {
  import opened Text
  import opened Draft
  import opened Workspace
  import opened DraftCommit

  // ---------- reference: where each node's rows go ----------

  /** The keys node `i` receives when the first free key is `base`. */
  function ElementArtifact(base: Id, i: nat): Id { base + 7 * i }
  function ElementKey(base: Id, i: nat): Id { base + 7 * i + 1 }
  function RequirementArtifact(base: Id, i: nat): Id { base + 7 * i + 2 }
  function RequirementKey(base: Id, i: nat): Id { base + 7 * i + 3 }
  function AllocationKey(base: Id, i: nat): Id { base + 7 * i + 4 }
  function DecomposesKey(base: Id, i: nat): Id { base + 7 * i + 5 }
  function DerivesKey(base: Id, i: nat): Id { base + 7 * i + 6 }

  /** The last of the first `n` nodes that carries `name`. */
  function LastNamed(nodes: seq<DraftNode>, n: nat, name: string): Option<nat>
    requires n <= |nodes|
  {
    if n == 0 then None
    else if nodes[n - 1].tempId == name then Some(n - 1)
    else LastNamed(nodes, n - 1, name)
  }

  /** The node that node `i` hangs below; `None` for the draft's root level. */
  function ParentOf(nodes: seq<DraftNode>, i: nat): Option<nat>
    requires i < |nodes|
  {
    if nodes[i].parent.None? then None else LastNamed(nodes, i, nodes[i].parent.value)
  }

  /** For every node, the node it hangs below. */
  type Parents = seq<Option<nat>>

  function ParentsUpTo(nodes: seq<DraftNode>, n: nat): Parents
    requires n <= |nodes|
  {
    if n == 0 then [] else ParentsUpTo(nodes, n - 1) + [ParentOf(nodes, n - 1)]
  }

  function ParentsOf(nodes: seq<DraftNode>): Parents {
    ParentsUpTo(nodes, |nodes|)
  }

  ghost predicate Rooted(up: Parents) {
    forall i :: 0 <= i < |up| && up[i].Some? ==> up[i].value < i
  }

  function ParentElement(base: Id, up: Parents, i: nat, t: Target): Id
    requires i < |up|
  {
    if up[i].None? then t.root else ElementKey(base, up[i].value)
  }

  function ParentRequirement(base: Id, up: Parents, i: nat, t: Target): Id
    requires i < |up|
  {
    if up[i].None? then t.anchor else RequirementKey(base, up[i].value)
  }

  function ParentElementArtifact(db: Db, up: Parents, i: nat, t: Target): Id
    requires i < |up| && t.root in db.elements
  {
    if up[i].None? then db.elements[t.root].artifact else ElementArtifact(db.next, up[i].value)
  }

  function ParentRequirementArtifact(db: Db, up: Parents, i: nat, t: Target): Id
    requires i < |up| && t.anchor in db.requirements
  {
    if up[i].None? then db.requirements[t.anchor].artifact else RequirementArtifact(db.next, up[i].value)
  }

  ghost predicate Endpoints(db: Db, t: Target) {
    Sound(db) && t.root in db.elements && t.anchor in db.requirements
  }

  /** The rows one node adds to `d`, given the artifacts its two parents stand on. */
  function AddRows(d: Db, n: DraftNode, t: Target, parentElement: Id, elementParent: Id, requirementParent: Id): Db {
    var b := d.next;
    Db(
      d.elements[b + 1 := Element(b, Some(parentElement), n.title, n.description, n.elementType)],
      d.requirements[b + 3 := Requirement(b + 2, RequirementTitle(n), n.requirement.description)],
      d.artifacts[b := Artifact(t.workspace, Some(elementParent), Rationale(n.requirement))]
                 [b + 2 := Artifact(t.workspace, Some(requirementParent), Rationale(n.requirement))],
      d.links[b + 4 := Link(b + 2, b, AllocatedTo)]
             [b + 5 := Link(requirementParent, b + 2, Decomposes)]
             [b + 6 := Link(b + 2, requirementParent, DerivesFrom)],
      d.outdated,
      b + 7)
  }

  // The keys handed out to the first `n` nodes, table by table.

  ghost function ElementKeys(base: Id, n: nat): set<Id> {
    if n == 0 then {} else ElementKeys(base, n - 1) + {ElementKey(base, n - 1)}
  }

  ghost function RequirementKeys(base: Id, n: nat): set<Id> {
    if n == 0 then {} else RequirementKeys(base, n - 1) + {RequirementKey(base, n - 1)}
  }

  ghost function LinkKeys(base: Id, n: nat): set<Id> {
    if n == 0 then {}
    else LinkKeys(base, n - 1) + {AllocationKey(base, n - 1), DecomposesKey(base, n - 1), DerivesKey(base, n - 1)}
  }

  ghost function ArtifactKeys(base: Id, n: nat): set<Id> {
    if n == 0 then {} else ArtifactKeys(base, n - 1) + {ElementArtifact(base, n - 1), RequirementArtifact(base, n - 1)}
  }

  /** Rows that were there before stay as they were. */
  ghost predicate Extends(d: Db, d': Db) {
    && (forall x :: x in d.elements ==> x in d'.elements && d'.elements[x] == d.elements[x])
    && (forall x :: x in d.requirements ==> x in d'.requirements && d'.requirements[x] == d.requirements[x])
    && (forall x :: x in d.artifacts ==> x in d'.artifacts && d'.artifacts[x] == d.artifacts[x])
    && (forall x :: x in d.links ==> x in d'.links && d'.links[x] == d.links[x])
  }

  /** The rows and links of node `i` as they stand in `d`. */
  ghost predicate NodeRows(db: Db, d: Db, nodes: seq<DraftNode>, up: Parents, i: nat, t: Target)
    requires i < |nodes| == |up| && t.root in db.elements && t.anchor in db.requirements
  {
    var b, n := db.next, nodes[i];
    var pe, pq := ParentElementArtifact(db, up, i, t), ParentRequirementArtifact(db, up, i, t);
    && ElementKey(b, i) in d.elements
    && d.elements[ElementKey(b, i)]
       == Element(ElementArtifact(b, i), Some(ParentElement(b, up, i, t)), n.title, n.description, n.elementType)
    && ElementArtifact(b, i) in d.artifacts
    && d.artifacts[ElementArtifact(b, i)] == Artifact(t.workspace, Some(pe), Rationale(n.requirement))
    && RequirementKey(b, i) in d.requirements
    && d.requirements[RequirementKey(b, i)]
       == Requirement(RequirementArtifact(b, i), RequirementTitle(n), n.requirement.description)
    && RequirementArtifact(b, i) in d.artifacts
    && d.artifacts[RequirementArtifact(b, i)] == Artifact(t.workspace, Some(pq), Rationale(n.requirement))
    && AllocationKey(b, i) in d.links
    && d.links[AllocationKey(b, i)] == Link(RequirementArtifact(b, i), ElementArtifact(b, i), AllocatedTo)
    && DecomposesKey(b, i) in d.links
    && d.links[DecomposesKey(b, i)] == Link(pq, RequirementArtifact(b, i), Decomposes)
    && DerivesKey(b, i) in d.links
    && d.links[DerivesKey(b, i)] == Link(RequirementArtifact(b, i), pq, DerivesFrom)
  }

  ghost predicate KeysAdded(db: Db, d: Db, n: nat) {
    && d.next == db.next + 7 * n
    && d.outdated == db.outdated
    && d.elements.Keys == db.elements.Keys + ElementKeys(db.next, n)
    && d.requirements.Keys == db.requirements.Keys + RequirementKeys(db.next, n)
    && d.artifacts.Keys == db.artifacts.Keys + ArtifactKeys(db.next, n)
    && d.links.Keys == db.links.Keys + LinkKeys(db.next, n)
  }

  /** `d` is `db` with the first `n` nodes grafted in, each under its reference parent, and nothing else. */
  ghost predicate Grafted(db: Db, d: Db, nodes: seq<DraftNode>, up: Parents, n: nat, t: Target)
    requires n <= |nodes| == |up| && t.root in db.elements && t.anchor in db.requirements
  {
    && Sound(d)
    && KeysAdded(db, d, n)
    && Extends(db, d)
    && forall i :: 0 <= i < n ==> NodeRows(db, d, nodes, up, i, t)
  }

  /** The bookkeeping of one node whose keys start at `first`. */
  function Record(p: Progress, d: Db, tempId: string, first: Id): Progress {
    Progress(
      d,
      p.created[tempId := (first + 1, first + 3)],
      p.requirementArtifacts[first + 3 := first + 2],
      p.newIds + {first + 1, first, first + 3, first + 2},
      p.elementIds + [first + 1],
      p.requirementIds + [first + 3],
      p.linkIds + [first + 4, first + 5, first + 6])
  }

  // The loop's bookkeeping after `n` nodes, part by part.

  function CreatedAfter(base: Id, nodes: seq<DraftNode>, n: nat): map<string, (Id, Id)>
    requires n <= |nodes|
  {
    if n == 0 then map[]
    else CreatedAfter(base, nodes, n - 1)[nodes[n - 1].tempId := (ElementKey(base, n - 1), RequirementKey(base, n - 1))]
  }

  function ArtifactsAfter(base: Id, anchor: Id, anchorArtifact: Id, n: nat): map<Id, Id> {
    if n == 0 then map[anchor := anchorArtifact]
    else ArtifactsAfter(base, anchor, anchorArtifact, n - 1)[RequirementKey(base, n - 1) := RequirementArtifact(base, n - 1)]
  }

  function NewIdsAfter(base: Id, n: nat): set<Id> {
    if n == 0 then {}
    else NewIdsAfter(base, n - 1) + {ElementKey(base, n - 1), ElementArtifact(base, n - 1),
                                     RequirementKey(base, n - 1), RequirementArtifact(base, n - 1)}
  }

  function ElementIdsAfter(base: Id, n: nat): seq<Id> {
    if n == 0 then [] else ElementIdsAfter(base, n - 1) + [ElementKey(base, n - 1)]
  }

  function RequirementIdsAfter(base: Id, n: nat): seq<Id> {
    if n == 0 then [] else RequirementIdsAfter(base, n - 1) + [RequirementKey(base, n - 1)]
  }

  function LinkIdsAfter(base: Id, n: nat): seq<Id> {
    if n == 0 then []
    else LinkIdsAfter(base, n - 1) + [AllocationKey(base, n - 1), DecomposesKey(base, n - 1), DerivesKey(base, n - 1)]
  }

  function Bookkeeping(d: Db, base: Id, nodes: seq<DraftNode>, n: nat, anchor: Id, anchorArtifact: Id): Progress
    requires n <= |nodes|
  {
    Progress(
      d,
      CreatedAfter(base, nodes, n),
      ArtifactsAfter(base, anchor, anchorArtifact, n),
      NewIdsAfter(base, n),
      ElementIdsAfter(base, n),
      RequirementIdsAfter(base, n),
      LinkIdsAfter(base, n))
  }

  /** The loop stands after `n` nodes: the rows are grafted and the bookkeeping names them. */
  ghost predicate Tracks(db: Db, p: Progress, nodes: seq<DraftNode>, up: Parents, n: nat, t: Target)
    requires n <= |nodes| == |up| && t.root in db.elements && t.anchor in db.requirements
  {
    && Grafted(db, p.db, nodes, up, n, t)
    && p == Bookkeeping(p.db, db.next, nodes, n, t.anchor, db.requirements[t.anchor].artifact)
  }

  // ---------- what the graft holds ----------

  lemma {:induction false} LastNamedBelow(nodes: seq<DraftNode>, n: nat, name: string)
    requires n <= |nodes|
    ensures
      var k := LastNamed(nodes, n, name);
      && (k.Some? ==>
            k.value < n && nodes[k.value].tempId == name && forall j :: k.value < j < n ==> nodes[j].tempId != name)
      && (k.None? ==> forall j :: 0 <= j < n ==> nodes[j].tempId != name)
  {
    if n > 0 {
      LastNamedBelow(nodes, n - 1, name);
    }
  }

  lemma {:induction false} ParentsUpToAt(nodes: seq<DraftNode>, n: nat, i: nat)
    requires i < n <= |nodes|
    ensures |ParentsUpTo(nodes, n)| == n && ParentsUpTo(nodes, n)[i] == ParentOf(nodes, i)
    ensures ParentOf(nodes, i).Some? ==> ParentOf(nodes, i).value < i
  {
    if n > 1 {
      ParentsUpToAt(nodes, n - 1, if i < n - 1 then i else 0);
    }
    if nodes[i].parent.Some? {
      LastNamedBelow(nodes, i, nodes[i].parent.value);
    }
  }

  lemma {:induction false} ParentsOfRooted(nodes: seq<DraftNode>)
    ensures |ParentsOf(nodes)| == |nodes| && Rooted(ParentsOf(nodes))
    ensures forall i :: 0 <= i < |nodes| ==> ParentsOf(nodes)[i] == ParentOf(nodes, i)
  {
    forall i | 0 <= i < |nodes|
      ensures |ParentsOf(nodes)| == |nodes| && ParentsOf(nodes)[i] == ParentOf(nodes, i)
      ensures ParentOf(nodes, i).Some? ==> ParentOf(nodes, i).value < i
    {
      ParentsUpToAt(nodes, |nodes|, i);
    }
  }

  lemma {:induction false} AddRowsExtends(d: Db, n: DraftNode, t: Target, pe: Id, ea: Id, qa: Id)
    requires Sound(d)
    ensures Extends(d, AddRows(d, n, t, pe, ea, qa))
  {
  }

  lemma {:induction false} AddRowsSound(d: Db, n: DraftNode, t: Target, pe: Id, ea: Id, qa: Id)
    requires Sound(d) && pe < d.next && qa < d.next
    ensures Sound(AddRows(d, n, t, pe, ea, qa))
  {
  }

  lemma {:induction false} ExtendsTransitive(a: Db, b: Db, c: Db)
    requires Extends(a, b) && Extends(b, c)
    ensures Extends(a, c)
  {
  }

  lemma {:induction false} KeysGrow(held: set<Id>, k: set<Id>, added: set<Id>, before: set<Id>, after: set<Id>)
    requires before == held + k && after == before + added
    ensures after == held + (k + added)
  {
  }

  ghost predicate OneNodeMore(d: Db, d': Db, b: Id, n: nat) {
    && d'.elements.Keys == d.elements.Keys + {ElementKey(b, n)}
    && d'.requirements.Keys == d.requirements.Keys + {RequirementKey(b, n)}
    && d'.artifacts.Keys == d.artifacts.Keys + {ElementArtifact(b, n), RequirementArtifact(b, n)}
    && d'.links.Keys == d.links.Keys + {AllocationKey(b, n), DecomposesKey(b, n), DerivesKey(b, n)}
    && d'.next == d.next + 7 && d'.outdated == d.outdated
  }

  lemma {:induction false} AddedKeys(d: Db, n: DraftNode, t: Target, pe: Id, ea: Id, qa: Id, base: Id, i: nat)
    requires d.next == ElementArtifact(base, i)
    ensures OneNodeMore(d, AddRows(d, n, t, pe, ea, qa), base, i)
  {
  }

  lemma {:induction false} KeysStep(db: Db, d: Db, d': Db, n: nat)
    requires KeysAdded(db, d, n)
    requires OneNodeMore(d, d', db.next, n)
    ensures KeysAdded(db, d', n + 1)
  {
    var b := db.next;
    KeysGrow(db.elements.Keys, ElementKeys(b, n), {ElementKey(b, n)}, d.elements.Keys, d'.elements.Keys);
    KeysGrow(
      db.requirements.Keys, RequirementKeys(b, n), {RequirementKey(b, n)}, d.requirements.Keys, d'.requirements.Keys);
    KeysGrow(
      db.artifacts.Keys, ArtifactKeys(b, n), {ElementArtifact(b, n), RequirementArtifact(b, n)},
      d.artifacts.Keys, d'.artifacts.Keys);
    KeysGrow(
      db.links.Keys, LinkKeys(b, n), {AllocationKey(b, n), DecomposesKey(b, n), DerivesKey(b, n)},
      d.links.Keys, d'.links.Keys);
  }

  lemma {:induction false} NodeRowsNow(db: Db, d: Db, nodes: seq<DraftNode>, up: Parents, i: nat, t: Target)
    requires i < |nodes| == |up| && t.root in db.elements && t.anchor in db.requirements
    requires d.next == db.next + 7 * i
    ensures NodeRows(
              db,
              AddRows(d, nodes[i], t, ParentElement(db.next, up, i, t), ParentElementArtifact(db, up, i, t),
                      ParentRequirementArtifact(db, up, i, t)),
              nodes, up, i, t)
  {
  }

  lemma {:induction false} NodeRowsKept(db: Db, d: Db, d': Db, nodes: seq<DraftNode>, up: Parents, i: nat, t: Target)
    requires i < |nodes| == |up| && t.root in db.elements && t.anchor in db.requirements
    requires NodeRows(db, d, nodes, up, i, t) && Extends(d, d')
    ensures NodeRows(db, d', nodes, up, i, t)
  {
  }

  lemma {:induction false} OldEndpoints(db: Db, t: Target)
    requires Endpoints(db, t)
    ensures t.root < db.next && db.elements[t.root].artifact < db.next
    ensures t.anchor < db.next && db.requirements[t.anchor].artifact < db.next
  {
    assert db.elements[t.root].artifact in db.artifacts;
    assert db.requirements[t.anchor].artifact in db.artifacts;
  }

  lemma {:induction false} RowsStep(db: Db, d: Db, d': Db, nodes: seq<DraftNode>, up: Parents, n: nat, t: Target)
    requires n < |nodes| == |up| && t.root in db.elements && t.anchor in db.requirements
    requires forall i :: 0 <= i < n ==> NodeRows(db, d, nodes, up, i, t)
    requires NodeRows(db, d', nodes, up, n, t) && Extends(d, d')
    ensures forall i :: 0 <= i < n + 1 ==> NodeRows(db, d', nodes, up, i, t)
  {
    forall i | 0 <= i < n + 1
      ensures NodeRows(db, d', nodes, up, i, t)
    {
      if i < n {
        NodeRowsKept(db, d, d', nodes, up, i, t);
      }
    }
  }

  /** Adding one node's rows takes the graft one node further. */
  lemma {:induction false} GraftStep(db: Db, d: Db, d': Db, nodes: seq<DraftNode>, up: Parents, n: nat, t: Target)
    requires n < |nodes| == |up| && Rooted(up) && Endpoints(db, t) && Grafted(db, d, nodes, up, n, t)
    requires d' == AddRows(d, nodes[n], t, ParentElement(db.next, up, n, t), ParentElementArtifact(db, up, n, t),
                           ParentRequirementArtifact(db, up, n, t))
    ensures Grafted(db, d', nodes, up, n + 1, t)
  {
    var pe, ea, qa :=
      ParentElement(db.next, up, n, t), ParentElementArtifact(db, up, n, t), ParentRequirementArtifact(db, up, n, t);
    OldEndpoints(db, t);
    AddRowsSound(d, nodes[n], t, pe, ea, qa);
    AddRowsExtends(d, nodes[n], t, pe, ea, qa);
    ExtendsTransitive(db, d, d');
    AddedKeys(d, nodes[n], t, pe, ea, qa, db.next, n);
    KeysStep(db, d, d', n);
    NodeRowsNow(db, d, nodes, up, n, t);
    RowsStep(db, d, d', nodes, up, n, t);
  }

  // ---------- the replay builds exactly the graft ----------

  lemma {:induction false} CreatedLookup(base: Id, nodes: seq<DraftNode>, n: nat, name: string)
    requires n <= |nodes|
    ensures
      var k, c := LastNamed(nodes, n, name), CreatedAfter(base, nodes, n);
      && (name in c <==> k.Some?)
      && (name in c ==> c[name] == (ElementKey(base, k.value), RequirementKey(base, k.value)))
  {
    if n > 0 {
      CreatedLookup(base, nodes, n - 1, name);
    }
  }

  lemma {:induction false} ArtifactLookup(base: Id, anchor: Id, anchorArtifact: Id, n: nat, i: nat)
    requires anchor < base
    ensures
      var a := ArtifactsAfter(base, anchor, anchorArtifact, n);
      && anchor in a && a[anchor] == anchorArtifact
      && (i < n ==> RequirementKey(base, i) in a && a[RequirementKey(base, i)] == RequirementArtifact(base, i))
  {
    if n > 0 {
      ArtifactLookup(base, anchor, anchorArtifact, n - 1, i);
    }
  }

  /** The parents the loop finds in its map are the reference's parents. */
  lemma {:induction false} ParentsFound(db: Db, nodes: seq<DraftNode>, up: Parents, i: nat, t: Target)
    requires i < |nodes| == |up| && up[i] == ParentOf(nodes, i)
    requires t.root in db.elements && t.anchor in db.requirements
    ensures
      var found := ResolveParents(nodes[i], t, CreatedAfter(db.next, nodes, i));
      && (found.Done? <==> (nodes[i].parent.Some? ==> up[i].Some?))
      && (found.Done? ==>
            found.value == (ParentElement(db.next, up, i, t), ParentRequirement(db.next, up, i, t)))
  {
    if nodes[i].parent.Some? {
      CreatedLookup(db.next, nodes, i, nodes[i].parent.value);
    }
  }

  /** Those parents have rows, with the artifacts the reference names. */
  lemma {:induction false} ParentsPresent(db: Db, d: Db, nodes: seq<DraftNode>, up: Parents, i: nat, t: Target)
    requires i < |nodes| == |up| && Rooted(up) && Endpoints(db, t) && Grafted(db, d, nodes, up, i, t)
    ensures
      var a := ArtifactsAfter(db.next, t.anchor, db.requirements[t.anchor].artifact, i);
      var pe, pq := ParentElement(db.next, up, i, t), ParentRequirement(db.next, up, i, t);
      && pe in d.elements && d.elements[pe].artifact == ParentElementArtifact(db, up, i, t)
      && pq in d.requirements && d.requirements[pq].artifact == ParentRequirementArtifact(db, up, i, t)
      && pq in a && a[pq] == ParentRequirementArtifact(db, up, i, t)
  {
    if up[i].Some? {
      assert NodeRows(db, d, nodes, up, up[i].value, t);
      ArtifactLookup(db.next, t.anchor, db.requirements[t.anchor].artifact, i, up[i].value);
    } else {
      ArtifactLookup(db.next, t.anchor, db.requirements[t.anchor].artifact, i, 0);
    }
  }

  /** A fresh requirement has no earlier allocation for `allocate` to delete. */
  lemma {:induction false} AllocateFresh(db: Db, requirementArtifact: Id, elementArtifact: Id)
    requires forall l :: l in db.links ==> db.links[l].source != requirementArtifact
    ensures Allocate(db, requirementArtifact, elementArtifact)
         == CreateLink(db, requirementArtifact, elementArtifact, AllocatedTo)
  {
    var previous := set l | l in db.links
                            && db.links[l].kind == AllocatedTo && db.links[l].source == requirementArtifact;
    assert db.links - previous == db.links;
  }

  /** `d` with one node's element, requirement and their artifacts. */
  function AddPair(d: Db, n: DraftNode, t: Target, parentElement: Id, elementParent: Id, requirementParent: Id): Db {
    var b := d.next;
    d.(
      elements := d.elements[b + 1 := Element(b, Some(parentElement), n.title, n.description, n.elementType)],
      requirements := d.requirements[b + 3 := Requirement(b + 2, RequirementTitle(n), n.requirement.description)],
      artifacts := d.artifacts[b := Artifact(t.workspace, Some(elementParent), Rationale(n.requirement))]
                              [b + 2 := Artifact(t.workspace, Some(requirementParent), Rationale(n.requirement))],
      next := b + 4)
  }

  /** ... and with its three links. */
  function AddLinks(d: Db, b: Id, requirementParent: Id): Db {
    d.(
      links := d.links[d.next := Link(b + 2, b, AllocatedTo)]
                      [d.next + 1 := Link(requirementParent, b + 2, Decomposes)]
                      [d.next + 2 := Link(b + 2, requirementParent, DerivesFrom)],
      next := d.next + 3)
  }

  lemma {:induction false} InsertIsPair(
    p: Progress, n: DraftNode, t: Target, pe: Id, pq: Id, elementParent: Id, requirementParent: Id)
    requires pe in p.db.elements && p.db.elements[pe].artifact == elementParent
    requires pq in p.requirementArtifacts && p.requirementArtifacts[pq] == requirementParent
    ensures InsertNode(p, n, t, pe, pq)
         == Record(p, AddPair(p.db, n, t, pe, elementParent, requirementParent), n.tempId, p.db.next).(linkIds := p.linkIds)
  {
  }

  lemma {:induction false} LinkIsLinks(q: Progress, b: Id, pq: Id, requirementParent: Id)
    requires q.db.next == b + 4 && ResolveArtifact(q.db, pq) == requirementParent
    requires forall l :: l in q.db.links ==> q.db.links[l].source != b + 2
    ensures LinkNode(q, b, b + 2, pq)
         == q.(db := AddLinks(q.db, b, requirementParent), linkIds := q.linkIds + [b + 4, b + 5, b + 6])
  {
    AllocateFresh(q.db, b + 2, b);
  }

  lemma {:induction false} PairThenLinks(
    d: Db, n: DraftNode, t: Target, pe: Id, elementParent: Id, requirementParent: Id)
    ensures AddLinks(AddPair(d, n, t, pe, elementParent, requirementParent), d.next, requirementParent)
         == AddRows(d, n, t, pe, elementParent, requirementParent)
  {
  }

  lemma {:induction false} RecordedOnce(p: Progress, d: Db, d': Db, tempId: string, b: Id)
    ensures Record(p, d, tempId, b).(db := d', linkIds := p.linkIds + [b + 4, b + 5, b + 6]) == Record(p, d', tempId, b)
  {
  }

  lemma {:induction false} PairLinks(
    d: Db, n: DraftNode, t: Target, pe: Id, pq: Id, elementParent: Id, requirementParent: Id, pair: Db)
    requires pair == AddPair(d, n, t, pe, elementParent, requirementParent)
    requires forall l :: l in d.links ==> d.links[l].source < d.next
    requires pq in d.requirements && pq < d.next && d.requirements[pq].artifact == requirementParent
    ensures pair.next == d.next + 4 && ResolveArtifact(pair, pq) == requirementParent
    ensures forall l :: l in pair.links ==> pair.links[l].source != d.next + 2
  {
  }

  /** The loop body on rows, when the parents' artifacts are as given. */
  lemma {:induction false} InsertAndLink(
    p: Progress, n: DraftNode, t: Target, pe: Id, pq: Id, elementParent: Id, requirementParent: Id)
    requires forall l :: l in p.db.links ==> p.db.links[l].source < p.db.next
    requires pe in p.db.elements && p.db.elements[pe].artifact == elementParent
    requires pq in p.db.requirements && pq < p.db.next && p.db.requirements[pq].artifact == requirementParent
    requires pq in p.requirementArtifacts && p.requirementArtifacts[pq] == requirementParent
    ensures LinkNode(InsertNode(p, n, t, pe, pq), p.db.next, p.db.next + 2, pq)
         == Record(p, AddRows(p.db, n, t, pe, elementParent, requirementParent), n.tempId, p.db.next)
  {
    var q := InsertNode(p, n, t, pe, pq);
    var pair := AddPair(p.db, n, t, pe, elementParent, requirementParent);
    InsertIsPair(p, n, t, pe, pq, elementParent, requirementParent);
    PairLinks(p.db, n, t, pe, pq, elementParent, requirementParent, pair);
    LinkIsLinks(q, p.db.next, pq, requirementParent);
    PairThenLinks(p.db, n, t, pe, elementParent, requirementParent);
    RecordedOnce(p, pair, AddRows(p.db, n, t, pe, elementParent, requirementParent), n.tempId, p.db.next);
  }

  lemma {:induction false} RecordStep(
    d: Db, d': Db, base: Id, nodes: seq<DraftNode>, i: nat, anchor: Id, anchorArtifact: Id, first: Id)
    requires i < |nodes| && first == ElementArtifact(base, i)
    ensures Record(Bookkeeping(d, base, nodes, i, anchor, anchorArtifact), d', nodes[i].tempId, first)
         == Bookkeeping(d', base, nodes, i + 1, anchor, anchorArtifact)
  {
  }

  lemma {:induction false} InsertedIsRecord(
    db: Db, p: Progress, nodes: seq<DraftNode>, up: Parents, i: nat, t: Target, d': Db)
    requires i < |nodes| == |up| && Rooted(up) && Endpoints(db, t) && Tracks(db, p, nodes, up, i, t)
    requires d' == AddRows(p.db, nodes[i], t, ParentElement(db.next, up, i, t), ParentElementArtifact(db, up, i, t),
                           ParentRequirementArtifact(db, up, i, t))
    ensures
      var pe, pq := ParentElement(db.next, up, i, t), ParentRequirement(db.next, up, i, t);
      LinkNode(InsertNode(p, nodes[i], t, pe, pq), p.db.next, p.db.next + 2, pq)
      == Record(p, d', nodes[i].tempId, p.db.next)
  {
    ParentsPresent(db, p.db, nodes, up, i, t);
    OldEndpoints(db, t);
    InsertAndLink(
      p, nodes[i], t, ParentElement(db.next, up, i, t), ParentRequirement(db.next, up, i, t),
      ParentElementArtifact(db, up, i, t), ParentRequirementArtifact(db, up, i, t));
  }

  /** With its parents known and no call raising, one iteration extends the graft by one node. */
  lemma {:induction false} InsertedTracks(db: Db, p: Progress, nodes: seq<DraftNode>, up: Parents, i: nat, t: Target)
    requires i < |nodes| == |up| && Rooted(up) && Endpoints(db, t) && Tracks(db, p, nodes, up, i, t)
    ensures
      var pe, pq := ParentElement(db.next, up, i, t), ParentRequirement(db.next, up, i, t);
      Tracks(db, LinkNode(InsertNode(p, nodes[i], t, pe, pq), p.db.next, p.db.next + 2, pq), nodes, up, i + 1, t)
  {
    var d' := AddRows(p.db, nodes[i], t, ParentElement(db.next, up, i, t), ParentElementArtifact(db, up, i, t),
                      ParentRequirementArtifact(db, up, i, t));
    InsertedIsRecord(db, p, nodes, up, i, t, d');
    GraftStep(db, p.db, d', nodes, up, i, t);
    RecordStep(p.db, d', db.next, nodes, i, t.anchor, db.requirements[t.anchor].artifact, p.db.next);
  }

  /** Node `i` can be replayed: its parent is known and none of its calls raises. */
  ghost predicate Replays(nodes: seq<DraftNode>, up: Parents, i: nat, faults: set<nat>)
    requires i < |nodes| == |up|
  {
    (nodes[i].parent.Some? ==> up[i].Some?) && FirstFault(faults, i).None?
  }

  lemma {:induction false} NodeUnfolds(
    p: Progress, nodes: seq<DraftNode>, i: nat, t: Target, faults: set<nat>, pe: Id, pq: Id)
    requires i < |nodes| && FirstFault(faults, i).None?
    requires ResolveParents(nodes[i], t, p.created) == Done((pe, pq))
    ensures ReplayNode(p, nodes, i, t, faults)
         == Done(LinkNode(InsertNode(p, nodes[i], t, pe, pq), p.db.next, p.db.next + 2, pq))
  {
  }

  lemma {:induction false} IterationGrafts(
    db: Db, p: Progress, nodes: seq<DraftNode>, up: Parents, i: nat, t: Target, faults: set<nat>)
    requires i < |nodes| == |up| && Rooted(up) && Endpoints(db, t) && Tracks(db, p, nodes, up, i, t)
    requires up[i] == ParentOf(nodes, i)
    ensures
      var step := ReplayNode(p, nodes, i, t, faults);
      && (step.Done? <==> Replays(nodes, up, i, faults))
      && (step.Done? ==> Tracks(db, step.value, nodes, up, i + 1, t))
  {
    ParentsFound(db, nodes, up, i, t);
    if Replays(nodes, up, i, faults) {
      var pe, pq := ParentElement(db.next, up, i, t), ParentRequirement(db.next, up, i, t);
      NodeUnfolds(p, nodes, i, t, faults, pe, pq);
      InsertedTracks(db, p, nodes, up, i, t);
    }
  }

  lemma {:induction false} ReplayUnfolds(
    p: Progress, nodes: seq<DraftNode>, i: nat, t: Target, faults: set<nat>, step: Outcome<Progress>)
    requires i < |nodes| && step == ReplayNode(p, nodes, i, t, faults)
    ensures Replay(p, nodes, i, t, faults)
         == if step.Raised? then step else Replay(step.value, nodes, i + 1, t, faults)
  {
  }

  ghost predicate AllReplay(nodes: seq<DraftNode>, up: Parents, i: nat, faults: set<nat>)
    requires i <= |nodes| == |up|
    decreases |nodes| - i
  {
    i == |nodes| || (Replays(nodes, up, i, faults) && AllReplay(nodes, up, i + 1, faults))
  }

  lemma {:induction false} AllReplayEach(nodes: seq<DraftNode>, up: Parents, i: nat, faults: set<nat>)
    requires i <= |nodes| == |up|
    ensures AllReplay(nodes, up, i, faults) <==> forall j :: i <= j < |nodes| ==> Replays(nodes, up, j, faults)
    decreases |nodes| - i
  {
    if i < |nodes| {
      AllReplayEach(nodes, up, i + 1, faults);
    }
  }

  /** The loop succeeds exactly when every parent is known and no call raises, and then leaves the graft. */
  lemma {:induction false} ReplayGrafts(
    db: Db, p: Progress, nodes: seq<DraftNode>, up: Parents, i: nat, t: Target, faults: set<nat>)
    requires i <= |nodes| == |up| && Rooted(up) && Endpoints(db, t) && Tracks(db, p, nodes, up, i, t)
    requires up == ParentsOf(nodes)
    ensures
      var done := Replay(p, nodes, i, t, faults);
      && (done.Done? <==> AllReplay(nodes, up, i, faults))
      && (done.Done? ==> Tracks(db, done.value, nodes, up, |nodes|, t))
    decreases |nodes| - i
  {
    if i < |nodes| {
      ParentsUpToAt(nodes, |nodes|, i);
      IterationGrafts(db, p, nodes, up, i, t, faults);
      var step := ReplayNode(p, nodes, i, t, faults);
      ReplayUnfolds(p, nodes, i, t, faults, step);
      if step.Done? {
        ReplayGrafts(db, step.value, nodes, up, i + 1, t, faults);
      }
    }
  }
}
