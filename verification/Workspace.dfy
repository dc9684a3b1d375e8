/** The rows `commit_draft` reads and writes: elements, requirements, their backing
    artifacts, and trace links between artifacts. */
module Workspace {
  import opened Text

  /** Primary keys. A row's key is fresh when it is inserted, as UUIDs are. */
  type Id = nat

  datatype LinkKind = AllocatedTo | Decomposes | DerivesFrom | OtherKind(name: string)

  datatype Artifact = Artifact(workspace: Id, parent: Option<Id>, rationale: Option<string>)

  datatype Element = Element(
    artifact: Id, parent: Option<Id>, title: string, description: string, elementType: string)

  datatype Requirement = Requirement(artifact: Id, title: string, description: string)

  /** Endpoints are artifact keys. */
  datatype Link = Link(source: Id, target: Id, kind: LinkKind)

  /** `outdated` holds the elements and requirements whose workflow state is "outdated";
      `next` is above every key in use. */
  datatype Db = Db(
    elements: map<Id, Element>,
    requirements: map<Id, Requirement>,
    artifacts: map<Id, Artifact>,
    links: map<Id, Link>,
    outdated: set<Id>,
    next: Id)

  /** Every key that occurs anywhere is below `next`, and every row has its artifact. */
  ghost predicate Sound(db: Db) {
    && (forall e :: e in db.elements ==>
          && e < db.next
          && db.elements[e].artifact in db.artifacts
          && (db.elements[e].parent.Some? ==> db.elements[e].parent.value < db.next))
    && (forall q :: q in db.requirements ==> q < db.next && db.requirements[q].artifact in db.artifacts)
    && (forall a :: a in db.artifacts ==> a < db.next)
    && (forall l :: l in db.links ==> l < db.next && db.links[l].source < db.next && db.links[l].target < db.next)
    && (forall x :: x in db.outdated ==> x < db.next)
  }

  /** `create_architecture_element`: the artifact mirrors the element hierarchy. */
  function CreateElement(
    db: Db, workspace: Id, parent: Id, title: string, description: string, elementType: string,
    rationale: Option<string>)
    : Db
  {
    var artifactParent := if parent in db.elements then Some(db.elements[parent].artifact) else None;
    db.(
      artifacts := db.artifacts[db.next := Artifact(workspace, artifactParent, rationale)],
      elements := db.elements[db.next + 1 := Element(db.next, Some(parent), title, description, elementType)],
      next := db.next + 2)
  }

  /** `create_requirement`: `parent` addresses the artifact tree. */
  function CreateRequirement(
    db: Db, workspace: Id, parent: Option<Id>, title: string, description: string, rationale: Option<string>): Db
  {
    db.(
      artifacts := db.artifacts[db.next := Artifact(workspace, parent, rationale)],
      requirements := db.requirements[db.next + 1 := Requirement(db.next, title, description)],
      next := db.next + 2)
  }

  /** `create_trace_link` on two artifacts. */
  function CreateLink(db: Db, source: Id, target: Id, kind: LinkKind): Db {
    db.(links := db.links[db.next := Link(source, target, kind)], next := db.next + 1)
  }

  /** `allocate`: a previous allocation of the requirement is deleted first. */
  function Allocate(db: Db, requirementArtifact: Id, elementArtifact: Id): Db {
    var previous := set l | l in db.links
                            && db.links[l].source == requirementArtifact && db.links[l].kind == AllocatedTo;
    CreateLink(db.(links := db.links - previous), requirementArtifact, elementArtifact, AllocatedTo)
  }
}
