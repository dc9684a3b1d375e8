/** The non-persistent decomposition draft and its dictionary form
    (`DraftRequirement`, `DraftNode`, `DecompositionDraft`). */
module Draft {
  import opened Text
  import opened PyJson

  datatype DraftRequirement = DraftRequirement(title: string, description: string, rationale: string)

  datatype DraftNode = DraftNode(
    tempId: string,
    parent: Option<string>,
    title: string,
    description: string,
    elementType: string,
    requirement: DraftRequirement)

  datatype DecompositionDraft = DecompositionDraft(
    workspaceId: string,
    rootElementId: string,
    parentRequirementId: string,
    provider: string,
    degraded: bool,
    nodes: seq<DraftNode>)

  datatype Error =
    | AttributeError                  // `.get` on a value that is not a dictionary
    | PayloadNotAnObject
    | MissingEndpoints
    | MissingNodes
    | MissingTempId
    | MissingTitle(tempId: string)

  datatype Parsed<+T> = Ok(value: T) | Err(error: Error)

  // ---------- to_dict ----------

  function RequirementToDict(r: DraftRequirement): Json {
    Obj(map["title" := Str(r.title), "description" := Str(r.description), "rationale" := Str(r.rationale)])
  }

  function NodeToDict(n: DraftNode): Json {
    Obj(map[
          "temp_id" := Str(n.tempId),
          "parent_temp_id" := if n.parent.Some? then Str(n.parent.value) else Null,
          "title" := Str(n.title),
          "description" := Str(n.description),
          "element_type" := Str(n.elementType),
          "requirement" := RequirementToDict(n.requirement)])
  }

  function ToDict(d: DecompositionDraft): Json {
    Obj(map[
          "workspace_id" := Str(d.workspaceId),
          "root_element_id" := Str(d.rootElementId),
          "parent_requirement_id" := Str(d.parentRequirementId),
          "provider" := Str(d.provider),
          "degraded" := Bool(d.degraded),
          "nodes" := Arr(seq(|d.nodes|, i requires 0 <= i < |d.nodes| => NodeToDict(d.nodes[i])))])
  }

  // ---------- from_dict ----------

  /** `str(data.get(key, ""))`. */
  function Field(data: Json, key: string): string
    requires data.Obj?
  {
    PyStr(Get(data, key, Str("")))
  }

  /** `data or {}` followed by `.get`: only a truthy non-dictionary fails. */
  predicate Readable(data: Json) {
    !Truthy(data) || data.Obj?
  }

  function OrEmpty(data: Json): (o: Json)
    requires Readable(data)
    ensures o.Obj?
  {
    if Truthy(data) then data else Obj(map[])
  }

  function RequirementFromDict(data: Json): DraftRequirement
    requires Readable(data)
  {
    var o := OrEmpty(data);
    DraftRequirement(Field(o, "title"), Field(o, "description"), Field(o, "rationale"))
  }

  /** `str(data.get("element_type") or "component")`. */
  function ElementType(data: Json): string
    requires data.Obj?
  {
    var t := Get(data, "element_type", Null);
    if Truthy(t) then PyStr(t) else "component"
  }

  function NodeFromDict(data: Json): Parsed<DraftNode> {
    if !Readable(data) then Err(AttributeError)
    else
      var o := OrEmpty(data);
      var tempId := Strip(Field(o, "temp_id"));
      if tempId == "" then Err(MissingTempId) else
      var title := Strip(Field(o, "title"));
      if title == "" then Err(MissingTitle(tempId)) else
      var parent := Get(o, "parent_temp_id", Null);
      var requirement := Get(o, "requirement", Null);
      if !Readable(requirement) then Err(AttributeError)
      else Ok(DraftNode(
                tempId,
                if Truthy(parent) then Some(PyStr(parent)) else None,
                title,
                Field(o, "description"),
                ElementType(o),
                RequirementFromDict(requirement)))
  }

  /** The comprehension over the raw nodes: the first failure wins. */
  function ParseAll(raw: seq<Json>): Parsed<seq<DraftNode>> {
    if raw == [] then Ok([])
    else
      var first := NodeFromDict(raw[0]);
      if first.Err? then Err(first.error) else
      var rest := ParseAll(raw[1..]);
      if rest.Err? then rest else Ok([first.value] + rest.value)
  }

  function FromDict(data: Json): Parsed<DecompositionDraft> {
    if !data.Obj? then Err(PayloadNotAnObject)
    else Assemble(
           Field(data, "workspace_id"),
           Strip(Field(data, "root_element_id")),
           Strip(Field(data, "parent_requirement_id")),
           Field(data, "provider"),
           Truthy(Get(data, "degraded", Bool(false))),
           Get(data, "nodes", Null))
  }

  function Assemble(
    workspace: string, root: string, anchor: string, provider: string, degraded: bool, raw: Json)
    : Parsed<DecompositionDraft>
  {
    if root == "" || anchor == "" then Err(MissingEndpoints)
    else if !raw.Arr? || raw.items == [] then Err(MissingNodes)
    else
      var nodes := ParseAll(raw.items);
      if nodes.Err? then Err(nodes.error)
      else Ok(DecompositionDraft(workspace, root, anchor, provider, degraded, nodes.value))
  }

  // ---------- what is read from a dictionary ----------

  /** The requirement a dictionary's fields give; nothing there gives empty texts. */
  ghost predicate RequirementOf(fields: map<string, Json>, r: DraftRequirement) {
    var inner := if "requirement" in fields && fields["requirement"].Obj? then fields["requirement"].fields else map[];
    Says(inner, "title", r.title) && Says(inner, "description", r.description) && Says(inner, "rationale", r.rationale)
  }

  /** The requirement cannot be read: it is something other than nothing or a dictionary. */
  ghost predicate BadRequirement(fields: map<string, Json>) {
    "requirement" in fields && !fields["requirement"].Obj? && Truthy(fields["requirement"])
  }

  ghost predicate TypeOf(fields: map<string, Json>, text: string) {
    if "element_type" in fields && Truthy(fields["element_type"])
    then text == PyStr(fields["element_type"])
    else text == "component"
  }

  ghost predicate ParentOf(fields: map<string, Json>, parent: Option<string>) {
    if "parent_temp_id" in fields && Truthy(fields["parent_temp_id"])
    then parent == Some(PyStr(fields["parent_temp_id"]))
    else parent == None
  }

  lemma {:induction false} RequirementRead(j: Json)
    requires j.Obj? && Readable(Get(j, "requirement", Null))
    ensures RequirementOf(j.fields, RequirementFromDict(Get(j, "requirement", Null)))
  {
    var r := Get(j, "requirement", Null);
    if r.Obj? && !Truthy(r) {
      assert r.fields == map[];
    }
  }

  /** When and with what error a node is refused, and which field of an accepted one says what. */
  lemma {:induction false} NodeReadExactly(j: Json, id: string, title: string)
    requires j.Obj? && Says(j.fields, "temp_id", id) && Says(j.fields, "title", title)
    ensures
      var r := NodeFromDict(j);
      && (r == Err(MissingTempId) <==> Strip(id) == "")
      && (r == Err(MissingTitle(Strip(id))) <==> Strip(id) != "" && Strip(title) == "")
      && (r == Err(AttributeError) <==> Strip(id) != "" && Strip(title) != "" && BadRequirement(j.fields))
      && (r.Ok? <==> Strip(id) != "" && Strip(title) != "" && !BadRequirement(j.fields))
      && (r.Ok? ==>
            && r.value.tempId == Strip(id) && r.value.title == Strip(title)
            && ParentOf(j.fields, r.value.parent)
            && Says(j.fields, "description", r.value.description) && TypeOf(j.fields, r.value.elementType)
            && RequirementOf(j.fields, r.value.requirement))
  {
    if !Truthy(j) {
      assert j.fields == map[];
    }
    if Readable(Get(j, "requirement", Null)) {
      RequirementRead(j);
    }
  }

  /** The nodes are read one by one, in order. */
  lemma {:induction false} ParseAllAt(raw: seq<Json>, i: nat)
    requires i < |raw| && ParseAll(raw).Ok?
    ensures |ParseAll(raw).value| == |raw| && NodeFromDict(raw[i]) == Ok(ParseAll(raw).value[i])
  {
    var first, rest := NodeFromDict(raw[0]), ParseAll(raw[1..]);
    ParseAllUnfolds(raw, first, rest);
    if i > 0 {
      ParseAllAt(raw[1..], i - 1);
    } else if |raw| > 1 {
      ParseAllAt(raw[1..], 0);
    }
  }

  lemma {:induction false} FirstRefused(raw: seq<Json>, k: nat)
    requires k < |raw| && NodeFromDict(raw[k]).Err? && forall j :: 0 <= j < k ==> NodeFromDict(raw[j]).Ok?
    ensures ParseAll(raw) == Err(NodeFromDict(raw[k]).error)
  {
    if k > 0 {
      assert NodeFromDict(raw[0]).Ok?;
      assert raw[1..][k - 1] == raw[k];
      forall j | 0 <= j < k - 1
        ensures NodeFromDict(raw[1..][j]).Ok?
      {
        assert raw[1..][j] == raw[j + 1];
      }
      FirstRefused(raw[1..], k - 1);
    }
  }

  ghost predicate NodesRead(raw: seq<Json>) {
    forall j :: 0 <= j < |raw| ==> NodeFromDict(raw[j]).Ok?
  }

  lemma {:induction false} AllRead(raw: seq<Json>)
    requires NodesRead(raw)
    ensures ParseAll(raw).Ok?
  {
    if raw != [] {
      assert NodeFromDict(raw[0]).Ok?;
      forall j | 0 <= j < |raw| - 1
        ensures NodeFromDict(raw[1..][j]).Ok?
      {
        assert raw[1..][j] == raw[j + 1];
      }
      AllRead(raw[1..]);
    }
  }

  /** A payload without endpoints or without nodes is refused, in this order; otherwise the nodes decide. */
  lemma {:induction false} PayloadRefused(j: Json, root: string, anchor: string)
    requires j.Obj? && Says(j.fields, "root_element_id", root) && Says(j.fields, "parent_requirement_id", anchor)
    ensures Strip(root) == "" || Strip(anchor) == "" ==> FromDict(j) == Err(MissingEndpoints)
    ensures Strip(root) != "" && Strip(anchor) != "" && !HasNodes(j.fields) ==> FromDict(j) == Err(MissingNodes)
  {
  }

  predicate HasNodes(fields: map<string, Json>) {
    "nodes" in fields && fields["nodes"].Arr? && fields["nodes"].items != []
  }

  /** Which field of an accepted payload says what. */
  lemma {:induction false} PayloadRead(j: Json, root: string, anchor: string, raw: seq<Json>)
    requires j.Obj? && Says(j.fields, "root_element_id", root) && Says(j.fields, "parent_requirement_id", anchor)
    requires Strip(root) != "" && Strip(anchor) != "" && HasNodes(j.fields) && raw == j.fields["nodes"].items
    ensures
      var r, nodes := FromDict(j), ParseAll(raw);
      && (nodes.Err? ==> r == Err(nodes.error))
      && (nodes.Ok? ==>
            && r.Ok? && r.value.nodes == nodes.value
            && r.value.rootElementId == Strip(root) && r.value.parentRequirementId == Strip(anchor)
            && Says(j.fields, "workspace_id", r.value.workspaceId) && Says(j.fields, "provider", r.value.provider)
            && (r.value.degraded <==> "degraded" in j.fields && Truthy(j.fields["degraded"])))
  {
  }

  // ---------- the round trip ----------

  predicate CanonicalNode(n: DraftNode) {
    && n.tempId != "" && Trimmed(n.tempId)
    && n.title != "" && Trimmed(n.title)
    && n.parent != Some("")
    && n.elementType != ""
  }

  ghost predicate AllCanonical(nodes: seq<DraftNode>) {
    forall i :: 0 <= i < |nodes| ==> CanonicalNode(nodes[i])
  }

  ghost predicate Canonical(d: DecompositionDraft) {
    && d.rootElementId != "" && Trimmed(d.rootElementId)
    && d.parentRequirementId != "" && Trimmed(d.parentRequirementId)
    && d.nodes != []
    && AllCanonical(d.nodes)
  }

  lemma {:induction false} RequirementRoundTrip(r: DraftRequirement)
    ensures Truthy(RequirementToDict(r))
    ensures RequirementFromDict(RequirementToDict(r)) == r
  {
    assert "title" in RequirementToDict(r).fields;
  }

  lemma {:induction false} NodeFields(n: DraftNode)
    ensures
      var o := NodeToDict(n);
      && Truthy(o)
      && Get(o, "temp_id", Str("")) == Str(n.tempId)
      && Get(o, "title", Str("")) == Str(n.title)
      && Get(o, "description", Str("")) == Str(n.description)
      && Get(o, "element_type", Null) == Str(n.elementType)
      && Get(o, "requirement", Null) == RequirementToDict(n.requirement)
      && Get(o, "parent_temp_id", Null) == if n.parent.Some? then Str(n.parent.value) else Null
  {
    assert "temp_id" in NodeToDict(n).fields;
  }

  lemma {:induction false} DraftFields(d: DecompositionDraft)
    ensures
      var o := ToDict(d);
      && o.Obj?
      && Get(o, "workspace_id", Str("")) == Str(d.workspaceId)
      && Get(o, "root_element_id", Str("")) == Str(d.rootElementId)
      && Get(o, "parent_requirement_id", Str("")) == Str(d.parentRequirementId)
      && Get(o, "provider", Str("")) == Str(d.provider)
      && Get(o, "degraded", Bool(false)) == Bool(d.degraded)
      && Get(o, "nodes", Null)
         == Arr(seq(|d.nodes|, i requires 0 <= i < |d.nodes| => NodeToDict(d.nodes[i])))
  {
  }

  lemma {:induction false} NodeRoundTrip(n: DraftNode)
    ensures NodeFromDict(NodeToDict(n)) == Ok(n) <==> CanonicalNode(n)
  {
    RequirementRoundTrip(n.requirement);
    NodeFields(n);
  }

  lemma {:induction false} AllCanonicalCons(nodes: seq<DraftNode>)
    requires nodes != []
    ensures AllCanonical(nodes) <==> CanonicalNode(nodes[0]) && AllCanonical(nodes[1..])
  {
    if CanonicalNode(nodes[0]) && AllCanonical(nodes[1..]) {
      forall i | 0 <= i < |nodes| ensures CanonicalNode(nodes[i]) {
        if i > 0 { assert nodes[i] == nodes[1..][i - 1]; }
      }
    }
  }

  lemma {:induction false} ConsEqual(first: DraftNode, rest: seq<DraftNode>, nodes: seq<DraftNode>)
    requires nodes != []
    ensures [first] + rest == nodes <==> first == nodes[0] && rest == nodes[1..]
  {
    assert ([first] + rest)[0] == first && ([first] + rest)[1..] == rest;
    assert nodes == [nodes[0]] + nodes[1..];
  }

  lemma {:induction false} ParseAllUnfolds(raw: seq<Json>, first: Parsed<DraftNode>, rest: Parsed<seq<DraftNode>>)
    requires raw != [] && first == NodeFromDict(raw[0]) && rest == ParseAll(raw[1..])
    ensures ParseAll(raw).Ok? <==> first.Ok? && rest.Ok?
    ensures first.Ok? && rest.Ok? ==> ParseAll(raw) == Ok([first.value] + rest.value)
  {
  }

  lemma {:induction false} ParseAllCons(raw: seq<Json>, nodes: seq<DraftNode>)
    requires raw != [] && nodes != []
    ensures ParseAll(raw) == Ok(nodes)
       <==> NodeFromDict(raw[0]) == Ok(nodes[0]) && ParseAll(raw[1..]) == Ok(nodes[1..])
  {
    var first, rest := NodeFromDict(raw[0]), ParseAll(raw[1..]);
    ParseAllUnfolds(raw, first, rest);
    if first.Ok? && rest.Ok? {
      ConsEqual(first.value, rest.value, nodes);
    }
  }

  lemma {:induction false} ParseAllExact(raw: seq<Json>, nodes: seq<DraftNode>)
    requires |raw| == |nodes|
    requires forall i :: 0 <= i < |nodes| ==> (NodeFromDict(raw[i]) == Ok(nodes[i]) <==> CanonicalNode(nodes[i]))
    ensures ParseAll(raw) == Ok(nodes) <==> AllCanonical(nodes)
  {
    if nodes != [] {
      ParseAllExact(raw[1..], nodes[1..]);
      AllCanonicalCons(nodes);
      ParseAllCons(raw, nodes);
    }
  }

  lemma {:induction false} NodesRoundTrip(nodes: seq<DraftNode>, raw: seq<Json>)
    requires |raw| == |nodes|
    requires forall i :: 0 <= i < |nodes| ==> raw[i] == NodeToDict(nodes[i])
    ensures ParseAll(raw) == Ok(nodes) <==> AllCanonical(nodes)
  {
    forall i | 0 <= i < |nodes| ensures NodeFromDict(raw[i]) == Ok(nodes[i]) <==> CanonicalNode(nodes[i]) {
      NodeRoundTrip(nodes[i]);
    }
    ParseAllExact(raw, nodes);
  }

  lemma {:induction false} ReadBack(d: DecompositionDraft, raw: seq<Json>)
    requires Get(ToDict(d), "nodes", Null) == Arr(raw)
    ensures FromDict(ToDict(d))
         == Assemble(
              d.workspaceId, Strip(d.rootElementId), Strip(d.parentRequirementId), d.provider, d.degraded, Arr(raw))
  {
    DraftFields(d);
  }

  lemma {:induction false} AssembledExactly(d: DecompositionDraft, raw: seq<Json>, parsed: Parsed<seq<DraftNode>>)
    requires |raw| == |d.nodes| && parsed == ParseAll(raw)
    ensures Assemble(
              d.workspaceId, Strip(d.rootElementId), Strip(d.parentRequirementId), d.provider, d.degraded, Arr(raw))
            == Ok(d) <==>
              && d.rootElementId != "" && Trimmed(d.rootElementId)
              && d.parentRequirementId != "" && Trimmed(d.parentRequirementId)
              && d.nodes != [] && parsed == Ok(d.nodes)
  {
  }

  /** A draft survives the client round trip unchanged exactly when it is canonical. */
  lemma {:induction false} DraftRoundTrip(d: DecompositionDraft)
    ensures FromDict(ToDict(d)) == Ok(d) <==> Canonical(d)
  {
    DraftFields(d);
    var raw := Get(ToDict(d), "nodes", Null).items;
    ReadBack(d, raw);
    AssembledExactly(d, raw, ParseAll(raw));
    NodesRoundTrip(d.nodes, raw);
  }

  lemma {:induction false} AcceptedNodeCanonical(raw: Json)
    requires NodeFromDict(raw).Ok?
    ensures CanonicalNode(NodeFromDict(raw).value)
  {
    var o := OrEmpty(raw);
    if Truthy(Get(o, "element_type", Null)) {
      PyStrNotEmpty(Get(o, "element_type", Null));
    }
    if Truthy(Get(o, "parent_temp_id", Null)) {
      PyStrNotEmpty(Get(o, "parent_temp_id", Null));
    }
  }

  lemma {:induction false} AcceptedNodesCanonical(raw: seq<Json>)
    requires ParseAll(raw).Ok?
    ensures |ParseAll(raw).value| == |raw|
    ensures AllCanonical(ParseAll(raw).value)
  {
    if raw != [] {
      AcceptedNodesCanonical(raw[1..]);
      AcceptedNodeCanonical(raw[0]);
    }
  }

  lemma {:induction false} AcceptedCanonical(payload: Json)
    requires FromDict(payload).Ok?
    ensures Canonical(FromDict(payload).value)
  {
    AcceptedNodesCanonical(Get(payload, "nodes", Null).items);
  }

  /** Whatever payload is accepted, its normal form is a fixed point of the round trip. */
  lemma {:induction false} NormalFormStable(payload: Json)
    requires FromDict(payload).Ok?
    ensures FromDict(ToDict(FromDict(payload).value)) == FromDict(payload)
  {
    var draft := FromDict(payload).value;
    AcceptedCanonical(payload);
    DraftRoundTrip(draft);
  }
}
