/** `_flatten_tree`: a nested provider answer becomes a capped pre-order list of
    draft nodes with path-like ids. */
module FlattenTree {
  import opened Text
  import opened PyJson
  import opened Draft

  const ABSOLUTE_MAX_BREADTH: nat := 10
  const ABSOLUTE_MAX_DEPTH: nat := 4

  function Clamp(requested: int, ceiling: nat): (r: nat)
    requires ceiling >= 1
    ensures 1 <= r <= ceiling
    ensures 1 <= requested <= ceiling ==> r == requested
  {
    var low := if requested < 1 then 1 else requested;
    if low > ceiling then ceiling else low
  }

  // ---------- one provider item as the walk reads it ----------

  /** `named`: a dictionary with a non-blank title. `requirement` is `None` when reading it
      raises, which is when it is truthy but no dictionary. */
  datatype Item = Item(
    named: bool,
    title: string,
    description: string,
    elementType: string,
    requirement: Option<DraftRequirement>,
    children: seq<Item>)

  function ReadItem(j: Json): Item
    decreases j
  {
    if !j.Obj? then Item(false, "", "", "", None, [])
    else
      var title := Strip(Field(j, "title"));
      var requirement := Get(j, "requirement", Null);
      Item(
        title != "",
        title,
        Field(j, "description"),
        ElementType(j),
        if Readable(requirement) then Some(RequirementFromDict(requirement)) else None,
        if "children" in j.fields && j.fields["children"].Arr? then ReadItems(j.fields["children"].items) else [])
  }

  function ReadItems(js: seq<Json>): seq<Item>
    decreases js
  {
    if js == [] then [] else [ReadItem(js[0])] + ReadItems(js[1..])
  }

  // ---------- the pruned tree ----------

  /** An ordered forest, growing at its right end. */
  datatype Forest = Empty | Snoc(init: Forest, last: Tree)

  datatype Tree = Node(item: Item, children: Forest)

  function Count(f: Forest): nat {
    match f
    case Empty => 0
    case Snoc(init, _) => Count(init) + 1
  }

  /** The forest the first `i` items give within the caps. */
  function Prune(items: seq<Item>, i: nat, breadth: nat, depth: nat): Forest
    requires i <= |items|
    decreases depth, i
  {
    if i == 0 || depth == 0 then Empty
    else
      var before := Prune(items, i - 1, breadth, depth);
      if items[i - 1].named && Count(before) < breadth
      then Snoc(before, Node(items[i - 1], PruneAll(items[i - 1].children, breadth, depth - 1)))
      else before
  }

  function PruneAll(items: seq<Item>, breadth: nat, depth: nat): Forest
    decreases depth, |items| + 1
  {
    Prune(items, |items|, breadth, depth)
  }

  // ---------- rendering in pre-order ----------

  /** One node of the flattened list before its texts are rendered. */
  datatype Entry = Entry(tempId: string, parent: Option<string>, item: Item)

  /** Building the node; `None` where that raises. */
  function Rendered(e: Entry): Option<DraftNode> {
    var item := e.item;
    if item.requirement.None? then None
    else Some(DraftNode(
                e.tempId, e.parent, item.title, item.description, item.elementType, item.requirement.value))
  }

  /** The name of the k-th child below `prefix`. */
  function ChildId(prefix: string, k: nat): string {
    prefix + Decimal(k)
  }

  /** `before` followed by the pre-order rendering of a forest; `None` when a node raises. */
  function Emit(before: seq<DraftNode>, f: Forest, parent: Option<string>, prefix: string): Option<seq<DraftNode>>
    decreases f
  {
    match f
    case Empty => Some(before)
    case Snoc(init, last) =>
      var r := Emit(before, init, parent, prefix);
      if r.None? then None else EmitTree(r.value, last, parent, ChildId(prefix, Count(f)))
  }

  function EmitTree(before: seq<DraftNode>, t: Tree, parent: Option<string>, id: string): Option<seq<DraftNode>>
    decreases t
  {
    var node := Rendered(Entry(id, parent, t.item));
    if node.None? then None else Emit(before + [node.value], t.children, Some(id), id + ".")
  }

  // ---------- the appending walk ----------

  /** Once one item of a level has raised, the whole level has. */
  lemma {:induction false} EmitFails(
    items: seq<Item>, i: nat, breadth: nat, depth: nat, before: seq<DraftNode>, parent: Option<string>, prefix: string)
    requires i <= |items| && Emit(before, Prune(items, i, breadth, depth), parent, prefix) == None
    ensures Emit(before, PruneAll(items, breadth, depth), parent, prefix) == None
    decreases |items| - i
  {
    if i < |items| {
      EmitFails(items, i + 1, breadth, depth, before, parent, prefix);
    }
  }

  /** Once the breadth cap is reached the remaining items change nothing. */
  lemma {:induction false} PruneFull(items: seq<Item>, i: nat, breadth: nat, depth: nat)
    requires i <= |items| && Count(Prune(items, i, breadth, depth)) >= breadth
    ensures PruneAll(items, breadth, depth) == Prune(items, i, breadth, depth)
    decreases |items| - i
  {
    if i < |items| {
      PruneFull(items, i + 1, breadth, depth);
    }
  }

  /** The recursive inner function `_walk`: the shared list comes in and goes out; `None` when it raised. */
  method Walk(
    nodes: seq<DraftNode>, items: seq<Item>, parent: Option<string>, prefix: string, level: nat,
    maxBreadth: nat, maxDepth: nat)
    returns (r: Option<seq<DraftNode>>)
    requires 1 <= level <= maxDepth
    ensures r == Emit(nodes, PruneAll(items, maxBreadth, maxDepth - level + 1), parent, prefix)
    decreases maxDepth - level, 1
  {
    ghost var d := maxDepth - level + 1;
    var kept := 0;
    r := Some(nodes);
    for i := 0 to |items|
      invariant kept == Count(Prune(items, i, maxBreadth, d))
      invariant r.Some? && r == Emit(nodes, Prune(items, i, maxBreadth, d), parent, prefix)
    {
      if kept >= maxBreadth {
        PruneFull(items, i, maxBreadth, d);
        return;
      }
      if items[i].named {
        kept := kept + 1;
        r := Visit(r.value, items[i], ChildId(prefix, kept), parent, level, maxBreadth, maxDepth);
        if r.None? {
          EmitFails(items, i + 1, maxBreadth, d, nodes, parent, prefix);
          return;
        }
      }
    }
  }

  /** One kept item: append its node, then walk its children one level down. */
  method Visit(
    nodes: seq<DraftNode>, item: Item, tempId: string, parent: Option<string>, level: nat,
    maxBreadth: nat, maxDepth: nat)
    returns (r: Option<seq<DraftNode>>)
    requires 1 <= level <= maxDepth
    ensures r == EmitTree(nodes, Node(item, PruneAll(item.children, maxBreadth, maxDepth - level)), parent, tempId)
    decreases maxDepth - level, 0
  {
    var node := Rendered(Entry(tempId, parent, item));
    if node.None? {
      return None;
    }
    var children := item.children;
    if level < maxDepth && children != [] {
      r := Walk(nodes + [node.value], children, Some(tempId), tempId + ".", level + 1, maxBreadth, maxDepth);
    } else {
      r := Some(nodes + [node.value]);
    }
  }

  /** The forest a call keeps for the caps a caller asks for. */
  function Pruned(tree: seq<Json>, maxBreadth: int, maxDepth: int): Forest {
    PruneAll(ReadItems(tree), Clamp(maxBreadth, ABSOLUTE_MAX_BREADTH), Clamp(maxDepth, ABSOLUTE_MAX_DEPTH))
  }

  /** `_flatten_tree`: the clamped walk from the root; `None` when it raised. */
  method Flatten(tree: seq<Json>, maxBreadth: int, maxDepth: int) returns (r: Option<seq<DraftNode>>)
    ensures r == Emit([], Pruned(tree, maxBreadth, maxDepth), None, "n")
  {
    r := Walk(
      [], ReadItems(tree), None, "n", 1,
      Clamp(maxBreadth, ABSOLUTE_MAX_BREADTH), Clamp(maxDepth, ABSOLUTE_MAX_DEPTH));
  }
}
