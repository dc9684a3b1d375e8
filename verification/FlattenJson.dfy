/** What the flattened list is of the provider's JSON: which objects it keeps, where each of them stands, and which
    of their fields each node carries. */
module FlattenJson {
  import opened Text
  import opened PyJson
  import opened Draft
  import opened FlattenTree
  import opened FlattenFacts

  // ---------- the kept objects ----------

  /** A dictionary whose title is not blank. */
  ghost predicate IsNamed(j: Json) {
    j.Obj? && exists title :: Says(j.fields, "title", title) && Strip(title) != ""
  }

  /** The named ones among the first `n`, in order. */
  ghost function NamedJson(js: seq<Json>, n: nat): seq<Json>
    requires n <= |js|
  {
    if n == 0 then [] else NamedJson(js, n - 1) + if IsNamed(js[n - 1]) then [js[n - 1]] else []
  }

  ghost function Kept(js: seq<Json>): seq<Json> {
    NamedJson(js, |js|)
  }

  function ChildrenJson(j: Json): seq<Json> {
    if j.Obj? && "children" in j.fields && j.fields["children"].Arr? then j.fields["children"].items else []
  }

  /** A path of 0-based positions among the named objects of each level, within the caps. */
  ghost predicate JsonPath(js: seq<Json>, path: seq<nat>, breadth: nat, depth: nat)
    decreases |path|
  {
    && path != [] && depth > 0 && path[0] < breadth && path[0] < |Kept(js)|
    && (|path| > 1 ==> JsonPath(ChildrenJson(Kept(js)[path[0]]), path[1..], breadth, depth - 1))
  }

  /** The object at a path. */
  ghost function JsonAt(js: seq<Json>, path: seq<nat>, breadth: nat, depth: nat): Json
    requires JsonPath(js, path, breadth, depth)
    decreases |path|
  {
    var j := Kept(js)[path[0]];
    if |path| == 1 then j else JsonAt(ChildrenJson(j), path[1..], breadth, depth - 1)
  }

  // ---------- reading keeps order and fields ----------

  lemma {:induction false} ReadAt(js: seq<Json>, i: nat)
    requires i < |js|
    ensures |ReadItems(js)| == |js| && ReadItems(js)[i] == ReadItem(js[i])
  {
    if i > 0 {
      ReadAt(js[1..], i - 1);
    } else if |js| > 1 {
      ReadAt(js[1..], 0);
    }
  }

  lemma {:induction false} ReadLength(js: seq<Json>)
    ensures |ReadItems(js)| == |js|
  {
    if js != [] {
      ReadAt(js, 0);
    }
  }

  /** What reading an item takes from the object. */
  ghost predicate ItemOf(j: Json, item: Item)
    requires j.Obj?
  {
    && (exists title :: Says(j.fields, "title", title) && item.title == Strip(title))
    && Says(j.fields, "description", item.description)
    && TypeOf(j.fields, item.elementType)
    && (item.requirement.None? <==> BadRequirement(j.fields))
    && (item.requirement.Some? ==> RequirementOf(j.fields, item.requirement.value))
  }

  lemma {:induction false} ReadKeeps(j: Json)
    ensures ReadItem(j).named <==> IsNamed(j)
    ensures j.Obj? ==> ItemOf(j, ReadItem(j))
    ensures ReadItem(j).children == ReadItems(ChildrenJson(j))
  {
    if j.Obj? {
      assert Says(j.fields, "title", Field(j, "title"));
      if Readable(Get(j, "requirement", Null)) {
        RequirementRead(j);
      }
    }
  }

  lemma {:induction false} NamedRead(js: seq<Json>, n: nat, k: nat)
    requires n <= |js| && |ReadItems(js)| == |js|
    ensures |Named(ReadItems(js), n)| == |NamedJson(js, n)|
    ensures k < |NamedJson(js, n)| ==> Named(ReadItems(js), n)[k] == ReadItem(NamedJson(js, n)[k])
  {
    if n > 0 {
      NamedRead(js, n - 1, k);
      ReadAt(js, n - 1);
      ReadKeeps(js[n - 1]);
    }
  }

  lemma {:induction false} KeptNamed(js: seq<Json>, n: nat, k: nat)
    requires n <= |js| && k < |NamedJson(js, n)|
    ensures IsNamed(NamedJson(js, n)[k])
  {
    if k < |NamedJson(js, n - 1)| {
      KeptNamed(js, n - 1, k);
    }
  }

  lemma {:induction false} RootAt(f: Forest, k: nat)
    requires k < Count(f)
    ensures |Roots(f)| == Count(f) && Roots(f)[k] == TreeAt(f, k).item
  {
    RootsCount(f);
    RootsCount(f.init);
    if k < Count(f) - 1 {
      RootAt(f.init, k);
    }
  }

  lemma {:induction false} RootsCount(f: Forest)
    ensures |Roots(f)| == Count(f)
  {
    if f.Snoc? {
      RootsCount(f.init);
    }
  }

  lemma {:induction false} BelowAt(f: Forest, k: nat, breadth: nat, depth: nat)
    requires k < Count(f) && PrunedBelow(f, breadth, depth)
    ensures TreeAt(f, k).children == PruneAll(TreeAt(f, k).item.children, breadth, depth)
  {
    if k < Count(f) - 1 {
      BelowAt(f.init, k, breadth, depth);
    }
  }

  /** One level: as many trees as named objects within the cap, each made of its object. */
  lemma {:induction false} LevelRead(js: seq<Json>, breadth: nat, depth: nat, k: nat)
    requires depth > 0
    ensures
      var f := PruneAll(ReadItems(js), breadth, depth);
      && (k < Count(f) <==> k < breadth && k < |Kept(js)|)
      && (k < Count(f) ==>
            && TreeAt(f, k).item == ReadItem(Kept(js)[k])
            && TreeAt(f, k).children == PruneAll(ReadItems(ChildrenJson(Kept(js)[k])), breadth, depth - 1))
  {
    var items := ReadItems(js);
    var f := PruneAll(items, breadth, depth);
    ReadLength(js);
    LevelKeeps(items, |items|, breadth, depth);
    NamedRead(js, |js|, k);
    if k < Count(f) {
      RootAt(f, k);
      BelowAt(f, k, breadth, depth - 1);
      ReadKeeps(Kept(js)[k]);
    }
  }

  /** The first position of a path is there in the forest iff it is there in the JSON, over the same object. */
  lemma {:induction false} FirstStep(
    js: seq<Json>, path: seq<nat>, breadth: nat, depth: nat, f: Forest, below: Forest, j: Json)
    requires path != [] && depth > 0 && f == PruneAll(ReadItems(js), breadth, depth)
    requires path[0] < breadth && path[0] < |Kept(js)| && j == Kept(js)[path[0]]
    requires below == PruneAll(ReadItems(ChildrenJson(j)), breadth, depth - 1)
    ensures path[0] < Count(f) && TreeAt(f, path[0]) == Node(ReadItem(j), below)
  {
    LevelRead(js, breadth, depth, path[0]);
  }

  lemma {:induction false} ValidUnfolds(f: Forest, path: seq<nat>, below: Forest, item: Item)
    requires path != [] && path[0] < Count(f) && TreeAt(f, path[0]) == Node(item, below)
    ensures ValidPath(f, path) <==> |path| == 1 || ValidPath(below, path[1..])
    ensures ValidPath(f, path) ==> ItemAt(f, path) == if |path| == 1 then item else ItemAt(below, path[1..])
  {
  }

  lemma {:induction false} JsonUnfolds(js: seq<Json>, path: seq<nat>, breadth: nat, depth: nat, j: Json)
    requires path != [] && depth > 0 && path[0] < breadth && path[0] < |Kept(js)| && j == Kept(js)[path[0]]
    ensures JsonPath(js, path, breadth, depth) <==>
              |path| == 1 || JsonPath(ChildrenJson(j), path[1..], breadth, depth - 1)
    ensures JsonPath(js, path, breadth, depth) ==>
              JsonAt(js, path, breadth, depth)
              == if |path| == 1 then j else JsonAt(ChildrenJson(j), path[1..], breadth, depth - 1)
  {
  }

  lemma {:induction false} NoFirstStep(js: seq<Json>, path: seq<nat>, breadth: nat, depth: nat)
    requires path == [] || depth == 0 || path[0] >= breadth || path[0] >= |Kept(js)|
    ensures !ValidPath(PruneAll(ReadItems(js), breadth, depth), path) && !JsonPath(js, path, breadth, depth)
  {
    if path != [] && depth > 0 {
      LevelRead(js, breadth, depth, path[0]);
    }
  }

  /** The path is there in both or in neither, and leads to the same object. */
  ghost predicate SameEnd(js: seq<Json>, path: seq<nat>, breadth: nat, depth: nat, f: Forest) {
    && (ValidPath(f, path) <==> JsonPath(js, path, breadth, depth))
    && (JsonPath(js, path, breadth, depth) ==> ItemAt(f, path) == ReadItem(JsonAt(js, path, breadth, depth)))
  }

  lemma {:induction false} SameEndHere(js: seq<Json>, path: seq<nat>, breadth: nat, depth: nat, f: Forest)
    requires f == PruneAll(ReadItems(js), breadth, depth)
    requires |path| <= 1 || depth == 0 || path[0] >= breadth || path[0] >= |Kept(js)|
    ensures SameEnd(js, path, breadth, depth, f)
  {
    if path == [] || depth == 0 || path[0] >= breadth || path[0] >= |Kept(js)| {
      NoFirstStep(js, path, breadth, depth);
    } else {
      var j := Kept(js)[path[0]];
      var below := PruneAll(ReadItems(ChildrenJson(j)), breadth, depth - 1);
      FirstStep(js, path, breadth, depth, f, below, j);
      ValidUnfolds(f, path, below, ReadItem(j));
      JsonUnfolds(js, path, breadth, depth, j);
    }
  }

  lemma {:induction false} SameEndStep(
    js: seq<Json>, path: seq<nat>, breadth: nat, depth: nat, f: Forest, j: Json, below: Forest)
    requires f == PruneAll(ReadItems(js), breadth, depth)
    requires |path| > 1 && depth > 0 && path[0] < breadth && path[0] < |Kept(js)| && j == Kept(js)[path[0]]
    requires below == PruneAll(ReadItems(ChildrenJson(j)), breadth, depth - 1)
    requires SameEnd(ChildrenJson(j), path[1..], breadth, depth - 1, below)
    ensures SameEnd(js, path, breadth, depth, f)
  {
    FirstStep(js, path, breadth, depth, f, below, j);
    ValidUnfolds(f, path, below, ReadItem(j));
    JsonUnfolds(js, path, breadth, depth, j);
  }

  /** The paths of the pruned forest are the paths of the JSON within the caps, and lead to the same objects. */
  lemma {:induction false} PathsMatch(js: seq<Json>, path: seq<nat>, breadth: nat, depth: nat, f: Forest)
    requires f == PruneAll(ReadItems(js), breadth, depth)
    ensures SameEnd(js, path, breadth, depth, f)
    decreases |path|
  {
    if |path| <= 1 || depth == 0 || path[0] >= breadth || path[0] >= |Kept(js)| {
      SameEndHere(js, path, breadth, depth, f);
    } else {
      var j := Kept(js)[path[0]];
      var below := PruneAll(ReadItems(ChildrenJson(j)), breadth, depth - 1);
      PathsMatch(ChildrenJson(j), path[1..], breadth, depth - 1, below);
      SameEndStep(js, path, breadth, depth, f, j, below);
    }
  }

  lemma {:induction false} JsonAtNamed(js: seq<Json>, path: seq<nat>, breadth: nat, depth: nat)
    requires JsonPath(js, path, breadth, depth)
    ensures IsNamed(JsonAt(js, path, breadth, depth))
    decreases |path|
  {
    if |path| == 1 {
      KeptNamed(js, |js|, path[0]);
    } else {
      JsonAtNamed(ChildrenJson(Kept(js)[path[0]]), path[1..], breadth, depth - 1);
    }
  }

  // ---------- ids ----------

  /** The 1-based positions, separated by dots. */
  ghost function Dotted(path: seq<nat>): string
    requires path != []
    decreases |path|
  {
    if |path| == 1 then Decimal(path[0] + 1) else Decimal(path[0] + 1) + "." + Dotted(path[1..])
  }

  lemma {:induction false} DottedUnder(prefix: string, path: seq<nat>)
    requires |path| > 1
    ensures prefix + Decimal(path[0] + 1) + "." + Dotted(path[1..]) == prefix + Dotted(path)
  {
    var d, rest := Decimal(path[0] + 1), Dotted(path[1..]);
    assert Dotted(path) == d + "." + rest;
    assert prefix + d + "." + rest == prefix + (d + "." + rest);
  }

  lemma {:induction false} PathIdDotted(prefix: string, path: seq<nat>)
    requires path != []
    ensures PathId(prefix, path) == prefix + Dotted(path)
    decreases |path|
  {
    if |path| > 1 {
      PathIdDotted(prefix + Decimal(path[0] + 1) + ".", path[1..]);
      DottedUnder(prefix, path);
    }
  }

  lemma {:induction false} PathParentDotted(parent: Option<string>, prefix: string, path: seq<nat>)
    requires path != []
    ensures |path| == 1 ==> PathParent(parent, prefix, path) == parent
    ensures |path| > 1 ==> PathParent(parent, prefix, path) == Some(prefix + Dotted(path[..|path| - 1]))
    decreases |path|
  {
    if |path| > 1 {
      var head, up := prefix + Decimal(path[0] + 1), path[..|path| - 1];
      PathParentDotted(Some(head), head + ".", path[1..]);
      if |path| == 2 {
        assert up == [path[0]];
      } else {
        assert up[1..] == path[1..][..|path| - 2];
        DottedUnder(prefix, up);
      }
    }
  }

  // ---------- the flattened list ----------

  /** `min(max(1, requested), ceiling)` with the two absolute ceilings. */
  function Cap(requested: int, ceiling: nat): nat {
    if requested < 1 then 1 else if requested > ceiling then ceiling else requested
  }

  lemma {:induction false} PrunedCaps(tree: seq<Json>, maxBreadth: int, maxDepth: int)
    ensures Pruned(tree, maxBreadth, maxDepth) == PruneAll(ReadItems(tree), Cap(maxBreadth, 10), Cap(maxDepth, 4))
  {
  }

  /** A node carries its path in its ids and its object's fields in its own. */
  ghost predicate Carries(n: DraftNode, j: Json, path: seq<nat>)
    requires path != []
  {
    && j.Obj?
    && n.tempId == "n" + Dotted(path)
    && n.parent == (if |path| == 1 then None else Some("n" + Dotted(path[..|path| - 1])))
    && (exists title :: Says(j.fields, "title", title) && n.title == Strip(title))
    && Says(j.fields, "description", n.description)
    && TypeOf(j.fields, n.elementType)
    && RequirementOf(j.fields, n.requirement)
  }

  lemma {:induction false} RenderedCarries(j: Json, path: seq<nat>, n: DraftNode)
    requires path != [] && j.Obj?
    requires Rendered(Entry(PathId("n", path), PathParent(None, "n", path), ReadItem(j))) == Some(n)
    ensures Carries(n, j, path)
  {
    PathIdDotted("n", path);
    PathParentDotted(None, "n", path);
    ReadKeeps(j);
  }

  lemma {:induction false} NodeCarries(f: Forest, nodes: seq<DraftNode>, path: seq<nat>, j: Json)
    requires Emit([], f, None, "n") == Some(nodes) && ValidPath(f, path)
    requires j.Obj? && ItemAt(f, path) == ReadItem(j)
    ensures Position(f, path) < |nodes| && Carries(nodes[Position(f, path)], j, path)
  {
    var at := Position(f, path);
    EmitRenders([], f, None, "n");
    LayoutAtPath(f, path, None, "n");
    assert Rendered(Layout(f, None, "n")[at]) == Some(nodes[0 + at]);
    RenderedCarries(j, path, nodes[at]);
  }

  /** The flattened list holds one node for every path of named objects within the caps and no other: as many as
      the forest has, at the path's pre-order position, with the path as its ids and the object's fields in its
      own. */
  lemma {:induction false} FlattenedFromJson(
    tree: seq<Json>, maxBreadth: int, maxDepth: int, nodes: seq<DraftNode>, path: seq<nat>)
    requires Emit([], Pruned(tree, maxBreadth, maxDepth), None, "n") == Some(nodes)
    ensures
      var f, b, d := Pruned(tree, maxBreadth, maxDepth), Cap(maxBreadth, 10), Cap(maxDepth, 4);
      && |nodes| == Size(f)
      && (ValidPath(f, path) <==> JsonPath(tree, path, b, d))
      && (JsonPath(tree, path, b, d) ==>
            Position(f, path) < |nodes| && Carries(nodes[Position(f, path)], JsonAt(tree, path, b, d), path))
  {
    var f, b, d := Pruned(tree, maxBreadth, maxDepth), Cap(maxBreadth, 10), Cap(maxDepth, 4);
    PrunedCaps(tree, maxBreadth, maxDepth);
    PathsMatch(tree, path, b, d, f);
    EmitRenders([], f, None, "n");
    LayoutSize(f, None, "n");
    if JsonPath(tree, path, b, d) {
      JsonAtNamed(tree, path, b, d);
      NodeCarries(f, nodes, path, JsonAt(tree, path, b, d));
    }
  }

  // ---------- when it raises ----------

  ghost predicate Unreadable(tree: seq<Json>, path: seq<nat>, b: nat, d: nat) {
    JsonPath(tree, path, b, d) && JsonAt(tree, path, b, d).Obj? && BadRequirement(JsonAt(tree, path, b, d).fields)
  }

  lemma {:induction false} UnreadableAt(tree: seq<Json>, path: seq<nat>, b: nat, d: nat, f: Forest)
    requires f == PruneAll(ReadItems(tree), b, d) && ValidPath(f, path)
    ensures Unreadable(tree, path, b, d) <==> ItemAt(f, path).requirement.None?
  {
    PathsMatch(tree, path, b, d, f);
    JsonAtNamed(tree, path, b, d);
    ReadKeeps(JsonAt(tree, path, b, d));
  }

  /** The walk raises exactly when some object it keeps has a requirement that is neither nothing nor a
      dictionary. */
  lemma {:induction false} FlattenRaisesExactly(tree: seq<Json>, maxBreadth: int, maxDepth: int)
    ensures Emit([], Pruned(tree, maxBreadth, maxDepth), None, "n").None? <==>
              exists path :: Unreadable(tree, path, Cap(maxBreadth, 10), Cap(maxDepth, 4))
  {
    var f, b, d := Pruned(tree, maxBreadth, maxDepth), Cap(maxBreadth, 10), Cap(maxDepth, 4);
    PrunedCaps(tree, maxBreadth, maxDepth);
    EmitRaises([], f, None, "n");
    LayoutSize(f, None, "n");
    var entries := Layout(f, None, "n");
    if !AllReadable(entries) {
      var i :| 0 <= i < |entries| && entries[i].item.requirement.None?;
      var path := PathOfEntry(f, i);
      LayoutAtPath(f, path, None, "n");
      UnreadableAt(tree, path, b, d, f);
    }
    if path :| Unreadable(tree, path, b, d) {
      PathsMatch(tree, path, b, d, f);
      LayoutAtPath(f, path, None, "n");
      UnreadableAt(tree, path, b, d, f);
      assert entries[Position(f, path)].item.requirement.None?;
    }
  }

  // ---------- writing items as provider JSON ----------

  /** An item that a provider can write: named, readable, and so are its children. */
  ghost predicate Writable(item: Item)
    decreases item, 0
  {
    && item.named && item.title != "" && Trimmed(item.title) && item.elementType != "" && item.requirement.Some?
    && AllWritable(item.children)
  }

  ghost predicate AllWritable(items: seq<Item>)
    decreases items, 1
  {
    items == [] || (Writable(items[0]) && AllWritable(items[1..]))
  }

  function Encode(item: Item): Json
    decreases item, 0
  {
    Obj(map["title" := Str(item.title), "description" := Str(item.description),
            "element_type" := Str(item.elementType),
            "requirement" := (if item.requirement.Some? then RequirementToDict(item.requirement.value) else Str("?")),
            "children" := Arr(EncodeAll(item.children))])
  }

  function EncodeAll(items: seq<Item>): seq<Json>
    decreases items, 1
  {
    if items == [] then [] else [Encode(items[0])] + EncodeAll(items[1..])
  }

  lemma {:induction false} EncodeFields(item: Item)
    requires Writable(item)
    ensures
      var j := Encode(item);
      && j.Obj? && Field(j, "title") == item.title && Field(j, "description") == item.description
      && ElementType(j) == item.elementType
      && Get(j, "requirement", Null) == RequirementToDict(item.requirement.value)
      && ChildrenJson(j) == EncodeAll(item.children)
  {
  }

  /** Reading what was written gives the item back, children and all five fields included. */
  lemma {:induction false} EncodeRoundTrip(item: Item)
    requires Writable(item)
    ensures ReadItem(Encode(item)) == item
    decreases item, 0
  {
    var j := Encode(item);
    EncodeFields(item);
    RequirementRoundTrip(item.requirement.value);
    EncodeAllRoundTrip(item.children);
    ReadKeeps(j);
  }

  lemma {:induction false} ReadCons(first: Json, rest: seq<Json>)
    ensures ReadItems([first] + rest) == [ReadItem(first)] + ReadItems(rest)
  {
    assert ([first] + rest)[1..] == rest;
  }

  lemma {:induction false} EncodeAllRoundTrip(items: seq<Item>)
    requires AllWritable(items)
    ensures ReadItems(EncodeAll(items)) == items
    decreases items, 1
  {
    if items != [] {
      EncodeRoundTrip(items[0]);
      EncodeAllRoundTrip(items[1..]);
      ReadCons(Encode(items[0]), EncodeAll(items[1..]));
      assert items == [items[0]] + items[1..];
    }
  }
}
