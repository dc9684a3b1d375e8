/** What every flattened tree satisfies: which items it keeps, its size bound, its
    numbering, and the facts that let the commit replay it in one pass. */
module FlattenFacts {
  import opened Text
  import opened PyJson
  import opened Draft
  import opened FlattenTree

  // ---------- which items a level keeps ----------

  /** The named items among the first `i`. */
  function Named(items: seq<Item>, i: nat): seq<Item>
    requires i <= |items|
  {
    if i == 0 then [] else Named(items, i - 1) + if items[i - 1].named then [items[i - 1]] else []
  }

  function Roots(f: Forest): seq<Item> {
    match f
    case Empty => []
    case Snoc(init, last) => Roots(init) + [last.item]
  }

  /** Every tree of `f` has below it what pruning its item's own children gives. */
  ghost predicate PrunedBelow(f: Forest, breadth: nat, depth: nat) {
    match f
    case Empty => true
    case Snoc(init, last) =>
      PrunedBelow(init, breadth, depth) && last.children == PruneAll(last.item.children, breadth, depth)
  }

  function First(s: seq<Item>, k: nat): seq<Item> {
    if |s| <= k then s else s[..k]
  }

  /** A level keeps the first `breadth` named items, each over its own pruned children; below the
      deepest level nothing is kept. */
  lemma {:induction false} LevelKeeps(items: seq<Item>, i: nat, breadth: nat, depth: nat)
    requires i <= |items|
    ensures depth == 0 ==> Prune(items, i, breadth, depth) == Empty
    ensures depth > 0 ==>
      var f := Prune(items, i, breadth, depth);
      Roots(f) == First(Named(items, i), breadth) && |Roots(f)| == Count(f) && PrunedBelow(f, breadth, depth - 1)
    decreases i
  {
    if i > 0 {
      LevelKeeps(items, i - 1, breadth, depth);
    }
  }

  // ---------- size ----------

  function Size(f: Forest): nat {
    match f
    case Empty => 0
    case Snoc(init, last) => Size(init) + 1 + Size(last.children)
  }

  /** breadth + breadth^2 + ... + breadth^depth */
  function Bound(breadth: nat, depth: nat): nat {
    if depth == 0 then 0 else breadth * (1 + Bound(breadth, depth - 1))
  }

  lemma {:induction false} MulMono(a: nat, b: nat, c: nat, d: nat)
    requires a <= b && c <= d
    ensures a * c <= b * d
  {
    assert b * d == a * c + (b - a) * c + b * (d - c);
  }

  lemma {:induction false} LevelSize(items: seq<Item>, i: nat, breadth: nat, depth: nat)
    requires i <= |items|
    ensures Count(Prune(items, i, breadth, depth)) <= breadth
    ensures depth > 0 ==>
      var f := Prune(items, i, breadth, depth);
      Size(f) <= Count(f) * (1 + Bound(breadth, depth - 1))
    ensures depth == 0 ==> Prune(items, i, breadth, depth) == Empty
    decreases depth, i
  {
    if i > 0 && depth > 0 {
      var k := Bound(breadth, depth - 1);
      var before := Prune(items, i - 1, breadth, depth);
      LevelSize(items, i - 1, breadth, depth);
      PruneBound(items[i - 1].children, breadth, depth - 1);
      assert (Count(before) + 1) * (1 + k) == Count(before) * (1 + k) + (1 + k);
    }
  }

  lemma {:induction false} PruneBound(items: seq<Item>, breadth: nat, depth: nat)
    ensures Size(PruneAll(items, breadth, depth)) <= Bound(breadth, depth)
    decreases depth, |items| + 1
  {
    LevelSize(items, |items|, breadth, depth);
    if depth > 0 {
      MulMono(Count(PruneAll(items, breadth, depth)), breadth, 1 + Bound(breadth, depth - 1), 1 + Bound(breadth, depth - 1));
    }
  }

  lemma {:induction false} BoundMonotone(b: nat, d: nat, b': nat, d': nat)
    requires b <= b' && d <= d'
    ensures Bound(b, d) <= Bound(b', d')
  {
    if d > 0 {
      BoundMonotone(b, d - 1, b', d' - 1);
      MulMono(b, b', 1 + Bound(b, d - 1), 1 + Bound(b', d' - 1));
    }
  }

  /** No request for caps, however large, yields more than 10 + 100 + 1000 + 10000 nodes. */
  lemma {:induction false} PrunedBound(tree: seq<Json>, maxBreadth: int, maxDepth: int)
    ensures Size(Pruned(tree, maxBreadth, maxDepth)) <= 10 + 100 + 1000 + 10000
  {
    var b, d := Clamp(maxBreadth, ABSOLUTE_MAX_BREADTH), Clamp(maxDepth, ABSOLUTE_MAX_DEPTH);
    PruneBound(ReadItems(tree), b, d);
    BoundMonotone(b, d, 10, 4);
    assert Bound(10, 1) == 10;
    assert Bound(10, 2) == 110;
    assert Bound(10, 3) == 1110;
  }

  // ---------- the list in pre-order ----------

  /** The names and items of a forest in pre-order. */
  function Layout(f: Forest, parent: Option<string>, prefix: string): seq<Entry>
    decreases f
  {
    match f
    case Empty => []
    case Snoc(init, last) => Layout(init, parent, prefix) + LayoutTree(last, parent, ChildId(prefix, Count(f)))
  }

  function LayoutTree(t: Tree, parent: Option<string>, id: string): seq<Entry>
    decreases t
  {
    [Entry(id, parent, t.item)] + Layout(t.children, Some(id), id + ".")
  }

  lemma {:induction false} LayoutSize(f: Forest, parent: Option<string>, prefix: string)
    ensures |Layout(f, parent, prefix)| == Size(f)
    decreases f
  {
    match f
    case Empty =>
    case Snoc(init, last) =>
      var id := ChildId(prefix, Count(f));
      LayoutSize(init, parent, prefix);
      LayoutSize(last.children, Some(id), id + ".");
  }

  /** `after` is `before` followed by one rendered node per entry. */
  ghost predicate Renders(before: seq<DraftNode>, after: seq<DraftNode>, entries: seq<Entry>) {
    && |after| == |before| + |entries|
    && (forall i :: 0 <= i < |before| ==> after[i] == before[i])
    && (forall i :: 0 <= i < |entries| ==> Rendered(entries[i]) == Some(after[|before| + i]))
  }

  lemma {:induction false} RendersThen(
    before: seq<DraftNode>, mid: seq<DraftNode>, after: seq<DraftNode>, e1: seq<Entry>, e2: seq<Entry>)
    requires Renders(before, mid, e1) && Renders(mid, after, e2)
    ensures Renders(before, after, e1 + e2)
  {
    var e := e1 + e2;
    forall i | 0 <= i < |e| ensures Rendered(e[i]) == Some(after[|before| + i]) {
      if i >= |e1| {
        assert e[i] == e2[i - |e1|] && after[|mid| + (i - |e1|)] == after[|before| + i];
      } else {
        assert mid[|before| + i] == after[|before| + i];
      }
    }
  }

  lemma {:induction false} EmitRenders(before: seq<DraftNode>, f: Forest, parent: Option<string>, prefix: string)
    requires Emit(before, f, parent, prefix).Some?
    ensures Renders(before, Emit(before, f, parent, prefix).value, Layout(f, parent, prefix))
    decreases f, 1
  {
    match f
    case Empty =>
    case Snoc(init, last) =>
      var mid := Emit(before, init, parent, prefix).value;
      var id := ChildId(prefix, Count(f));
      EmitRenders(before, init, parent, prefix);
      EmitTreeRenders(mid, last, parent, id);
      RendersThen(
        before, mid, Emit(before, f, parent, prefix).value, Layout(init, parent, prefix), LayoutTree(last, parent, id));
  }

  lemma {:induction false} EmitTreeRenders(before: seq<DraftNode>, t: Tree, parent: Option<string>, id: string)
    requires EmitTree(before, t, parent, id).Some?
    ensures Renders(before, EmitTree(before, t, parent, id).value, LayoutTree(t, parent, id))
    decreases t, 0
  {
    var top := Entry(id, parent, t.item);
    var mid := before + [Rendered(top).value];
    EmitRenders(mid, t.children, Some(id), id + ".");
    assert Renders(before, mid, [top]);
    RendersThen(
      before, mid, EmitTree(before, t, parent, id).value, [top], Layout(t.children, Some(id), id + "."));
  }

  ghost predicate AllReadable(entries: seq<Entry>) {
    forall i :: 0 <= i < |entries| ==> entries[i].item.requirement.Some?
  }

  lemma {:induction false} AllReadableConcat(a: seq<Entry>, b: seq<Entry>)
    ensures AllReadable(a + b) <==> AllReadable(a) && AllReadable(b)
  {
    if AllReadable(a + b) {
      forall i | 0 <= i < |a| ensures a[i].item.requirement.Some? { assert a[i] == (a + b)[i]; }
      forall i | 0 <= i < |b| ensures b[i].item.requirement.Some? { assert b[i] == (a + b)[|a| + i]; }
    }
  }

  /** The walk raises exactly when a kept item's requirement cannot be read. */
  lemma {:induction false} EmitRaises(before: seq<DraftNode>, f: Forest, parent: Option<string>, prefix: string)
    ensures Emit(before, f, parent, prefix).Some? <==> AllReadable(Layout(f, parent, prefix))
    decreases f, 1
  {
    match f
    case Empty =>
    case Snoc(init, last) =>
      var id := ChildId(prefix, Count(f));
      EmitRaises(before, init, parent, prefix);
      AllReadableConcat(Layout(init, parent, prefix), LayoutTree(last, parent, id));
      if Emit(before, init, parent, prefix).Some? {
        EmitTreeRaises(Emit(before, init, parent, prefix).value, last, parent, id);
      }
  }

  lemma {:induction false} EmitTreeRaises(before: seq<DraftNode>, t: Tree, parent: Option<string>, id: string)
    ensures EmitTree(before, t, parent, id).Some? <==> AllReadable(LayoutTree(t, parent, id))
    decreases t, 0
  {
    var top := Entry(id, parent, t.item);
    AllReadableConcat([top], Layout(t.children, Some(id), id + "."));
    assert AllReadable([top]) <==> [top][0].item.requirement.Some?;
    if Rendered(top).Some? {
      EmitRaises(before + [Rendered(top).value], t.children, Some(id), id + ".");
    }
  }

  // ---------- paths ----------

  ghost function TreeAt(f: Forest, k: nat): Tree
    requires k < Count(f)
  {
    if k == Count(f) - 1 then f.last else TreeAt(f.init, k)
  }

  /** How many nodes the first `k` trees hold. */
  ghost function SizeBefore(f: Forest, k: nat): nat
    requires k <= Count(f)
  {
    if k == Count(f) then Size(f) else SizeBefore(f.init, k)
  }

  /** A non-empty list of 0-based child positions leading to a node. */
  ghost predicate ValidPath(f: Forest, path: seq<nat>)
    decreases |path|
  {
    && path != []
    && path[0] < Count(f)
    && (|path| > 1 ==> ValidPath(TreeAt(f, path[0]).children, path[1..]))
  }

  ghost function ItemAt(f: Forest, path: seq<nat>): Item
    requires ValidPath(f, path)
    decreases |path|
  {
    var t := TreeAt(f, path[0]);
    if |path| == 1 then t.item else ItemAt(t.children, path[1..])
  }

  /** The dotted 1-based rendering of a path below `prefix`. */
  ghost function PathId(prefix: string, path: seq<nat>): string
    requires path != []
    decreases |path|
  {
    var head := ChildId(prefix, path[0] + 1);
    if |path| == 1 then head else PathId(head + ".", path[1..])
  }

  ghost function PathParent(parent: Option<string>, prefix: string, path: seq<nat>): Option<string>
    requires path != []
    decreases |path|
  {
    var head := ChildId(prefix, path[0] + 1);
    if |path| == 1 then parent else PathParent(Some(head), head + ".", path[1..])
  }

  /** How many nodes precede a path in pre-order. */
  ghost function Position(f: Forest, path: seq<nat>): nat
    requires ValidPath(f, path)
    decreases |path|
  {
    SizeBefore(f, path[0]) + if |path| == 1 then 0 else 1 + Position(TreeAt(f, path[0]).children, path[1..])
  }

  lemma {:induction false} PrefixTransitive<T>(a: seq<T>, b: seq<T>, c: seq<T>)
    requires a <= b && b <= c
    ensures a <= c
  {
    assert c[..|a|] == b[..|a|] == a;
  }

  lemma {:induction false} LayoutTreeAt(f: Forest, k: nat, parent: Option<string>, prefix: string)
    returns (before: seq<Entry>)
    requires k < Count(f)
    ensures |before| == SizeBefore(f, k)
    ensures before + LayoutTree(TreeAt(f, k), parent, ChildId(prefix, k + 1)) <= Layout(f, parent, prefix)
  {
    if k == Count(f) - 1 {
      before := Layout(f.init, parent, prefix);
      LayoutSize(f.init, parent, prefix);
    } else {
      before := LayoutTreeAt(f.init, k, parent, prefix);
      PrefixTransitive(
        before + LayoutTree(TreeAt(f, k), parent, ChildId(prefix, k + 1)),
        Layout(f.init, parent, prefix), Layout(f, parent, prefix));
    }
  }

  /** The node at a path stands at the path's pre-order position, under the path's dotted name. */
  lemma {:induction false} LayoutAtPath(f: Forest, path: seq<nat>, parent: Option<string>, prefix: string)
    requires ValidPath(f, path)
    ensures
      var at := Position(f, path);
      && at < |Layout(f, parent, prefix)|
      && Layout(f, parent, prefix)[at]
         == Entry(PathId(prefix, path), PathParent(parent, prefix, path), ItemAt(f, path))
    decreases |path|
  {
    var t := TreeAt(f, path[0]);
    var id := ChildId(prefix, path[0] + 1);
    var before := LayoutTreeAt(f, path[0], parent, prefix);
    var one := LayoutTree(t, parent, id);
    if |path| == 1 {
      assert (before + one)[|before|] == one[0];
    } else {
      LayoutAtPath(t.children, path[1..], Some(id), id + ".");
      var below := Position(t.children, path[1..]);
      assert one[1 + below] == Layout(t.children, Some(id), id + ".")[below];
      assert (before + one)[|before| + 1 + below] == one[1 + below];
    }
  }

  /** Every listed node is the node at some path: nothing is invented. */
  lemma {:induction false} PathOfEntry(f: Forest, at: nat) returns (path: seq<nat>)
    requires at < Size(f)
    ensures ValidPath(f, path) && Position(f, path) == at
    decreases f
  {
    var before := Size(f.init);
    assert SizeBefore(f, Count(f.init)) == SizeBefore(f.init, Count(f.init)) == before;
    if at < before {
      path := PathOfEntry(f.init, at);
    } else if at == before {
      path := [Count(f.init)];
    } else {
      var below := PathOfEntry(f.last.children, at - before - 1);
      path := [Count(f.init)] + below;
      assert path[1..] == below;
    }
  }

  /** Pre-order on paths: an ancestor before its descendants, an elder sibling's subtree before a younger's. */
  ghost predicate Precedes(p: seq<nat>, q: seq<nat>)
    decreases |p|
  {
    if p == [] then q != []
    else q != [] && (p[0] < q[0] || (p[0] == q[0] && Precedes(p[1..], q[1..])))
  }

  lemma {:induction false} SizeBeforeStep(f: Forest, j: nat, k: nat)
    requires j < k <= Count(f)
    ensures SizeBefore(f, j) + 1 + Size(TreeAt(f, j).children) <= SizeBefore(f, k)
    decreases f
  {
    if k < Count(f) || j < Count(f) - 1 {
      SizeBeforeStep(f.init, j, if k < Count(f) then k else k - 1);
    }
  }

  lemma {:induction false} PositionInside(f: Forest, path: seq<nat>)
    requires ValidPath(f, path)
    ensures Position(f, path) < Size(f)
    decreases |path|
  {
    SizeBeforeStep(f, path[0], Count(f));
    if |path| > 1 {
      PositionInside(TreeAt(f, path[0]).children, path[1..]);
    }
  }

  /** The list is in pre-order. */
  lemma {:induction false} PositionsFollowPreOrder(f: Forest, p: seq<nat>, q: seq<nat>)
    requires ValidPath(f, p) && ValidPath(f, q) && Precedes(p, q)
    ensures Position(f, p) < Position(f, q)
    decreases |p|
  {
    if p[0] < q[0] {
      SizeBeforeStep(f, p[0], q[0]);
      if |p| > 1 {
        PositionInside(TreeAt(f, p[0]).children, p[1..]);
      }
    } else if |p| > 1 {
      PositionsFollowPreOrder(TreeAt(f, p[0]).children, p[1..], q[1..]);
    }
  }

  // ---------- names ----------

  /** `id` names child number `k` below `prefix`, or something below that child. */
  ghost predicate Under(id: string, prefix: string, k: nat) {
    var head := ChildId(prefix, k);
    head <= id && (|head| < |id| ==> id[|head|] == '.')
  }

  lemma {:induction false} DigitsInside(id: string, prefix: string, k: nat)
    requires Under(id, prefix, k)
    ensures forall t :: |prefix| <= t < |prefix| + |Decimal(k)| ==> IsDigit(id[t])
  {
    DecimalDigits(k);
    var head := prefix + Decimal(k);
    forall t | |prefix| <= t < |head| ensures IsDigit(id[t]) {
      assert id[t] == head[t] == Decimal(k)[t - |prefix|];
    }
  }

  lemma {:induction false} UnderUnique(id: string, prefix: string, j: nat, k: nat)
    requires Under(id, prefix, j) && Under(id, prefix, k)
    ensures j == k
  {
    DigitsInside(id, prefix, j);
    DigitsInside(id, prefix, k);
    var hj, hk := prefix + Decimal(j), prefix + Decimal(k);
    assert |hj| == |hk|;
    assert hj == id[..|hj|] == hk;
    assert Decimal(j) == hj[|prefix|..] == hk[|prefix|..] == Decimal(k);
    DecimalInjective(j, k);
  }

  lemma {:induction false} UnderDescends(id: string, prefix: string, k: nat, j: nat)
    requires Under(id, ChildId(prefix, k) + ".", j)
    ensures Under(id, prefix, k) && |id| > |ChildId(prefix, k)|
  {
    var head := ChildId(prefix, k);
    var deeper := ChildId(head + ".", j);
    assert deeper[..|head|] == head && deeper[|head|] == '.';
    assert id[..|head|] == deeper[..|head|];
    assert id[|head|] == deeper[|head|];
  }

  lemma {:induction false} LayoutNames(f: Forest, parent: Option<string>, prefix: string, i: nat)
    returns (k: nat)
    requires i < |Layout(f, parent, prefix)|
    ensures 1 <= k <= Count(f) && Under(Layout(f, parent, prefix)[i].tempId, prefix, k)
    decreases f, 1
  {
    var before := Layout(f.init, parent, prefix);
    if i < |before| {
      k := LayoutNames(f.init, parent, prefix, i);
    } else {
      k := Count(f);
      TreeNames(f.last, parent, prefix, k, i - |before|);
    }
  }

  lemma {:induction false} TreeNames(t: Tree, parent: Option<string>, prefix: string, k: nat, i: nat)
    requires i < |LayoutTree(t, parent, ChildId(prefix, k))|
    ensures Under(LayoutTree(t, parent, ChildId(prefix, k))[i].tempId, prefix, k)
    decreases t, 0
  {
    var id := ChildId(prefix, k);
    if i > 0 {
      var j := LayoutNames(t.children, Some(id), id + ".", i - 1);
      UnderDescends(Layout(t.children, Some(id), id + ".")[i - 1].tempId, prefix, k, j);
    }
  }

  ghost predicate DistinctNames(entries: seq<Entry>) {
    forall i, j :: 0 <= i < j < |entries| ==> entries[i].tempId != entries[j].tempId
  }

  ghost predicate Avoids(entries: seq<Entry>, others: seq<Entry>) {
    forall i, j :: 0 <= i < |entries| && 0 <= j < |others| ==> entries[i].tempId != others[j].tempId
  }

  lemma {:induction false} DistinctConcat(a: seq<Entry>, b: seq<Entry>)
    requires DistinctNames(a) && DistinctNames(b) && Avoids(a, b)
    ensures DistinctNames(a + b)
  {
  }

  lemma {:induction false} LayoutDistinct(f: Forest, parent: Option<string>, prefix: string)
    ensures DistinctNames(Layout(f, parent, prefix))
    decreases f, 1
  {
    match f
    case Empty =>
    case Snoc(init, last) =>
      LayoutDistinct(init, parent, prefix);
      LayoutTreeDistinct(last, parent, prefix, Count(f));
      SiblingsAvoid(f, parent, prefix);
      DistinctConcat(Layout(init, parent, prefix), LayoutTree(last, parent, ChildId(prefix, Count(f))));
  }

  lemma {:induction false} LayoutTreeDistinct(t: Tree, parent: Option<string>, prefix: string, k: nat)
    ensures DistinctNames(LayoutTree(t, parent, ChildId(prefix, k)))
    decreases t, 0
  {
    var id := ChildId(prefix, k);
    var below := Layout(t.children, Some(id), id + ".");
    LayoutDistinct(t.children, Some(id), id + ".");
    forall j | 0 <= j < |below| ensures id != below[j].tempId {
      var c := LayoutNames(t.children, Some(id), id + ".", j);
      UnderDescends(below[j].tempId, prefix, k, c);
    }
    DistinctConcat([Entry(id, parent, t.item)], below);
  }

  lemma {:induction false} SiblingsAvoid(f: Forest, parent: Option<string>, prefix: string)
    requires f.Snoc?
    ensures Avoids(Layout(f.init, parent, prefix), LayoutTree(f.last, parent, ChildId(prefix, Count(f))))
  {
    var before := Layout(f.init, parent, prefix);
    var one := LayoutTree(f.last, parent, ChildId(prefix, Count(f)));
    forall i, j | 0 <= i < |before| && 0 <= j < |one| ensures before[i].tempId != one[j].tempId {
      var k := LayoutNames(f.init, parent, prefix, i);
      TreeNames(f.last, parent, prefix, Count(f), j);
      if before[i].tempId == one[j].tempId {
        UnderUnique(before[i].tempId, prefix, k, Count(f));
      }
    }
  }

  // ---------- parents come first ----------

  ghost predicate NamedBefore(entries: seq<Entry>, i: nat, name: Option<string>)
    requires i <= |entries|
  {
    exists k :: 0 <= k < i && name == Some(entries[k].tempId)
  }

  ghost predicate ParentsFirst(entries: seq<Entry>, outer: Option<string>) {
    forall i :: 0 <= i < |entries| ==> entries[i].parent == outer || NamedBefore(entries, i, entries[i].parent)
  }

  lemma {:induction false} ParentsFirstConcat(
    a: seq<Entry>, b: seq<Entry>, outer: Option<string>, inner: Option<string>)
    requires ParentsFirst(a, outer) && ParentsFirst(b, inner)
    requires inner == outer || NamedBefore(a, |a|, inner)
    ensures ParentsFirst(a + b, outer)
  {
    var all := a + b;
    forall i | 0 <= i < |all| ensures all[i].parent == outer || NamedBefore(all, i, all[i].parent) {
      if i < |a| {
        if a[i].parent != outer {
          var k :| 0 <= k < i && a[i].parent == Some(a[k].tempId);
          assert all[k] == a[k];
        }
      } else {
        var at := i - |a|;
        if b[at].parent == inner {
          if inner != outer {
            var k :| 0 <= k < |a| && inner == Some(a[k].tempId);
            assert all[k] == a[k];
          }
        } else {
          var k :| 0 <= k < at && b[at].parent == Some(b[k].tempId);
          assert all[|a| + k] == b[k];
        }
      }
    }
  }

  lemma {:induction false} LayoutParentsFirst(f: Forest, parent: Option<string>, prefix: string)
    ensures ParentsFirst(Layout(f, parent, prefix), parent)
    decreases f, 1
  {
    match f
    case Empty =>
    case Snoc(init, last) =>
      LayoutParentsFirst(init, parent, prefix);
      LayoutTreeParentsFirst(last, parent, ChildId(prefix, Count(f)));
      ParentsFirstConcat(
        Layout(init, parent, prefix), LayoutTree(last, parent, ChildId(prefix, Count(f))), parent, parent);
  }

  lemma {:induction false} LayoutTreeParentsFirst(t: Tree, parent: Option<string>, id: string)
    ensures ParentsFirst(LayoutTree(t, parent, id), parent)
    decreases t, 0
  {
    var top := [Entry(id, parent, t.item)];
    LayoutParentsFirst(t.children, Some(id), id + ".");
    assert top[0].tempId == id;
    assert NamedBefore(top, 1, Some(id));
    ParentsFirstConcat(top, Layout(t.children, Some(id), id + "."), parent, Some(id));
  }

  // ---------- what the rest of the flow relies on ----------

  /** The parent a node names stands earlier in the list. */
  ghost predicate ParentBefore(nodes: seq<DraftNode>, i: nat)
    requires i < |nodes|
  {
    nodes[i].parent.Some? ==> exists k :: 0 <= k < i && nodes[k].tempId == nodes[i].parent.value
  }

  ghost predicate ParentsStandFirst(nodes: seq<DraftNode>) {
    forall i :: 0 <= i < |nodes| ==> ParentBefore(nodes, i)
  }

  /** Names are unique and every named parent stands earlier in the list. */
  ghost predicate Replayable(nodes: seq<DraftNode>) {
    && (forall i, j :: 0 <= i < j < |nodes| ==> nodes[i].tempId != nodes[j].tempId)
    && ParentsStandFirst(nodes)
  }

  /** Every flattened list can be replayed in one pass. */
  lemma {:induction false} FlattenedReplayable(f: Forest, nodes: seq<DraftNode>)
    requires Emit([], f, None, "n") == Some(nodes)
    ensures Replayable(nodes)
  {
    var entries := Layout(f, None, "n");
    EmitRenders([], f, None, "n");
    LayoutDistinct(f, None, "n");
    LayoutParentsFirst(f, None, "n");
    assert forall i :: 0 <= i < |nodes| ==> Rendered(entries[i]) == Some(nodes[0 + i]);
    forall i, j | 0 <= i < j < |nodes| ensures nodes[i].tempId != nodes[j].tempId {
      assert nodes[i].tempId == entries[i].tempId && nodes[j].tempId == entries[j].tempId;
    }
    forall i | 0 <= i < |nodes|
      ensures ParentBefore(nodes, i)
    {
      if nodes[i].parent.Some? {
        assert nodes[i].parent == entries[i].parent;
        assert NamedBefore(entries, i, entries[i].parent);
        var k :| 0 <= k < i && entries[i].parent == Some(entries[k].tempId);
        assert nodes[k].tempId == entries[k].tempId;
      }
    }
  }

  /** A path's name starts like its prefix and ends in a digit, so stripping leaves it alone. */
  lemma {:induction false} PathNames(parent: Option<string>, prefix: string, path: seq<nat>)
    requires path != [] && prefix != "" && parent != Some("")
    ensures
      var id := PathId(prefix, path);
      && |id| > 0 && id[0] == prefix[0] && IsDigit(id[|id| - 1])
      && PathParent(parent, prefix, path) != Some("")
    decreases |path|
  {
    DecimalDigits(path[0] + 1);
    if |path| > 1 {
      var head := ChildId(prefix, path[0] + 1);
      PathNames(Some(head), head + ".", path[1..]);
    }
  }

  /** What reading an item guarantees of a named one. */
  ghost predicate ProperItem(item: Item) {
    item.named ==> item.title != "" && Trimmed(item.title) && item.elementType != ""
  }

  ghost predicate ProperItems(items: seq<Item>)
    decreases items
  {
    forall i :: 0 <= i < |items| ==> ProperItem(items[i]) && ProperItems(items[i].children)
  }

  lemma {:induction false} ElementTypeNotEmpty(j: Json)
    requires j.Obj?
    ensures ElementType(j) != ""
  {
    if Truthy(Get(j, "element_type", Null)) {
      PyStrNotEmpty(Get(j, "element_type", Null));
    }
  }

  lemma {:induction false} ReadItemProper(j: Json)
    ensures ProperItem(ReadItem(j)) && ProperItems(ReadItem(j).children)
    decreases j, 1
  {
    if j.Obj? {
      ElementTypeNotEmpty(j);
      if "children" in j.fields && j.fields["children"].Arr? {
        ReadItemsProper(j.fields["children"].items);
      }
    }
  }

  lemma {:induction false} ReadItemsProper(js: seq<Json>)
    ensures ProperItems(ReadItems(js))
    decreases js, 0
  {
    if js != [] {
      ReadItemProper(js[0]);
      ReadItemsProper(js[1..]);
      var items := ReadItems(js);
      forall i | 0 <= i < |items| ensures ProperItem(items[i]) && ProperItems(items[i].children) {
        if i > 0 { assert items[i] == ReadItems(js[1..])[i - 1]; }
      }
    }
  }

  ghost predicate ProperForest(f: Forest) {
    match f
    case Empty => true
    case Snoc(init, last) =>
      ProperForest(init) && last.item.named && ProperItem(last.item) && ProperForest(last.children)
  }

  lemma {:induction false} PruneProper(items: seq<Item>, i: nat, breadth: nat, depth: nat)
    requires i <= |items| && ProperItems(items)
    ensures ProperForest(Prune(items, i, breadth, depth))
    decreases depth, i
  {
    if i > 0 && depth > 0 {
      PruneProper(items, i - 1, breadth, depth);
      PruneProper(items[i - 1].children, |items[i - 1].children|, breadth, depth - 1);
    }
  }

  lemma {:induction false} TreeAtProper(f: Forest, k: nat)
    requires ProperForest(f) && k < Count(f)
    ensures
      var t := TreeAt(f, k);
      t.item.named && ProperItem(t.item) && ProperForest(t.children)
  {
    if k < Count(f) - 1 {
      TreeAtProper(f.init, k);
    }
  }

  lemma {:induction false} PathProper(f: Forest, path: seq<nat>)
    requires ProperForest(f) && ValidPath(f, path)
    ensures ItemAt(f, path).named && ProperItem(ItemAt(f, path))
    decreases |path|
  {
    TreeAtProper(f, path[0]);
    if |path| > 1 {
      PathProper(TreeAt(f, path[0]).children, path[1..]);
    }
  }

  lemma {:induction false} RenderedCanonical(f: Forest, i: nat, node: DraftNode)
    requires ProperForest(f) && i < |Layout(f, None, "n")| && Rendered(Layout(f, None, "n")[i]) == Some(node)
    ensures CanonicalNode(node)
  {
    LayoutSize(f, None, "n");
    var path := PathOfEntry(f, i);
    LayoutAtPath(f, path, None, "n");
    PathNames(None, "n", path);
    PathProper(f, path);
  }

  lemma {:induction false} PrunedProper(tree: seq<Json>, maxBreadth: int, maxDepth: int)
    ensures ProperForest(Pruned(tree, maxBreadth, maxDepth))
  {
    var items := ReadItems(tree);
    ReadItemsProper(tree);
    PruneProper(items, |items|, Clamp(maxBreadth, ABSOLUTE_MAX_BREADTH), Clamp(maxDepth, ABSOLUTE_MAX_DEPTH));
  }

  lemma {:induction false} EmittedCanonical(f: Forest, nodes: seq<DraftNode>)
    requires ProperForest(f) && Emit([], f, None, "n") == Some(nodes)
    ensures AllCanonical(nodes)
  {
    EmitRenders([], f, None, "n");
    forall i | 0 <= i < |nodes|
      ensures CanonicalNode(nodes[i])
    {
      assert Rendered(Layout(f, None, "n")[i]) == Some(nodes[0 + i]);
      RenderedCanonical(f, i, nodes[i]);
    }
  }

  /** Every generated node is in the normal form the dictionary round trip preserves. */
  lemma {:induction false} FlattenedCanonical(tree: seq<Json>, maxBreadth: int, maxDepth: int, nodes: seq<DraftNode>)
    requires Emit([], Pruned(tree, maxBreadth, maxDepth), None, "n") == Some(nodes)
    ensures AllCanonical(nodes)
  {
    PrunedProper(tree, maxBreadth, maxDepth);
    EmittedCanonical(Pruned(tree, maxBreadth, maxDepth), nodes);
  }
}
