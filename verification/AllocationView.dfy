/** The flat allocation view: children index, subtree worklist, row filter, counters and pages. */
module AllocationView {
  import opened Text

  type Id = nat

  datatype Element = Element(
    id: Id, artifact: Id, parent: Option<Id>, title: string, elementType: string, state: Option<string>)

  // ---------- children index ----------

  /** The ids of the first `n` elements that name `p` as their parent, in order. */
  function ChildrenOf(elements: seq<Element>, n: nat, p: Id): seq<Id>
    requires n <= |elements|
  {
    if n == 0 then []
    else ChildrenOf(elements, n - 1, p) + if elements[n - 1].parent == Some(p) then [elements[n - 1].id] else []
  }

  type Children = map<Id, seq<Id>>

  function Get(children: Children, p: Id): seq<Id> {
    if p in children then children[p] else []
  }

  /** The index after the first `n` elements. */
  function IndexUpTo(elements: seq<Element>, n: nat): Children
    requires n <= |elements|
  {
    if n == 0 then map[]
    else
      var before, e := IndexUpTo(elements, n - 1), elements[n - 1];
      if e.parent.Some? then before[e.parent.value := Get(before, e.parent.value) + [e.id]] else before
  }

  lemma {:induction false} IndexHolds(elements: seq<Element>, n: nat, p: Id)
    requires n <= |elements|
    ensures Get(IndexUpTo(elements, n), p) == ChildrenOf(elements, n, p)
  {
    if n > 0 {
      IndexHolds(elements, n - 1, p);
    }
  }

  ghost predicate IsIndex(children: Children, elements: seq<Element>) {
    forall p :: Get(children, p) == ChildrenOf(elements, |elements|, p)
  }

  /** The index, one `setdefault(parent, []).append(id)` per element: under every id exactly its children. */
  method BuildChildren(elements: seq<Element>) returns (children: Children)
    ensures IsIndex(children, elements)
  {
    children := map[];
    for i := 0 to |elements|
      invariant children == IndexUpTo(elements, i)
    {
      var parent := elements[i].parent;
      if parent.Some? {
        children := children[parent.value := Get(children, parent.value) + [elements[i].id]];
      }
    }
    forall p
      ensures Get(children, p) == ChildrenOf(elements, |elements|, p)
    {
      IndexHolds(elements, |elements|, p);
    }
  }

  /** Some element `x` has `p` as its parent. */
  ghost predicate HasParent(elements: seq<Element>, x: Id, p: Id) {
    exists i :: 0 <= i < |elements| && elements[i].id == x && elements[i].parent == Some(p)
  }

  /** The index is the converse of the parent pointers. */
  lemma {:induction false} ChildrenAreConverse(elements: seq<Element>, n: nat, p: Id, x: Id)
    requires n <= |elements|
    ensures x in ChildrenOf(elements, n, p) <==>
              exists i :: 0 <= i < n && elements[i].id == x && elements[i].parent == Some(p)
  {
    if n > 0 {
      ChildrenAreConverse(elements, n - 1, p, x);
    }
  }

  // ---------- subtree worklist ----------

  /** `n` steps through the index lead from `root` to `x`. */
  ghost predicate ReachIn(children: Children, root: Id, x: Id, n: nat)
    decreases n
  {
    if n == 0 then x == root else exists y :: x in Get(children, y) && ReachIn(children, root, y, n - 1)
  }

  ghost predicate Reachable(children: Children, root: Id, x: Id) {
    exists n: nat :: ReachIn(children, root, x, n)
  }

  lemma {:induction false} ReachableStep(children: Children, root: Id, x: Id, y: Id)
    requires Reachable(children, root, x) && y in Get(children, x)
    ensures Reachable(children, root, y)
  {
    var n: nat :| ReachIn(children, root, x, n);
    assert ReachIn(children, root, y, n + 1);
  }

  lemma {:induction false} ReachableSelf(children: Children, root: Id)
    ensures Reachable(children, root, root)
  {
    assert ReachIn(children, root, root, 0);
  }

  ghost predicate Closed(children: Children, s: set<Id>) {
    forall x, y :: x in s && y in Get(children, x) ==> y in s
  }

  /** A closed set with the root in it holds everything reachable. */
  lemma {:induction false} ClosedHolds(children: Children, s: set<Id>, root: Id, x: Id, n: nat)
    requires Closed(children, s) && root in s && ReachIn(children, root, x, n)
    ensures x in s
    decreases n
  {
    if n > 0 {
      var y :| x in Get(children, y) && ReachIn(children, root, y, n - 1);
      ClosedHolds(children, s, root, y, n - 1);
    }
  }

  /** Everything the worklist can ever meet. */
  ghost function Universe(children: Children, root: Id): set<Id> {
    {root} + set p, k | p in children && 0 <= k < |children[p]| :: children[p][k]
  }

  ghost predicate InUniverse(children: Children, root: Id, frontier: seq<Id>) {
    forall k :: 0 <= k < |frontier| ==> frontier[k] in Universe(children, root)
  }

  lemma {:induction false} ChildrenInUniverse(children: Children, root: Id, p: Id)
    ensures InUniverse(children, root, Get(children, p))
  {
  }

  /** What the worklist has met is reachable, and what it has finished leads nowhere else. */
  ghost predicate WorklistInv(children: Children, root: Id, seen: set<Id>, frontier: seq<Id>) {
    && (root in seen || root in frontier)
    && (forall x :: x in seen || x in frontier ==> Reachable(children, root, x))
    && (forall x, y :: x in seen && y in Get(children, x) ==> y in seen || y in frontier)
  }

  lemma {:induction false} SkipKeeps(children: Children, root: Id, seen: set<Id>, frontier: seq<Id>)
    requires frontier != [] && WorklistInv(children, root, seen, frontier) && frontier[|frontier| - 1] in seen
    ensures WorklistInv(children, root, seen, frontier[..|frontier| - 1])
  {
    assert forall x :: x in frontier ==> x in frontier[..|frontier| - 1] || x == frontier[|frontier| - 1];
  }

  lemma {:induction false} ExpandKeeps(children: Children, root: Id, seen: set<Id>, frontier: seq<Id>, current: Id)
    requires frontier != [] && WorklistInv(children, root, seen, frontier) && frontier[|frontier| - 1] == current
    ensures WorklistInv(children, root, seen + {current}, frontier[..|frontier| - 1] + Get(children, current))
  {
    var next := frontier[..|frontier| - 1] + Get(children, current);
    assert forall x :: x in frontier ==> x in frontier[..|frontier| - 1] || x == current;
    forall x | x in next
      ensures Reachable(children, root, x)
    {
      if x in Get(children, current) {
        ReachableStep(children, root, current, x);
      }
    }
  }

  lemma {:induction false} Shrinks(all: set<Id>, seen: set<Id>, x: Id)
    requires x in all && x !in seen
    ensures |all - (seen + {x})| < |all - seen|
  {
    assert all - seen == (all - (seen + {x})) + {x};
  }

  lemma {:induction false} WorklistDone(children: Children, root: Id, seen: set<Id>)
    requires WorklistInv(children, root, seen, [])
    ensures forall x :: x in seen <==> Reachable(children, root, x)
  {
    forall x | Reachable(children, root, x)
      ensures x in seen
    {
      var n: nat :| ReachIn(children, root, x, n);
      ClosedHolds(children, seen, root, x, n);
    }
  }

  lemma {:induction false} UniverseKept(children: Children, root: Id, frontier: seq<Id>, more: seq<Id>)
    requires frontier != [] && InUniverse(children, root, frontier) && InUniverse(children, root, more)
    ensures InUniverse(children, root, frontier[..|frontier| - 1] + more)
  {
  }

  /** The subtree worklist: on any index, cyclic or not, it stops with exactly the reachable ids. */
  method Subtree(children: Children, root: Id) returns (seen: set<Id>)
    ensures forall x :: x in seen <==> Reachable(children, root, x)
  {
    seen := {};
    var frontier := [root];
    ReachableSelf(children, root);
    ghost var all := Universe(children, root);
    while frontier != []
      invariant WorklistInv(children, root, seen, frontier)
      invariant InUniverse(children, root, frontier) && all == Universe(children, root)
      decreases |all - seen|, |frontier|
    {
      var current := frontier[|frontier| - 1];
      if current in seen {
        SkipKeeps(children, root, seen, frontier);
        frontier := frontier[..|frontier| - 1];
      } else {
        ExpandKeeps(children, root, seen, frontier, current);
        ChildrenInUniverse(children, root, current);
        UniverseKept(children, root, frontier, Get(children, current));
        Shrinks(all, seen, current);
        frontier := frontier[..|frontier| - 1] + Get(children, current);
        seen := seen + {current};
      }
    }
    WorklistDone(children, root, seen);
  }

  // ---------- following parents upwards ----------

  /** Following `n` parent pointers up from `x` leads to `root`. */
  ghost predicate UpIn(elements: seq<Element>, x: Id, root: Id, n: nat)
    decreases n
  {
    if n == 0 then x == root else exists y :: HasParent(elements, x, y) && UpIn(elements, y, root, n - 1)
  }

  /** Following parent pointers up from `x` reaches `root`. */
  ghost predicate UpTo(elements: seq<Element>, x: Id, root: Id) {
    exists n: nat :: UpIn(elements, x, root, n)
  }

  /** Edge by edge, the index and the parent pointers say the same. */
  ghost predicate Converse(children: Children, elements: seq<Element>) {
    forall p, x :: x in Get(children, p) <==> HasParent(elements, x, p)
  }

  lemma {:induction false} IndexConverse(children: Children, elements: seq<Element>)
    requires IsIndex(children, elements)
    ensures Converse(children, elements)
  {
    forall p, x
      ensures x in Get(children, p) <==> HasParent(elements, x, p)
    {
      ChildrenAreConverse(elements, |elements|, p, x);
    }
  }

  lemma {:induction false} UpStep(elements: seq<Element>, x: Id, y: Id, root: Id, n: nat)
    requires HasParent(elements, x, y) && UpIn(elements, y, root, n)
    ensures UpIn(elements, x, root, n + 1)
  {
  }

  lemma {:induction false} DownStep(children: Children, root: Id, y: Id, x: Id, n: nat)
    requires x in Get(children, y) && ReachIn(children, root, y, n)
    ensures ReachIn(children, root, x, n + 1)
  {
  }

  lemma {:induction false} DownThenUp(children: Children, elements: seq<Element>, root: Id, x: Id, n: nat)
    requires Converse(children, elements) && ReachIn(children, root, x, n)
    ensures UpIn(elements, x, root, n)
    decreases n
  {
    if n > 0 {
      var y :| x in Get(children, y) && ReachIn(children, root, y, n - 1);
      DownThenUp(children, elements, root, y, n - 1);
      UpStep(elements, x, y, root, n - 1);
    }
  }

  lemma {:induction false} UpThenDown(children: Children, elements: seq<Element>, root: Id, x: Id, n: nat)
    requires Converse(children, elements) && UpIn(elements, x, root, n)
    ensures ReachIn(children, root, x, n)
    decreases n
  {
    if n > 0 {
      var y :| HasParent(elements, x, y) && UpIn(elements, y, root, n - 1);
      UpThenDown(children, elements, root, y, n - 1);
      DownStep(children, root, y, x, n - 1);
    }
  }

  /** Reaching down through the index is reaching up through the parents. */
  lemma {:induction false} DownIsUp(children: Children, elements: seq<Element>, root: Id, x: Id)
    requires IsIndex(children, elements)
    ensures Reachable(children, root, x) <==> UpTo(elements, x, root)
  {
    IndexConverse(children, elements);
    if Reachable(children, root, x) {
      var n: nat :| ReachIn(children, root, x, n);
      DownThenUp(children, elements, root, x, n);
    }
    if UpTo(elements, x, root) {
      var n: nat :| UpIn(elements, x, root, n);
      UpThenDown(children, elements, root, x, n);
    }
  }
}
