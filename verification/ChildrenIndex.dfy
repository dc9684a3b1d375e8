/** The inverted parent links and the two coverage views computed from them. */
module ChildrenIndex {
  import opened Text
  import opened IdLists
  import opened TraceParse

  datatype Kind = Primary | Contributing

  type Index = map<ReqId, Links>

  function ListOf(l: Links, kind: Kind): seq<ReqId> {
    if kind.Primary? then l.primary else l.contributing
  }

  /** The children of `p` of one kind. */
  function Kids(index: Index, p: ReqId, kind: Kind): seq<ReqId> {
    if p in index then ListOf(index[p], kind) else []
  }

  /** `index[p][kind].append(child)` on a defaulting dictionary. */
  function AddKid(index: Index, p: ReqId, child: ReqId, kind: Kind): Index {
    var l := if p in index then index[p] else Links([], []);
    index[p := if kind.Primary? then l.(primary := l.primary + [child]) else l.(contributing := l.contributing + [child])]
  }

  function AddUnder(index: Index, parents: seq<ReqId>, i: nat, child: ReqId, kind: Kind): Index
    requires i <= |parents|
    decreases |parents| - i
  {
    if i == |parents| then index else AddUnder(AddKid(index, parents[i], child, kind), parents, i + 1, child, kind)
  }

  function AddRequirement(index: Index, r: Requirement): Index {
    AddUnder(AddUnder(index, r.parents.primary, 0, r.reqId, Primary), r.parents.contributing, 0, r.reqId, Contributing)
  }

  function IndexUpTo(reqs: seq<Requirement>, n: nat): Index
    requires n <= |reqs|
  {
    if n == 0 then map[] else AddRequirement(IndexUpTo(reqs, n - 1), reqs[n - 1])
  }

  function SortedIndex(index: Index): Index {
    map p | p in index :: Links(Sort(index[p].primary), Sort(index[p].contributing))
  }

  method AppendUnder(index: Index, parents: seq<ReqId>, child: ReqId, kind: Kind) returns (r: Index)
    ensures r == AddUnder(index, parents, 0, child, kind)
  {
    r := index;
    for i := 0 to |parents|
      invariant AddUnder(index, parents, 0, child, kind) == AddUnder(r, parents, i, child, kind)
    {
      r := AddKid(r, parents[i], child, kind);
    }
  }

  /** `build_children_index`. */
  method BuildChildrenIndex(reqs: seq<Requirement>) returns (index: Index)
    ensures index == SortedIndex(IndexUpTo(reqs, |reqs|))
  {
    index := map[];
    for i := 0 to |reqs|
      invariant index == IndexUpTo(reqs, i)
    {
      index := AppendUnder(index, reqs[i].parents.primary, reqs[i].reqId, Primary);
      index := AppendUnder(index, reqs[i].parents.contributing, reqs[i].reqId, Contributing);
    }
    index := SortedIndex(index);
  }

  // ---------- the index is the exact converse ----------

  /** The ids of the requirements among the first `n` that list `p` as a parent of this kind. */
  function ChildrenOf(reqs: seq<Requirement>, n: nat, p: ReqId, kind: Kind): seq<ReqId>
    requires n <= |reqs|
  {
    if n == 0 then []
    else ChildrenOf(reqs, n - 1, p, kind) + if p in ListOf(reqs[n - 1].parents, kind) then [reqs[n - 1].reqId] else []
  }

  ghost predicate TidyAt(reqs: seq<Requirement>, i: nat)
    requires i < |reqs|
  {
    Tidy(reqs[i].parents)
  }

  ghost predicate AllTidy(reqs: seq<Requirement>) {
    forall i :: 0 <= i < |reqs| ==> TidyAt(reqs, i)
  }

  lemma {:induction false} KidsUnfold(reqs: seq<Requirement>, n: nat, p: ReqId, kind: Kind, before: seq<ReqId>)
    requires 0 < n <= |reqs| && before == ChildrenOf(reqs, n - 1, p, kind)
    ensures ChildrenOf(reqs, n, p, kind)
         == before + if p in ListOf(reqs[n - 1].parents, kind) then [reqs[n - 1].reqId] else []
  {
  }

  lemma {:induction false} KidAdded(index: Index, p: ReqId, child: ReqId, kind: Kind, q: ReqId, k: Kind)
    ensures Kids(AddKid(index, p, child, kind), q, k) == Kids(index, q, k) + if q == p && k == kind then [child] else []
  {
  }

  lemma {:induction false} InTail(s: seq<ReqId>, i: nat, q: ReqId)
    requires i < |s| && NoRepeats(s)
    ensures q in s[i..] <==> q == s[i] || q in s[i + 1..]
    ensures s[i] !in s[i + 1..]
  {
    assert s[i..] == [s[i]] + s[i + 1..];
  }

  lemma {:induction false} KidsUnder(
    index: Index, parents: seq<ReqId>, i: nat, child: ReqId, kind: Kind, q: ReqId, k: Kind)
    requires i <= |parents| && NoRepeats(parents)
    ensures Kids(AddUnder(index, parents, i, child, kind), q, k)
         == Kids(index, q, k) + if q in parents[i..] && k == kind then [child] else []
    decreases |parents| - i
  {
    if i < |parents| {
      KidAdded(index, parents[i], child, kind, q, k);
      KidsUnder(AddKid(index, parents[i], child, kind), parents, i + 1, child, kind, q, k);
      InTail(parents, i, q);
    }
  }

  lemma {:induction false} RequirementAdded(before: Index, r: Requirement, p: ReqId, kind: Kind)
    requires Tidy(r.parents)
    ensures Kids(AddRequirement(before, r), p, kind)
         == Kids(before, p, kind) + if p in ListOf(r.parents, kind) then [r.reqId] else []
  {
    var mid := AddUnder(before, r.parents.primary, 0, r.reqId, Primary);
    KidsUnder(before, r.parents.primary, 0, r.reqId, Primary, p, kind);
    KidsUnder(mid, r.parents.contributing, 0, r.reqId, Contributing, p, kind);
    assert r.parents.primary[0..] == r.parents.primary && r.parents.contributing[0..] == r.parents.contributing;
  }

  lemma {:induction false} IndexHolds(reqs: seq<Requirement>, n: nat, p: ReqId, kind: Kind)
    requires n <= |reqs| && AllTidy(reqs)
    ensures Kids(IndexUpTo(reqs, n), p, kind) == ChildrenOf(reqs, n, p, kind)
  {
    if n > 0 {
      IndexHolds(reqs, n - 1, p, kind);
      assert TidyAt(reqs, n - 1);
      RequirementAdded(IndexUpTo(reqs, n - 1), reqs[n - 1], p, kind);
      KidsUnfold(reqs, n, p, kind, Kids(IndexUpTo(reqs, n - 1), p, kind));
    }
  }

  ghost predicate DistinctIds(reqs: seq<Requirement>) {
    forall i, j :: 0 <= i < j < |reqs| ==> reqs[i].reqId != reqs[j].reqId
  }

  lemma {:induction false} ChildrenListed(reqs: seq<Requirement>, n: nat, p: ReqId, kind: Kind, child: ReqId)
    requires n <= |reqs|
    ensures child in ChildrenOf(reqs, n, p, kind) <==>
              exists i :: 0 <= i < n && reqs[i].reqId == child && p in ListOf(reqs[i].parents, kind)
  {
    if n > 0 {
      ChildrenListed(reqs, n - 1, p, kind, child);
    }
  }

  lemma {:induction false} ChildrenOnce(reqs: seq<Requirement>, n: nat, p: ReqId, kind: Kind)
    requires n <= |reqs| && DistinctIds(reqs)
    ensures NoRepeats(ChildrenOf(reqs, n, p, kind))
  {
    if n > 0 {
      ChildrenOnce(reqs, n - 1, p, kind);
      ChildrenListed(reqs, n - 1, p, kind, reqs[n - 1].reqId);
    }
  }

  /** A child stands under a parent's kind exactly when the parent is in the child's list of that kind, and
      then once. */
  lemma {:induction false} IndexIsConverse(reqs: seq<Requirement>, p: ReqId, kind: Kind, child: ReqId)
    requires AllTidy(reqs) && DistinctIds(reqs)
    ensures
      var kids := Kids(SortedIndex(IndexUpTo(reqs, |reqs|)), p, kind);
      && NoRepeats(kids) && Ascending(kids)
      && (child in kids <==>
            exists i :: 0 <= i < |reqs| && reqs[i].reqId == child && p in ListOf(reqs[i].parents, kind))
  {
    var kids := Kids(IndexUpTo(reqs, |reqs|), p, kind);
    var sorted := Kids(SortedIndex(IndexUpTo(reqs, |reqs|)), p, kind);
    IndexHolds(reqs, |reqs|, p, kind);
    ChildrenOnce(reqs, |reqs|, p, kind);
    ChildrenListed(reqs, |reqs|, p, kind, child);
    SortKeeps(kids);
    SortAscends(kids);
    assert p in IndexUpTo(reqs, |reqs|) ==> sorted == Sort(kids);
    assert child in sorted <==> child in Elems(sorted);
  }

  // ---------- edges are conserved ----------

  /** How many children stand under `keys`. */
  ghost function Total(index: Index, keys: set<ReqId>, kind: Kind): nat {
    if keys == {} then 0
    else
      var p :| p in keys;
      |Kids(index, p, kind)| + Total(index, keys - {p}, kind)
  }

  lemma {:induction false} TotalPick(index: Index, keys: set<ReqId>, kind: Kind, x: ReqId)
    requires x in keys
    ensures Total(index, keys, kind) == |Kids(index, x, kind)| + Total(index, keys - {x}, kind)
    decreases keys
  {
    var p :| p in keys && Total(index, keys, kind) == |Kids(index, p, kind)| + Total(index, keys - {p}, kind);
    if p != x {
      TotalPick(index, keys - {p}, kind, x);
      TotalPick(index, keys - {x}, kind, p);
      assert keys - {p} - {x} == keys - {x} - {p};
    }
  }

  lemma {:induction false} TotalSame(a: Index, b: Index, keys: set<ReqId>, kind: Kind)
    requires forall p :: p in keys ==> |Kids(a, p, kind)| == |Kids(b, p, kind)|
    ensures Total(a, keys, kind) == Total(b, keys, kind)
    decreases keys
  {
    if keys != {} {
      var p :| p in keys;
      TotalPick(a, keys, kind, p);
      TotalPick(b, keys, kind, p);
      TotalSame(a, b, keys - {p}, kind);
    }
  }

  lemma {:induction false} TotalWithout(index: Index, keys: set<ReqId>, kind: Kind, p: ReqId)
    requires Kids(index, p, kind) == []
    ensures Total(index, keys + {p}, kind) == Total(index, keys, kind)
  {
    if p in keys {
      assert keys + {p} == keys;
    } else {
      TotalPick(index, keys + {p}, kind, p);
      assert keys + {p} - {p} == keys;
    }
  }

  lemma {:induction false} OneMoreKid(index: Index, p: ReqId, child: ReqId, kind: Kind, k: Kind)
    ensures
      var after := AddKid(index, p, child, kind);
      Total(after, after.Keys, k) == Total(index, index.Keys, k) + if k == kind then 1 else 0
  {
    var after := AddKid(index, p, child, kind);
    var keys := index.Keys + {p};
    assert after.Keys == keys;
    assert Total(index, keys, k) == Total(index, index.Keys, k) by {
      if p in index {
        assert keys == index.Keys;
      } else {
        TotalWithout(index, index.Keys, k, p);
      }
    }
    TotalPick(after, keys, k, p);
    TotalPick(index, keys, k, p);
    forall q | q in keys - {p}
      ensures |Kids(after, q, k)| == |Kids(index, q, k)|
    {
      KidAdded(index, p, child, kind, q, k);
    }
    TotalSame(after, index, keys - {p}, k);
    KidAdded(index, p, child, kind, p, k);
  }

  lemma {:induction false} MoreKids(index: Index, parents: seq<ReqId>, i: nat, child: ReqId, kind: Kind, k: Kind)
    requires i <= |parents|
    ensures
      var after := AddUnder(index, parents, i, child, kind);
      Total(after, after.Keys, k) == Total(index, index.Keys, k) + if k == kind then |parents| - i else 0
    decreases |parents| - i
  {
    if i < |parents| {
      OneMoreKid(index, parents[i], child, kind, k);
      MoreKids(AddKid(index, parents[i], child, kind), parents, i + 1, child, kind, k);
    }
  }

  /** The parent links of the first `n` requirements. */
  function Edges(reqs: seq<Requirement>, n: nat, kind: Kind): nat
    requires n <= |reqs|
  {
    if n == 0 then 0 else Edges(reqs, n - 1, kind) + |ListOf(reqs[n - 1].parents, kind)|
  }

  lemma {:induction false} EdgesCounted(reqs: seq<Requirement>, n: nat, kind: Kind)
    requires n <= |reqs|
    ensures Total(IndexUpTo(reqs, n), IndexUpTo(reqs, n).Keys, kind) == Edges(reqs, n, kind)
  {
    if n > 0 {
      EdgesCounted(reqs, n - 1, kind);
      var before, r := IndexUpTo(reqs, n - 1), reqs[n - 1];
      var mid := AddUnder(before, r.parents.primary, 0, r.reqId, Primary);
      MoreKids(before, r.parents.primary, 0, r.reqId, Primary, kind);
      MoreKids(mid, r.parents.contributing, 0, r.reqId, Contributing, kind);
    }
  }

  /** The index holds as many children as there are parent links, of either kind. */
  lemma {:induction false} EdgesConserved(reqs: seq<Requirement>, kind: Kind)
    ensures
      var index := SortedIndex(IndexUpTo(reqs, |reqs|));
      Total(index, index.Keys, kind) == Edges(reqs, |reqs|, kind)
  {
    var plain := IndexUpTo(reqs, |reqs|);
    var index := SortedIndex(plain);
    EdgesCounted(reqs, |reqs|, kind);
    assert index.Keys == plain.Keys;
    forall p | p in index.Keys
      ensures |Kids(index, p, kind)| == |Kids(plain, p, kind)|
    {
      SortKeeps(plain[p].primary);
      SortKeeps(plain[p].contributing);
    }
    TotalSame(index, plain, index.Keys, kind);
  }
}
