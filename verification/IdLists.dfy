/** Lists of ids kept free of repeats: `if x not in bucket: bucket.append(x)`, and sorting by natural key. */
module IdLists {
  import opened Text
  import opened NaturalKey

  type ReqId = string

  ghost predicate NoRepeats(s: seq<ReqId>) {
    forall i, j :: 0 <= i < j < |s| ==> s[i] != s[j]
  }

  ghost function Elems(s: seq<ReqId>): set<ReqId> {
    set x | x in s
  }

  function AddNew(s: seq<ReqId>, x: ReqId): seq<ReqId> {
    if x in s then s else s + [x]
  }

  /** `s` with the ids of `more` from `i` on added, except those in `except`. */
  function MergeFrom(s: seq<ReqId>, more: seq<ReqId>, i: nat, except: seq<ReqId>): seq<ReqId>
    requires i <= |more|
    decreases |more| - i
  {
    if i == |more| then s
    else MergeFrom(if more[i] in except then s else AddNew(s, more[i]), more, i + 1, except)
  }

  function Merge(s: seq<ReqId>, more: seq<ReqId>, except: seq<ReqId>): seq<ReqId> {
    MergeFrom(s, more, 0, except)
  }

  lemma {:induction false} AddNewAdds(s: seq<ReqId>, x: ReqId)
    ensures Elems(AddNew(s, x)) == Elems(s) + {x}
    ensures NoRepeats(s) ==> NoRepeats(AddNew(s, x))
  {
  }

  lemma {:induction false} MergeFromAdds(s: seq<ReqId>, more: seq<ReqId>, i: nat, except: seq<ReqId>)
    requires i <= |more|
    ensures Elems(MergeFrom(s, more, i, except)) == Elems(s) + (Elems(more[i..]) - Elems(except))
    ensures NoRepeats(s) ==> NoRepeats(MergeFrom(s, more, i, except))
    decreases |more| - i
  {
    if i < |more| {
      AddNewAdds(s, more[i]);
      MergeFromAdds(if more[i] in except then s else AddNew(s, more[i]), more, i + 1, except);
      ElemsFrom(more, i);
    }
  }

  lemma {:induction false} ElemsFrom(s: seq<ReqId>, i: nat)
    requires i < |s|
    ensures Elems(s[i..]) == {s[i]} + Elems(s[i + 1..])
  {
    assert s[i..] == [s[i]] + s[i + 1..];
  }

  /** Merging adds exactly the new ids, and keeps a list free of repeats. */
  lemma {:induction false} MergeAdds(s: seq<ReqId>, more: seq<ReqId>, except: seq<ReqId>)
    ensures Elems(Merge(s, more, except)) == Elems(s) + (Elems(more) - Elems(except))
    ensures NoRepeats(s) ==> NoRepeats(Merge(s, more, except))
  {
    assert more[0..] == more;
    MergeFromAdds(s, more, 0, except);
  }

  /** The appending loop itself. */
  method Append(s: seq<ReqId>, more: seq<ReqId>, except: seq<ReqId>) returns (r: seq<ReqId>)
    ensures r == Merge(s, more, except)
    ensures Elems(r) == Elems(s) + (Elems(more) - Elems(except))
    ensures NoRepeats(s) ==> NoRepeats(r)
  {
    r := s;
    for i := 0 to |more|
      invariant Merge(s, more, except) == MergeFrom(r, more, i, except)
    {
      if more[i] !in except && more[i] !in r {
        r := r + [more[i]];
      }
    }
    MergeAdds(s, more, except);
  }

  // ---------- sorting ----------

  function Insert(x: ReqId, s: seq<ReqId>): seq<ReqId> {
    if s == [] then [x]
    else if NaturalLeq(x, s[0]) then [x] + s
    else [s[0]] + Insert(x, s[1..])
  }

  /** `s.sort(key=natural_key)`; ties keep their order. */
  function Sort(s: seq<ReqId>): seq<ReqId> {
    if s == [] then [] else Insert(s[0], Sort(s[1..]))
  }

  ghost predicate Ascending(s: seq<ReqId>) {
    forall i :: 0 < i < |s| ==> NaturalLeq(s[i - 1], s[i])
  }

  lemma {:induction false} ElemsCons(x: ReqId, s: seq<ReqId>)
    ensures Elems([x] + s) == {x} + Elems(s)
    ensures NoRepeats([x] + s) <==> NoRepeats(s) && x !in s
  {
    var t := [x] + s;
    assert forall i :: 0 <= i < |s| ==> t[i + 1] == s[i];
    if NoRepeats(t) {
      forall i, j | 0 <= i < j < |s|
        ensures s[i] != s[j]
      {
        assert t[i + 1] != t[j + 1];
      }
      forall i | 0 <= i < |s|
        ensures s[i] != x
      {
        assert t[0] != t[i + 1];
      }
    }
  }

  lemma {:induction false} Uncons(s: seq<ReqId>)
    requires s != []
    ensures Elems(s) == {s[0]} + Elems(s[1..])
    ensures NoRepeats(s) <==> NoRepeats(s[1..]) && s[0] !in s[1..]
  {
    assert s == [s[0]] + s[1..];
    ElemsCons(s[0], s[1..]);
  }

  lemma {:induction false} InsertKeeps(x: ReqId, s: seq<ReqId>)
    ensures Elems(Insert(x, s)) == {x} + Elems(s) && |Insert(x, s)| == |s| + 1
    ensures NoRepeats(Insert(x, s)) <==> NoRepeats(s) && x !in s
    decreases |s|
  {
    if s == [] {
      ElemsCons(x, s);
      assert [x] + s == [x];
    } else if NaturalLeq(x, s[0]) {
      ElemsCons(x, s);
    } else {
      InsertKeeps(x, s[1..]);
      ElemsCons(s[0], Insert(x, s[1..]));
      Uncons(s);
      assert s[0] in Insert(x, s[1..]) <==> s[0] in Elems(Insert(x, s[1..]));
      assert x in s <==> x == s[0] || x in s[1..];
    }
  }

  /** Sorting keeps the ids, how many there are, and freedom from repeats. */
  lemma {:induction false} SortKeeps(s: seq<ReqId>)
    ensures Elems(Sort(s)) == Elems(s) && |Sort(s)| == |s|
    ensures NoRepeats(Sort(s)) <==> NoRepeats(s)
    decreases |s|
  {
    if s != [] {
      SortKeeps(s[1..]);
      InsertKeeps(s[0], Sort(s[1..]));
      Uncons(s);
      assert s[0] in Sort(s[1..]) <==> s[0] in Elems(Sort(s[1..]));
    }
  }

  lemma {:induction false} InsertAscends(x: ReqId, s: seq<ReqId>)
    requires Ascending(s)
    ensures Ascending(Insert(x, s))
    ensures Insert(x, s)[0] == x || (s != [] && Insert(x, s)[0] == s[0])
    decreases |s|
  {
    if s != [] && !NaturalLeq(x, s[0]) {
      NaturalTotal(x, s[0]);
      var rest := s[1..];
      assert forall i :: 0 < i < |rest| ==> rest[i - 1] == s[i] && rest[i] == s[i + 1];
      InsertAscends(x, rest);
      var r := Insert(x, rest);
      assert NaturalLeq(s[0], r[0]);
      var all := [s[0]] + r;
      assert forall i :: 0 < i < |all| ==> all[i] == r[i - 1];
    }
  }

  /** Sorted lists ascend in natural order. */
  lemma {:induction false} SortAscends(s: seq<ReqId>)
    ensures Ascending(Sort(s))
    decreases |s|
  {
    if s != [] {
      SortAscends(s[1..]);
      InsertAscends(s[0], Sort(s[1..]));
    }
  }
}
