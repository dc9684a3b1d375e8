/** Reading and setting one value deep inside a JSON document: `_dig` and `_set_pointer`. */
module JsonPointer {
  import opened Text
  import opened PyJson

  datatype Key = Name(name: string) | Index(at: nat)

  type Pointer = seq<Key>

  datatype PyError = KeyError | TypeError | IndexError

  // ---------- _dig ----------

  /** The part of a container under a key; nothing else has parts. */
  function Part(j: Json, key: Key): Option<Json> {
    match key
    case Name(name) => if j.Obj? && name in j.fields then Some(j.fields[name]) else None
    case Index(at) => if j.Arr? && at < |j.items| then Some(j.items[at]) else None
  }

  /** The value a pointer addresses. */
  function Dig(j: Json, p: Pointer): Option<Json> {
    if p == [] then Some(j)
    else
      var part := Part(j, p[0]);
      if part.None? then None else Dig(part.value, p[1..])
  }

  /** `_dig`: a variable walks down the document; `None` when it raises `KeyError`. */
  method DigDown(data: Json, pointer: Pointer) returns (r: Option<Json>)
    ensures r == Dig(data, pointer)
  {
    var current := data;
    for i := 0 to |pointer|
      invariant Dig(data, pointer) == Dig(current, pointer[i..])
    {
      var part := Part(current, pointer[i]);
      if part.None? {
        return None;
      }
      assert pointer[i..][1..] == pointer[i + 1..];
      current := part.value;
    }
    return Some(current);
  }

  /** `v` stands in `j` under a key: an object's value, or a list's item counted from its start. */
  ghost predicate Inside(j: Json, key: Key, v: Json) {
    match key
    case Name(name) => j.Obj? && name in j.fields && v == j.fields[name]
    case Index(at) => j.Arr? && at < |j.items| && v == j.items[at]
  }

  /** Documents each of which stands in the one before, under the pointer's keys in order. */
  ghost predicate Descent(docs: seq<Json>, p: Pointer) {
    |docs| == |p| + 1 && forall i :: 0 <= i < |p| ==> Inside(docs[i], p[i], docs[i + 1])
  }

  lemma {:induction false} DescentDigs(docs: seq<Json>, p: Pointer)
    requires Descent(docs, p)
    ensures Dig(docs[0], p) == Some(docs[|p|])
    decreases p
  {
    if p != [] {
      assert Inside(docs[0], p[0], docs[1]);
      forall i | 0 <= i < |p[1..]|
        ensures Inside(docs[1..][i], p[1..][i], docs[1..][i + 1])
      {
        assert Inside(docs[i + 1], p[i + 1], docs[i + 2]);
      }
      DescentDigs(docs[1..], p[1..]);
    }
  }

  lemma {:induction false} DigDescends(j: Json, p: Pointer) returns (docs: seq<Json>)
    requires Dig(j, p).Some?
    ensures Descent(docs, p) && docs[0] == j
    decreases p
  {
    if p == [] {
      docs := [j];
    } else {
      var below := DigDescends(Part(j, p[0]).value, p[1..]);
      docs := [j] + below;
      forall i | 0 <= i < |p|
        ensures Inside(docs[i], p[i], docs[i + 1])
      {
        if i > 0 {
          assert Inside(below[i - 1], p[1..][i - 1], below[i]);
        }
      }
    }
  }

  /** A pointer addresses a value exactly when the value is reached by descending under its keys. */
  lemma {:induction false} DigExactly(j: Json, p: Pointer, v: Json)
    ensures Dig(j, p) == Some(v) <==> exists docs :: Descent(docs, p) && docs[0] == j && docs[|p|] == v
  {
    if Dig(j, p) == Some(v) {
      var docs := DigDescends(j, p);
      DescentDigs(docs, p);
    }
    if docs :| Descent(docs, p) && docs[0] == j && docs[|p|] == v {
      DescentDigs(docs, p);
    }
  }

  // ---------- _set_pointer ----------

  datatype Access = Found(value: Json) | Raises(error: PyError)

  /** `j[key]` as Python evaluates it: strings can be indexed too. */
  function Subscript(j: Json, key: Key): Access {
    match key
    case Name(name) =>
      if j.Obj? then (if name in j.fields then Found(j.fields[name]) else Raises(KeyError)) else Raises(TypeError)
    case Index(at) =>
      if j.Obj? then Raises(KeyError)
      else if j.Arr? then (if at < |j.items| then Found(j.items[at]) else Raises(IndexError))
      else if j.Str? then (if at < |j.s| then Found(Str([j.s[at]])) else Raises(IndexError))
      else Raises(TypeError)
  }

  /** `j` with the part under `key` replaced. */
  function With(j: Json, key: Key, value: Json): Json
    requires Part(j, key).Some?
  {
    match key
    case Name(name) => Obj(j.fields[name := value])
    case Index(at) => Arr(j.items[at := value])
  }

  datatype Edit = Unchanged | Changed(data: Json) | Failed(error: PyError)

  /** `_set_pointer`: `Unchanged` when it returns false, otherwise the document afterwards. */
  function SetPointer(j: Json, p: Pointer, value: string): Edit
    decreases p
  {
    if p == [] then Failed(IndexError)
    else
      var here := Subscript(j, p[0]);
      if here.Raises? then Failed(here.error)
      else if |p| == 1 then
        if here.value == Str(value) then Unchanged
        else if j.Str? then Failed(TypeError)
        else Changed(With(j, p[0], Str(value)))
      else
        var below := SetPointer(here.value, p[1..], value);
        if below.Changed? && Part(j, p[0]).Some? then Changed(With(j, p[0], below.data)) else below
  }

  // ---------- what setting does to the document ----------

  /** Inside a string nothing can be set, and no version stands there. */
  lemma {:induction false} StringsFail(j: Json, p: Pointer, value: string)
    requires j.Str? && p != [] && |value| != 1
    ensures SetPointer(j, p, value).Failed?
    decreases p
  {
    if |p| > 1 && Subscript(j, p[0]).Found? {
      StringsFail(Subscript(j, p[0]).value, p[1..], value);
    }
  }

  /** Setting fails exactly where nothing is addressed, changes nothing exactly where the value already
      stands, and otherwise the pointer reads back the value. */
  lemma {:induction false} SetReadsBack(j: Json, p: Pointer, value: string)
    requires p != [] && |value| != 1
    ensures
      var edit := SetPointer(j, p, value);
      && (edit.Failed? <==> Dig(j, p).None?)
      && (edit.Unchanged? <==> Dig(j, p) == Some(Str(value)))
      && (edit.Changed? ==> Dig(edit.data, p) == Some(Str(value)))
    decreases p
  {
    if j.Str? {
      StringsFail(j, p, value);
    } else if |p| == 1 {
      assert p[1..] == [];
    } else if Part(j, p[0]).Some? {
      SetReadsBack(Part(j, p[0]).value, p[1..], value);
    }
  }

  ghost predicate Comparable(p: Pointer, q: Pointer) {
    p <= q || q <= p
  }

  lemma {:induction false} ComparableTail(p: Pointer, q: Pointer)
    requires p != [] && q != [] && p[0] == q[0]
    ensures Comparable(p, q) <==> Comparable(p[1..], q[1..])
  {
    assert p == [p[0]] + p[1..] && q == [q[0]] + q[1..];
  }

  lemma {:induction false} WithElsewhere(j: Json, key: Key, value: Json, other: Key)
    requires Part(j, key).Some?
    ensures Part(With(j, key, value), other) == if other == key then Some(value) else Part(j, other)
  {
  }

  lemma {:induction false} ChangedAt(j: Json, p: Pointer, value: string)
    requires p != [] && |value| != 1 && SetPointer(j, p, value).Changed?
    ensures Part(j, p[0]).Some?
    ensures |p| == 1 ==> SetPointer(j, p, value).data == With(j, p[0], Str(value))
    ensures |p| > 1 ==>
      && SetPointer(Part(j, p[0]).value, p[1..], value).Changed?
      && SetPointer(j, p, value).data == With(j, p[0], SetPointer(Part(j, p[0]).value, p[1..], value).data)
  {
    if j.Str? {
      StringsFail(j, p, value);
    }
  }

  /** Everything addressed by a pointer that neither leads to nor through the set one stays as it was. */
  lemma {:induction false} OtherLeavesKept(j: Json, p: Pointer, value: string, q: Pointer)
    requires p != [] && |value| != 1 && SetPointer(j, p, value).Changed? && !Comparable(p, q)
    ensures Dig(SetPointer(j, p, value).data, q) == Dig(j, q)
    decreases p
  {
    ChangedAt(j, p, value);
    var below := if |p| == 1 then Str(value) else SetPointer(Part(j, p[0]).value, p[1..], value).data;
    WithElsewhere(j, p[0], below, q[0]);
    if q[0] == p[0] {
      ComparableTail(p, q);
      if |p| > 1 {
        OtherLeavesKept(Part(j, p[0]).value, p[1..], value, q[1..]);
      }
    }
  }

  datatype Frame = Keys(names: set<string>) | Length(n: nat) | Leaf

  /** A container's keys or length. */
  function FrameOf(j: Json): Frame {
    match j
    case Obj(fields) => Keys(fields.Keys)
    case Arr(items) => Length(|items|)
    case _ => Leaf
  }

  /** On the way to the set value every container keeps its keys or its length. */
  lemma {:induction false} ShapeKept(j: Json, p: Pointer, value: string, q: Pointer)
    requires p != [] && |value| != 1 && SetPointer(j, p, value).Changed? && q < p
    ensures
      var before, after := Dig(j, q), Dig(SetPointer(j, p, value).data, q);
      before.Some? && after.Some? && FrameOf(after.value) == FrameOf(before.value) != Leaf
    decreases p
  {
    ChangedAt(j, p, value);
    if q != [] {
      assert p[1..] != [] && q[1..] < p[1..];
      var below := SetPointer(Part(j, p[0]).value, p[1..], value).data;
      WithElsewhere(j, p[0], below, p[0]);
      ShapeKept(Part(j, p[0]).value, p[1..], value, q[1..]);
    }
  }

  // ---------- which error ----------

  /** The positions ask more of a string than it has; indexing a string gives a one-character string. */
  predicate StringOverruns(s: string, p: Pointer)
    decreases p
  {
    p != [] && p[0].Index? && (p[0].at >= |s| || StringOverruns([s[p[0].at]], p[1..]))
  }

  /** A list too short for the next position, or a string too short for the ones that follow. */
  predicate Overruns(j: Json, p: Pointer) {
    && p != [] && p[0].Index?
    && ((j.Arr? && p[0].at >= |j.items|) || (j.Str? && StringOverruns(j.s, p)))
  }

  /** On its way the pointer comes to a list or a string that is too short. */
  ghost predicate RunsShort(j: Json, p: Pointer) {
    exists k :: 0 <= k < |p| && OverrunsAt(j, p, k)
  }

  ghost predicate OverrunsAt(j: Json, p: Pointer, k: nat)
    requires k < |p|
  {
    Dig(j, p[..k]).Some? && Overruns(Dig(j, p[..k]).value, p[k..])
  }

  lemma {:induction false} StringError(s: string, p: Pointer, value: string)
    requires p != [] && |value| != 1
    ensures SetPointer(Str(s), p, value) == Failed(IndexError) <==> StringOverruns(s, p)
    decreases p
  {
    StringsFail(Str(s), p, value);
    if |p| > 1 && p[0].Index? && p[0].at < |s| {
      StringError([s[p[0].at]], p[1..], value);
    } else if |p| == 1 {
      assert p[1..] == [];
    }
  }

  lemma {:induction false} OverrunsHere(j: Json, p: Pointer)
    requires p != []
    ensures OverrunsAt(j, p, 0) <==> Overruns(j, p)
  {
    assert p[..0] == [] && p[0..] == p;
  }

  lemma {:induction false} OverrunsBelow(j: Json, p: Pointer, k: nat)
    requires 0 < k < |p|
    ensures OverrunsAt(j, p, k) <==> Part(j, p[0]).Some? && OverrunsAt(Part(j, p[0]).value, p[1..], k - 1)
  {
    assert p[..k][0] == p[0] && p[..k][1..] == p[1..][..k - 1] && p[k..] == p[1..][k - 1..];
  }

  lemma {:induction false} RunsShortSplit(j: Json, p: Pointer)
    requires p != []
    ensures RunsShort(j, p) <==>
              Overruns(j, p) || (Part(j, p[0]).Some? && RunsShort(Part(j, p[0]).value, p[1..]))
  {
    OverrunsHere(j, p);
    if RunsShort(j, p) {
      var k :| 0 <= k < |p| && OverrunsAt(j, p, k);
      if k > 0 {
        OverrunsBelow(j, p, k);
      }
    }
    if Part(j, p[0]).Some? && RunsShort(Part(j, p[0]).value, p[1..]) {
      var k :| 0 <= k < |p[1..]| && OverrunsAt(Part(j, p[0]).value, p[1..], k);
      OverrunsBelow(j, p, k + 1);
    }
  }

  /** Setting raises an index error exactly when the pointer comes to a list or string that is too short; every
      other failure is a missing key or a value of the wrong type. */
  lemma {:induction false} IndexErrorExactly(j: Json, p: Pointer, value: string)
    requires p != [] && |value| != 1
    ensures SetPointer(j, p, value) == Failed(IndexError) <==> RunsShort(j, p)
    decreases p
  {
    RunsShortSplit(j, p);
    if j.Str? {
      StringError(j.s, p, value);
    } else if Part(j, p[0]).Some? && |p| > 1 {
      IndexErrorExactly(Part(j, p[0]).value, p[1..], value);
    }
  }

  lemma {:induction false} OverrunsKept(j: Json, p: Pointer, value: string, q: Pointer, k: nat)
    requires p != [] && |value| != 1 && SetPointer(j, p, value).Changed? && !Comparable(p, q) && k < |q|
    ensures OverrunsAt(SetPointer(j, p, value).data, q, k) <==> OverrunsAt(j, q, k)
  {
    if q[..k] < p {
      ShapeKept(j, p, value, q[..k]);
    } else {
      PrefixIncomparable(p, q, k);
      OtherLeavesKept(j, p, value, q[..k]);
    }
  }

  lemma {:induction false} PrefixIncomparable(p: Pointer, q: Pointer, k: nat)
    requires !Comparable(p, q) && k <= |q| && !(q[..k] < p)
    ensures !Comparable(p, q[..k])
  {
  }

  /** Setting one version changes nothing about where another pointer runs short. */
  lemma {:induction false} RunsShortKept(j: Json, p: Pointer, value: string, q: Pointer)
    requires p != [] && |value| != 1 && SetPointer(j, p, value).Changed? && !Comparable(p, q)
    ensures RunsShort(SetPointer(j, p, value).data, q) <==> RunsShort(j, q)
  {
    forall k: nat | k < |q|
      ensures OverrunsAt(SetPointer(j, p, value).data, q, k) <==> OverrunsAt(j, q, k)
    {
      OverrunsKept(j, p, value, q, k);
    }
  }

  /** With a value of one character the string quirk is visible: "2" stands at ["v"][0] of {"v": "2"}, setting
      it changes nothing, and yet the pointer addresses nothing. */
  lemma {:induction false} OneCharacterQuirk()
    ensures
      var doc, p := Obj(map["v" := Str("2")]), [Name("v"), Index(0)];
      SetPointer(doc, p, "2") == Unchanged && Dig(doc, p) == None
  {
    var doc, p := Obj(map["v" := Str("2")]), [Name("v"), Index(0)];
    assert p[1..] == [Index(0)];
    assert SetPointer(Str("2"), [Index(0)], "2") == Unchanged;
    assert Dig(Str("2"), [Index(0)]) == None;
  }
}
