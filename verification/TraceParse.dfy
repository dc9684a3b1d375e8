/** From the readable parts of a requirement document to requirements with parent lists: inline traceability
    fields, summary tables, and their merge. */
module TraceParse {
  import opened Text
  import opened IdLists

  /** One comma segment of an expanded traceability value: the ids in it, and whether it says "mitwirkend". */
  datatype Segment = Segment(ids: seq<ReqId>, contributing: bool)

  datatype Links = Links(primary: seq<ReqId>, contributing: seq<ReqId>)

  ghost predicate Tidy(l: Links) {
    NoRepeats(l.primary) && NoRepeats(l.contributing)
  }

  ghost function AllParents(l: Links): set<ReqId> {
    Elems(l.primary) + Elems(l.contributing)
  }

  // ---------- inline fields ----------

  /** The ids of the first `n` segments of one kind. */
  ghost function IdsIn(segments: seq<Segment>, n: nat, contributing: bool): set<ReqId>
    requires n <= |segments|
  {
    if n == 0 then {}
    else IdsIn(segments, n - 1, contributing)
         + if segments[n - 1].contributing == contributing then Elems(segments[n - 1].ids) else {}
  }

  /** `[i for i in ids if i not in primary]`. */
  function Without(ids: seq<ReqId>, primary: seq<ReqId>): seq<ReqId> {
    Merge([], ids, primary)
  }

  /** `parse_traceability`: an id listed both ways is primary. */
  method ParseTraceability(segments: seq<Segment>) returns (l: Links)
    ensures Tidy(l)
    ensures Elems(l.primary) == IdsIn(segments, |segments|, false)
    ensures Elems(l.contributing) == IdsIn(segments, |segments|, true) - Elems(l.primary)
    ensures AllParents(l) == IdsIn(segments, |segments|, false) + IdsIn(segments, |segments|, true)
  {
    var primary: seq<ReqId>, contributing: seq<ReqId> := [], [];
    for i := 0 to |segments|
      invariant NoRepeats(primary) && NoRepeats(contributing)
      invariant Elems(primary) == IdsIn(segments, i, false)
      invariant Elems(contributing) == IdsIn(segments, i, true)
    {
      if segments[i].contributing {
        contributing := Append(contributing, segments[i].ids, []);
      } else {
        primary := Append(primary, segments[i].ids, []);
      }
    }
    MergeAdds([], contributing, primary);
    l := Links(primary, Without(contributing, primary));
  }

  // ---------- summary tables ----------

  /** An id in a cell; `contributing` when its column or its segment says so. */
  datatype Mention = Mention(parent: ReqId, contributing: bool)

  /** A row of a qualifying table: the ids in its first cell, and the ids in the others in reading order. */
  datatype Row = Row(own: seq<ReqId>, mentions: seq<Mention>)

  /** Ids one level above have this prefix; the level is the sixth character. */
  function ParentPrefix(id: ReqId): string {
    if |id| > 5 && '1' <= id[5] <= '9' then "REQ-L" + [(id[5] as int - 1) as char] + "-" else "REQ-L-1-"
  }

  predicate IsAbove(id: ReqId, parent: ReqId) {
    ParentPrefix(id) <= parent
  }

  function AddMention(l: Links, id: ReqId, m: Mention): Links {
    if !IsAbove(id, m.parent) then l
    else if m.contributing then l.(contributing := AddNew(l.contributing, m.parent))
    else l.(primary := AddNew(l.primary, m.parent))
  }

  /** The links of `id` with the mentions from `i` on added. */
  function AddMentions(l: Links, id: ReqId, ms: seq<Mention>, i: nat): Links
    requires i <= |ms|
    decreases |ms| - i
  {
    if i == |ms| then l else AddMentions(AddMention(l, id, ms[i]), id, ms, i + 1)
  }

  /** The parents of one kind mentioned from `i` on. */
  ghost function Mentioned(id: ReqId, ms: seq<Mention>, i: nat, contributing: bool): set<ReqId>
    requires i <= |ms|
    decreases |ms| - i
  {
    if i == |ms| then {}
    else (if IsAbove(id, ms[i].parent) && ms[i].contributing == contributing then {ms[i].parent} else {})
         + Mentioned(id, ms, i + 1, contributing)
  }

  lemma {:induction false} MentionsAdd(l: Links, id: ReqId, ms: seq<Mention>, i: nat)
    requires i <= |ms|
    ensures
      var r := AddMentions(l, id, ms, i);
      && Elems(r.primary) == Elems(l.primary) + Mentioned(id, ms, i, false)
      && Elems(r.contributing) == Elems(l.contributing) + Mentioned(id, ms, i, true)
      && (Tidy(l) ==> Tidy(r))
    decreases |ms| - i
  {
    if i < |ms| {
      AddNewAdds(l.primary, ms[i].parent);
      AddNewAdds(l.contributing, ms[i].parent);
      MentionsAdd(AddMention(l, id, ms[i]), id, ms, i + 1);
    }
  }

  type LinkMap = map<ReqId, Links>

  function LinksOf(links: LinkMap, id: ReqId): Links {
    if id in links then links[id] else Links([], [])
  }

  /** A row counts when its first cell holds exactly one id, declared in the document if that is asked for. */
  predicate Counts(row: Row, own: Option<set<ReqId>>) {
    |row.own| == 1 && (own.Some? ==> row.own[0] in own.value)
  }

  function LinksUpTo(rows: seq<Row>, own: Option<set<ReqId>>, n: nat): LinkMap
    requires n <= |rows|
  {
    if n == 0 then map[]
    else
      var before, row := LinksUpTo(rows, own, n - 1), rows[n - 1];
      if !Counts(row, own) then before
      else before[row.own[0] := AddMentions(LinksOf(before, row.own[0]), row.own[0], row.mentions, 0)]
  }

  /** The parents of one kind that the first `n` rows name for `id`. */
  ghost function TableIds(rows: seq<Row>, own: Option<set<ReqId>>, n: nat, id: ReqId, contributing: bool): set<ReqId>
    requires n <= |rows|
  {
    if n == 0 then {}
    else
      TableIds(rows, own, n - 1, id, contributing)
      + if Counts(rows[n - 1], own) && rows[n - 1].own[0] == id
        then Mentioned(id, rows[n - 1].mentions, 0, contributing) else {}
  }

  lemma {:induction false} LinksHold(rows: seq<Row>, own: Option<set<ReqId>>, n: nat, id: ReqId)
    requires n <= |rows|
    ensures
      var l := LinksOf(LinksUpTo(rows, own, n), id);
      && Tidy(l)
      && Elems(l.primary) == TableIds(rows, own, n, id, false)
      && Elems(l.contributing) == TableIds(rows, own, n, id, true)
  {
    if n > 0 {
      LinksHold(rows, own, n - 1, id);
      if Counts(rows[n - 1], own) && rows[n - 1].own[0] == id {
        MentionsAdd(LinksOf(LinksUpTo(rows, own, n - 1), id), id, rows[n - 1].mentions, 0);
      }
    }
  }

  /** Some counting row of the id has this parent among its mentions. */
  ghost predicate Names(row: Row, own: Option<set<ReqId>>, id: ReqId, parent: ReqId, contributing: bool) {
    && row.own == [id] && (own.Some? ==> id in own.value)
    && Mention(parent, contributing) in row.mentions
  }

  ghost predicate NamedInTables(rows: seq<Row>, own: Option<set<ReqId>>, id: ReqId, parent: ReqId, contributing: bool) {
    exists i :: 0 <= i < |rows| && Names(rows[i], own, id, parent, contributing)
  }

  lemma {:induction false} MentionedExactly(id: ReqId, ms: seq<Mention>, i: nat, contributing: bool, parent: ReqId)
    requires i <= |ms|
    ensures parent in Mentioned(id, ms, i, contributing) <==>
              IsAbove(id, parent) && Mention(parent, contributing) in ms[i..]
    decreases |ms| - i
  {
    if i < |ms| {
      MentionedExactly(id, ms, i + 1, contributing, parent);
      assert ms[i..] == [ms[i]] + ms[i + 1..];
    }
  }

  lemma {:induction false} TableIdsExactly(
    rows: seq<Row>, own: Option<set<ReqId>>, n: nat, id: ReqId, contributing: bool, parent: ReqId)
    requires n <= |rows|
    ensures parent in TableIds(rows, own, n, id, contributing) <==>
              IsAbove(id, parent) && NamedInTables(rows[..n], own, id, parent, contributing)
  {
    if n > 0 {
      var row := rows[n - 1];
      TableIdsExactly(rows, own, n - 1, id, contributing, parent);
      MentionedExactly(id, row.mentions, 0, contributing, parent);
      assert row.mentions[0..] == row.mentions;
      OneMoreRow(rows[..n - 1], row, own, id, parent, contributing);
      assert rows[..n] == rows[..n - 1] + [row];
      assert row.own == [id] <==> |row.own| == 1 && row.own[0] == id;
    }
  }

  lemma {:induction false} OneMoreRow(
    rows: seq<Row>, row: Row, own: Option<set<ReqId>>, id: ReqId, parent: ReqId, contributing: bool)
    ensures NamedInTables(rows + [row], own, id, parent, contributing) <==>
              NamedInTables(rows, own, id, parent, contributing) || Names(row, own, id, parent, contributing)
  {
    var all := rows + [row];
    assert all[|rows|] == row;
    if i :| 0 <= i < |rows| && Names(rows[i], own, id, parent, contributing) {
      assert all[i] == rows[i];
    }
  }

  lemma {:induction false} AboveMeans(id: ReqId, level: nat, parent: ReqId)
    requires level <= 9 && "REQ-L" + Decimal(level) + "-" <= id
    ensures IsAbove(id, parent) <==> "REQ-L" + (if level == 0 then "-1" else Decimal(level - 1)) + "-" <= parent
  {
    assert Decimal(level) == [DigitChar(level)];
    assert ("REQ-L" + Decimal(level) + "-")[5] == DigitChar(level) == id[5];
    if level > 0 {
      assert Decimal(level - 1) == [DigitChar(level - 1)];
      assert [(id[5] as int - 1) as char] == Decimal(level - 1);
    } else {
      assert "REQ-L" + "-1" + "-" == "REQ-L-1-";
    }
  }

  /** Table parents: for an id on this level, what its counting rows name, as far as it is exactly one level
      above; on level 0 that asks for the prefix `REQ-L-1-`. */
  ghost predicate OneLevelUp(
    rows: seq<Row>, own: Option<set<ReqId>>, l: Links, id: ReqId, level: nat, parent: ReqId)
  {
    level <= 9 && "REQ-L" + Decimal(level) + "-" <= id ==>
      var above := "REQ-L" + (if level == 0 then "-1" else Decimal(level - 1)) + "-" <= parent;
      && (parent in l.primary <==> above && NamedInTables(rows, own, id, parent, false))
      && (parent in l.contributing <==> above && NamedInTables(rows, own, id, parent, true))
  }

  lemma {:induction false} TableParentsExactly(
    rows: seq<Row>, own: Option<set<ReqId>>, id: ReqId, level: nat, parent: ReqId)
    ensures OneLevelUp(rows, own, LinksOf(LinksUpTo(rows, own, |rows|), id), id, level, parent)
  {
    if level <= 9 && "REQ-L" + Decimal(level) + "-" <= id {
      LinksHold(rows, own, |rows|, id);
      AboveMeans(id, level, parent);
      TableIdsExactly(rows, own, |rows|, id, false, parent);
      TableIdsExactly(rows, own, |rows|, id, true, parent);
      assert rows[..|rows|] == rows;
      var l := LinksOf(LinksUpTo(rows, own, |rows|), id);
      assert parent in l.primary <==> parent in Elems(l.primary);
      assert parent in l.contributing <==> parent in Elems(l.contributing);
    }
  }

  /** `parse_link_tables`: for every id exactly the parents one level up that its rows name, without repeats. */
  method ParseLinkTables(rows: seq<Row>, own: Option<set<ReqId>>) returns (links: LinkMap)
    ensures links == LinksUpTo(rows, own, |rows|)
    ensures forall id, level, parent :: OneLevelUp(rows, own, LinksOf(links, id), id, level, parent)
    ensures forall id :: Tidy(LinksOf(links, id))
    ensures forall id :: Elems(LinksOf(links, id).primary) == TableIds(rows, own, |rows|, id, false)
    ensures forall id :: Elems(LinksOf(links, id).contributing) == TableIds(rows, own, |rows|, id, true)
  {
    links := map[];
    for i := 0 to |rows|
      invariant links == LinksUpTo(rows, own, i)
    {
      if Counts(rows[i], own) {
        var id, ms := rows[i].own[0], rows[i].mentions;
        var l := LinksOf(links, id);
        for k := 0 to |ms|
          invariant AddMentions(LinksOf(links, id), id, ms, 0) == AddMentions(l, id, ms, k)
        {
          l := AddMention(l, id, ms[k]);
        }
        links := links[id := l];
      }
    }
    forall id, level, parent
      ensures OneLevelUp(rows, own, LinksOf(links, id), id, level, parent)
    {
      TableParentsExactly(rows, own, id, level, parent);
    }
    forall id
      ensures Tidy(LinksOf(links, id))
      ensures Elems(LinksOf(links, id).primary) == TableIds(rows, own, |rows|, id, false)
      ensures Elems(LinksOf(links, id).contributing) == TableIds(rows, own, |rows|, id, true)
    {
      LinksHold(rows, own, |rows|, id);
    }
  }

  // ---------- a requirement block ----------

  datatype Requirement = Requirement(
    reqId: ReqId,
    level: nat,
    source: string,
    impl: Option<string>,
    test: Option<string>,
    parents: Links,
    duplicateOf: nat)

  /** A marked field of a block. */
  datatype Field = ImplementationState(value: string) | TestStatus(value: string) | Traceability(segments: seq<Segment>)

  function OrNone(value: string): Option<string> {
    if value == "" then None else Some(value)
  }

  /** The segments of the last traceability field. */
  function LastTrace(fields: seq<Field>, n: nat): seq<Segment>
    requires n <= |fields|
  {
    if n == 0 then [] else if fields[n - 1].Traceability? then fields[n - 1].segments else LastTrace(fields, n - 1)
  }

  function LastImpl(fields: seq<Field>, n: nat): Option<string>
    requires n <= |fields|
  {
    if n == 0 then None
    else if fields[n - 1].ImplementationState? then OrNone(fields[n - 1].value) else LastImpl(fields, n - 1)
  }

  function LastTest(fields: seq<Field>, n: nat): Option<string>
    requires n <= |fields|
  {
    if n == 0 then None
    else if fields[n - 1].TestStatus? then OrNone(fields[n - 1].value) else LastTest(fields, n - 1)
  }

  ghost predicate SameKind(f: Field, g: Field) {
    f.ImplementationState? == g.ImplementationState? && f.TestStatus? == g.TestStatus?
  }

  /** Of the fields of one kind the last one counts; an empty marker clears what came before it. */
  lemma {:induction false} LastWins(fields: seq<Field>, n: nat, i: nat)
    requires i < n <= |fields| && forall j :: i < j < n ==> !SameKind(fields[j], fields[i])
    ensures match fields[i]
      case ImplementationState(value) => LastImpl(fields, n) == (if value == "" then None else Some(value))
      case TestStatus(value) => LastTest(fields, n) == (if value == "" then None else Some(value))
      case Traceability(segments) => LastTrace(fields, n) == segments
  {
    if i < n - 1 {
      assert !SameKind(fields[n - 1], fields[i]);
      LastWins(fields, n - 1, i);
    }
  }

  lemma {:induction false} AbsentFields(fields: seq<Field>, n: nat)
    requires n <= |fields|
    ensures (forall j :: 0 <= j < n ==> !fields[j].ImplementationState?) ==> LastImpl(fields, n) == None
    ensures (forall j :: 0 <= j < n ==> !fields[j].TestStatus?) ==> LastTest(fields, n) == None
    ensures (forall j :: 0 <= j < n ==> !fields[j].Traceability?) ==> LastTrace(fields, n) == []
  {
    if n > 0 {
      AbsentFields(fields, n - 1);
    }
  }

  /** Parents found inline joined with parents found in tables. */
  method JoinLinks(inline: Links, table: Links) returns (l: Links)
    requires Tidy(inline)
    ensures Tidy(l)
    ensures Elems(l.primary) == Elems(inline.primary) + Elems(table.primary)
    ensures Elems(l.contributing) == Elems(inline.contributing) + (Elems(table.contributing) - Elems(l.primary))
    ensures AllParents(l) == AllParents(inline) + AllParents(table)
    ensures Ascending(l.primary) && Ascending(l.contributing)
  {
    var primary := Append(inline.primary, table.primary, []);
    var contributing := Append(inline.contributing, table.contributing, primary);
    l := Links(Sort(primary), Sort(contributing));
    SortKeeps(primary);
    SortKeeps(contributing);
    SortAscends(primary);
    SortAscends(contributing);
  }

  /** One block of `parse_requirement_doc`: the last value of each field, and the parents of both sources,
      sorted, without repeats. */
  method ParseBlock(id: ReqId, level: nat, source: string, fields: seq<Field>, links: LinkMap) returns (r: Requirement)
    ensures r.reqId == id && r.level == level && r.source == source && r.duplicateOf == 0
    ensures r.impl == LastImpl(fields, |fields|) && r.test == LastTest(fields, |fields|)
    ensures Tidy(r.parents) && Ascending(r.parents.primary) && Ascending(r.parents.contributing)
    ensures
      var trace := LastTrace(fields, |fields|);
      && Elems(r.parents.primary) == IdsIn(trace, |trace|, false) + Elems(LinksOf(links, id).primary)
      && Elems(r.parents.contributing)
         == (IdsIn(trace, |trace|, true) - IdsIn(trace, |trace|, false))
            + (Elems(LinksOf(links, id).contributing) - Elems(r.parents.primary))
      && AllParents(r.parents)
         == IdsIn(trace, |trace|, false) + IdsIn(trace, |trace|, true) + AllParents(LinksOf(links, id))
  {
    var impl: Option<string>, test: Option<string> := None, None;
    var trace: seq<Segment> := [];
    for i := 0 to |fields|
      invariant impl == LastImpl(fields, i) && test == LastTest(fields, i) && trace == LastTrace(fields, i)
    {
      match fields[i]
      case ImplementationState(value) => impl := OrNone(value);
      case TestStatus(value) => test := OrNone(value);
      case Traceability(segments) => trace := segments;
    }
    var inline := ParseTraceability(trace);
    var parents := JoinLinks(inline, LinksOf(links, id));
    r := Requirement(id, level, source, impl, test, parents, 0);
  }
}
