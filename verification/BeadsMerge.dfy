/** The three-way ledger merge behind `harmonik beads-merge`: last writer wins by
    id on updated_at, with labels and dependencies united. */
module BeadsMerge {
  import opened Order
  import opened BeadRows
  import opened Results

  datatype Conflict = Conflict(id: string, ours: string, theirs: string)

  // ---- One file ----

  /** The record a file keeps for each id: a later record replaces an earlier one
      only when its timestamp is strictly greater. */
  function Latest(rows: seq<Row>): (m: map<string, Row>)
    ensures forall id :: id in m ==> m[id].id == id
  {
    if rows == [] then map[]
    else Keep(Latest(rows[..|rows| - 1]), rows[|rows| - 1])
  }

  function Keep(m: map<string, Row>, r: Row): map<string, Row> {
    if r.id !in m || m[r.id].at < r.at then m[r.id := r] else m
  }

  function Ids(rows: seq<Row>): set<string> {
    set r | r in rows :: r.id
  }

  /** i is the position of the earliest record with the greatest timestamp for its id. */
  ghost predicate EarliestNewest(rows: seq<Row>, i: nat)
    requires i < |rows|
  {
    forall j :: 0 <= j < |rows| && rows[j].id == rows[i].id ==>
      rows[j].at <= rows[i].at && (j < i ==> rows[j].at < rows[i].at)
  }

  method RowsToMap(rows: seq<Row>) returns (m: map<string, Row>)
    ensures m == Latest(rows)
  {
    m := map[];
    for i := 0 to |rows|
      invariant m == Latest(rows[..i])
    {
      assert rows[..i + 1][..i] == rows[..i];
      if rows[i].id !in m || m[rows[i].id].at < rows[i].at {
        m := m[rows[i].id := rows[i]];
      }
    }
    assert rows[..|rows|] == rows;
  }

  lemma IdsSnoc(rows: seq<Row>, r: Row)
    ensures Ids(rows + [r]) == Ids(rows) + {r.id}
  {
    forall id | id in Ids(rows) + {r.id} ensures id in Ids(rows + [r]) {
      if id == r.id {
        assert r in rows + [r];
      } else {
        var x :| x in rows && x.id == id;
        assert x in rows + [r];
      }
    }
  }

  lemma {:induction false} LatestKeys(rows: seq<Row>)
    ensures Latest(rows).Keys == Ids(rows)
  {
    if rows != [] {
      var n := |rows| - 1;
      LatestKeys(rows[..n]);
      IdsSnoc(rows[..n], rows[n]);
      assert rows == rows[..n] + [rows[n]];
    }
  }

  /** For each id a file keeps exactly the earliest record of greatest timestamp. */
  lemma {:induction false} LatestIsEarliestNewest(rows: seq<Row>, i: nat)
    requires i < |rows|
    ensures rows[i].id in Latest(rows)
    ensures EarliestNewest(rows, i) ==> Latest(rows)[rows[i].id] == rows[i]
    ensures rows[i].at <= Latest(rows)[rows[i].id].at
  {
    var n := |rows| - 1;
    var init := rows[..n];
    if i < n {
      LatestIsEarliestNewest(init, i);
      if EarliestNewest(rows, i) {
        assert forall j :: 0 <= j < |init| ==> init[j] == rows[j];
        assert EarliestNewest(init, i);
      }
    } else if EarliestNewest(rows, i) && rows[i].id in Latest(init) {
      var j := LatestPosition(init, rows[i].id);
      assert init[j] == rows[j];
    }
  }

  lemma {:induction false} LatestPosition(rows: seq<Row>, id: string) returns (i: nat)
    requires id in Latest(rows)
    ensures i < |rows| && rows[i].id == id && Latest(rows)[id] == rows[i]
    ensures EarliestNewest(rows, i)
  {
    var n := |rows| - 1;
    var init := rows[..n];
    if id in Latest(init) {
      var j := LatestPosition(init, id);
      assert forall k :: 0 <= k < |init| ==> init[k] == rows[k];
      i := if rows[n].id == id && init[j].at < rows[n].at then n else j;
    } else {
      LatestKeys(init);
      assert forall k :: 0 <= k < n ==> init[k] in init && init[k].id in Ids(init);
      i := n;
    }
  }

  // ---- Unions ----

  /** A list of strings as json.Marshal writes it: the nil slice, which is what
      collecting nothing leaves, is written as null. */
  function MarshalStrings(xs: seq<string>): Json {
    if xs == [] then Null else Array(seq(|xs|, i requires 0 <= i < |xs| => Text(xs[i])))
  }

  function WithLabels(w: Raw, a: Option<seq<string>>, b: Option<seq<string>>, c: Option<seq<string>>): Raw {
    if a.None? && b.None? && c.None? then w
    else w[LABELS := MarshalStrings(Sorted(SetOf(Elements(a) + Elements(b) + Elements(c))))]
  }

  function WithDependencies(w: Raw, a: Option<seq<Json>>, b: Option<seq<Json>>, c: Option<seq<Json>>): Raw {
    if a.None? && b.None? && c.None? then w
    else
      var first := FirstByKey(Elements(a) + Elements(b) + Elements(c));
      w[DEPENDENCIES := Array(Listed(Sorted(first.Keys), first))]
  }

  function United(winner: Raw, current: Raw, other: Raw, ancestor: Raw): Raw {
    WithDependencies(
      WithLabels(winner, StringArray(current, LABELS), StringArray(other, LABELS), StringArray(ancestor, LABELS)),
      RawArray(current, DEPENDENCIES), RawArray(other, DEPENDENCIES), RawArray(ancestor, DEPENDENCIES))
  }

  method AddStrings(seen: set<string>, result: seq<string>, xs: seq<string>)
    returns (seen': set<string>, result': seq<string>)
    requires SetOf(result) == seen
    ensures SetOf(result') == seen' == seen + SetOf(xs)
  {
    seen', result' := seen, result;
    for i := 0 to |xs|
      invariant SetOf(result') == seen' == seen + SetOf(xs[..i])
    {
      assert xs[..i + 1] == xs[..i] + [xs[i]];
      if xs[i] !in seen' {
        seen', result' := seen' + {xs[i]}, result' + [xs[i]];
      }
    }
    assert xs[..|xs|] == xs;
  }

  method UnionStringArray(a: Option<seq<string>>, b: Option<seq<string>>, c: Option<seq<string>>)
    returns (result: seq<string>, ok: bool)
    ensures ok <==> a.Some? || b.Some? || c.Some?
    ensures ok ==> Ascending(result) && SetOf(result) == SetOf(Elements(a)) + SetOf(Elements(b)) + SetOf(Elements(c))
  {
    if a.None? && b.None? && c.None? {
      return [], false;
    }
    var seen: set<string> := {};
    result := [];
    seen, result := AddStrings(seen, result, Elements(a));
    seen, result := AddStrings(seen, result, Elements(b));
    seen, result := AddStrings(seen, result, Elements(c));
    result := Sorted(SetOf(result));
    return result, true;
  }

  method AddDependencies(seen: map<string, Json>, order: seq<string>, entries: seq<Json>)
    returns (seen': map<string, Json>, order': seq<string>)
    requires SetOf(order) == seen.Keys
    ensures seen' == FirstByKey(entries) + seen
    ensures SetOf(order') == seen'.Keys
  {
    seen', order' := seen, order;
    for i := 0 to |entries|
      invariant seen' == FirstByKey(entries[..i]) + seen
      invariant SetOf(order') == seen'.Keys
    {
      assert entries[..i + 1][..i] == entries[..i];
      var key := DependencyKey(entries[i]);
      if key.Some? && key.value !in seen' {
        seen', order' := seen'[key.value := entries[i]], order' + [key.value];
      }
    }
    assert entries[..|entries|] == entries;
  }

  lemma FirstOfThree(a: seq<Json>, b: seq<Json>, c: seq<Json>)
    ensures FirstByKey(a + b + c) == FirstByKey(c) + (FirstByKey(b) + (FirstByKey(a) + map[]))
  {
    FirstByKeyConcat(a, b);
    FirstByKeyConcat(a + b, c);
    assert FirstByKey(a) + map[] == FirstByKey(a);
  }

  method ListInOrder(order: seq<string>, seen: map<string, Json>) returns (result: seq<Json>)
    requires forall k :: k in order ==> k in seen
    ensures result == Listed(order, seen)
  {
    result := [];
    for i := 0 to |order|
      invariant |result| == i
      invariant forall j :: 0 <= j < i ==> result[j] == seen[order[j]]
    {
      result := result + [seen[order[i]]];
    }
  }

  method UnionDependencies(a: Option<seq<Json>>, b: Option<seq<Json>>, c: Option<seq<Json>>)
    returns (result: seq<Json>, ok: bool)
    ensures ok <==> a.Some? || b.Some? || c.Some?
    ensures ok ==>
      var first := FirstByKey(Elements(a) + Elements(b) + Elements(c));
      result == Listed(Sorted(first.Keys), first)
  {
    if a.None? && b.None? && c.None? {
      return [], false;
    }
    var seen: map<string, Json> := map[];
    var order: seq<string> := [];
    seen, order := AddDependencies(seen, order, Elements(a));
    seen, order := AddDependencies(seen, order, Elements(b));
    seen, order := AddDependencies(seen, order, Elements(c));
    FirstOfThree(Elements(a), Elements(b), Elements(c));
    if |order| == 0 {
      assert seen.Keys == {};
      return [], true;
    }
    order := Sorted(SetOf(order));
    result := ListInOrder(order, seen);
    return result, true;
  }

  method UnionLabelsAndDeps(winner: Raw, current: Raw, other: Raw, ancestor: Raw) returns (result: Raw)
    ensures result == United(winner, current, other, ancestor)
  {
    var a, b, c := StringArray(current, LABELS), StringArray(other, LABELS), StringArray(ancestor, LABELS);
    result := winner;
    var labels, labelsOk := UnionStringArray(a, b, c);
    if labelsOk {
      LabelsListing(labels, Elements(a), Elements(b), Elements(c));
      result := result[LABELS := MarshalStrings(labels)];
    }
    assert result == WithLabels(winner, a, b, c);
    var deps, depsOk := UnionDependencies(
      RawArray(current, DEPENDENCIES), RawArray(other, DEPENDENCIES), RawArray(ancestor, DEPENDENCIES));
    if depsOk {
      result := result[DEPENDENCIES := Array(deps)];
    }
  }

  lemma SetOfConcat(xs: seq<string>, ys: seq<string>)
    ensures SetOf(xs + ys) == SetOf(xs) + SetOf(ys)
  {
  }

  lemma SortedListing(xs: seq<string>, s: set<string>)
    requires Ascending(xs) && SetOf(xs) == s
    ensures xs == Sorted(s)
  {
    forall x ensures x in xs <==> x in Sorted(s) {
      assert x in xs <==> x in SetOf(xs);
    }
    AscendingUnique(xs, Sorted(s));
  }

  lemma LabelsListing(xs: seq<string>, a: seq<string>, b: seq<string>, c: seq<string>)
    requires Ascending(xs) && SetOf(xs) == SetOf(a) + SetOf(b) + SetOf(c)
    ensures xs == Sorted(SetOf(a + b + c))
  {
    SetOfConcat(a, b);
    SetOfConcat(a + b, c);
    SortedListing(xs, SetOf(a + b + c));
  }

  // ---- The merge ----

  function Find(m: map<string, Row>, id: string): Option<Row> {
    if id in m then Some(m[id]) else None
  }

  function RawOf(r: Option<Row>): Raw {
    if r.Some? then r.value.raw else map[]
  }

  /** What the merge writes for one id; None when only the ancestor has it. */
  function MergeRow(a: Option<Row>, c: Option<Row>, o: Option<Row>): Option<Row> {
    if c.Some? && o.Some? then
      var winner := if c.value.at < o.value.at then o.value else c.value;
      Some(winner.(raw := United(winner.raw, c.value.raw, o.value.raw, RawOf(a))))
    else if c.Some? then c
    else o
  }

  predicate Conflicting(c: Option<Row>, o: Option<Row>) {
    c.Some? && o.Some? && c.value.at == o.value.at && c.value.raw != o.value.raw
  }

  function ConflictOf(id: string, c: Row, o: Row): Conflict {
    Conflict(id, StringField(c.raw, "status"), StringField(o.raw, "status"))
  }

  function MergedRows(ids: seq<string>, a: map<string, Row>, c: map<string, Row>, o: map<string, Row>): seq<Row> {
    if ids == [] then []
    else
      var id := ids[|ids| - 1];
      var row := MergeRow(Find(a, id), Find(c, id), Find(o, id));
      MergedRows(ids[..|ids| - 1], a, c, o) + if row.Some? then [row.value] else []
  }

  function MergedConflicts(ids: seq<string>, c: map<string, Row>, o: map<string, Row>): seq<Conflict> {
    if ids == [] then []
    else
      var id := ids[|ids| - 1];
      MergedConflicts(ids[..|ids| - 1], c, o)
      + if Conflicting(Find(c, id), Find(o, id)) then [ConflictOf(id, c[id], o[id])] else []
  }

  function Merged(ancestor: seq<Row>, current: seq<Row>, other: seq<Row>): seq<Row> {
    MergedRows(Sorted(Ids(ancestor) + Ids(current) + Ids(other)), Latest(ancestor), Latest(current), Latest(other))
  }

  function Conflicts(ancestor: seq<Row>, current: seq<Row>, other: seq<Row>): seq<Conflict> {
    MergedConflicts(Sorted(Ids(ancestor) + Ids(current) + Ids(other)), Latest(current), Latest(other))
  }

  method CollectIds(ids: set<string>, rows: seq<Row>) returns (ids': set<string>)
    ensures ids' == ids + Ids(rows)
  {
    ids' := ids;
    for i := 0 to |rows|
      invariant ids' == ids + Ids(rows[..i])
    {
      assert rows[..i + 1] == rows[..i] + [rows[i]];
      ids' := ids' + {rows[i].id};
    }
    assert rows[..|rows|] == rows;
  }

  /** The merge of one id, over the three maps' rows for it. */
  method MergeOne(id: string, aRow: Option<Row>, cRow: Option<Row>, oRow: Option<Row>)
    returns (row: Option<Row>, conflict: Option<Conflict>)
    ensures row == MergeRow(aRow, cRow, oRow)
    ensures conflict == if Conflicting(cRow, oRow) then Some(ConflictOf(id, cRow.value, oRow.value)) else None
  {
    conflict := None;
    if cRow.Some? && oRow.Some? {
      var winner := cRow.value;
      if cRow.value.at == oRow.value.at {
        if cRow.value.raw != oRow.value.raw {
          conflict := Some(ConflictOf(id, cRow.value, oRow.value));
        }
      } else if cRow.value.at < oRow.value.at {
        winner := oRow.value;
      }
      var raw := UnionLabelsAndDeps(winner.raw, cRow.value.raw, oRow.value.raw, RawOf(aRow));
      row := Some(winner.(raw := raw));
    } else if cRow.Some? {
      row := cRow;
    } else {
      row := oRow;
    }
  }

  method MergeBeadRows(ancestor: seq<Row>, current: seq<Row>, other: seq<Row>)
    returns (merged: seq<Row>, conflicts: seq<Conflict>)
    ensures merged == Merged(ancestor, current, other)
    ensures conflicts == Conflicts(ancestor, current, other)
  {
    var ancestorMap := RowsToMap(ancestor);
    var currentMap := RowsToMap(current);
    var otherMap := RowsToMap(other);
    var allIds := CollectIds({}, ancestor);
    allIds := CollectIds(allIds, current);
    allIds := CollectIds(allIds, other);
    assert allIds == Ids(ancestor) + Ids(current) + Ids(other);
    merged, conflicts := MergeIds(Sorted(allIds), ancestorMap, currentMap, otherMap);
  }

  method MergeIds(sortedIds: seq<string>, ancestorMap: map<string, Row>, currentMap: map<string, Row>, otherMap: map<string, Row>)
    returns (merged: seq<Row>, conflicts: seq<Conflict>)
    ensures merged == MergedRows(sortedIds, ancestorMap, currentMap, otherMap)
    ensures conflicts == MergedConflicts(sortedIds, currentMap, otherMap)
  {
    merged, conflicts := [], [];
    for i := 0 to |sortedIds|
      invariant merged == MergedRows(sortedIds[..i], ancestorMap, currentMap, otherMap)
      invariant conflicts == MergedConflicts(sortedIds[..i], currentMap, otherMap)
    {
      assert sortedIds[..i + 1][..i] == sortedIds[..i];
      var id := sortedIds[i];
      var row, conflict := MergeOne(id, Find(ancestorMap, id), Find(currentMap, id), Find(otherMap, id));
      if conflict.Some? {
        conflicts := conflicts + [conflict.value];
      }
      if row.Some? {
        merged := merged + [row.value];
      }
    }
    assert sortedIds[..|sortedIds|] == sortedIds;
  }
}
