/** What a merged ledger holds, id by id. */
module BeadsMergeOutput {
  import opened Order
  import opened BeadRows
  import opened BeadsMerge
  import opened Results

  ghost predicate IdsAscend(rows: seq<Row>) {
    forall i, j :: 0 <= i < j < |rows| ==> Less(rows[i].id, rows[j].id)
  }

  lemma {:induction false} MergedRowsAt(ids: seq<string>, a: map<string, Row>, c: map<string, Row>, o: map<string, Row>)
    requires Ascending(ids)
    requires forall id :: id in c ==> c[id].id == id
    requires forall id :: id in o ==> o[id].id == id
    ensures forall r :: r in MergedRows(ids, a, c, o) ==>
      r.id in ids && Some(r) == MergeRow(Find(a, r.id), Find(c, r.id), Find(o, r.id))
    ensures IdsAscend(MergedRows(ids, a, c, o))
  {
    if ids != [] {
      var n := |ids| - 1;
      var init := ids[..n];
      assert ids == init + [ids[n]];
      MergedRowsAt(init, a, c, o);
      var before := MergedRows(init, a, c, o);
      forall i | 0 <= i < |before| ensures Less(before[i].id, ids[n]) {
        assert before[i] in before;
        var k :| 0 <= k < n && ids[k] == before[i].id;
      }
      var row := MergeRow(Find(a, ids[n]), Find(c, ids[n]), Find(o, ids[n]));
      assert row.Some? ==> row.value.id == ids[n];
    }
  }

  lemma {:induction false} MergedRowIds(ids: seq<string>, a: map<string, Row>, c: map<string, Row>, o: map<string, Row>)
    requires forall id :: id in c ==> c[id].id == id
    requires forall id :: id in o ==> o[id].id == id
    ensures Ids(MergedRows(ids, a, c, o)) == SetOf(ids) * (c.Keys + o.Keys)
  {
    if ids != [] {
      var n := |ids| - 1;
      MergedRowIds(ids[..n], a, c, o);
      MergedRowsSnoc(ids, a, c, o);
      OneMore(SetOf(ids[..n]), ids[n], c.Keys + o.Keys);
      assert ids == ids[..n] + [ids[n]];
      assert SetOf(ids) == SetOf(ids[..n]) + {ids[n]};
    }
  }

  lemma MergedRowsSnoc(ids: seq<string>, a: map<string, Row>, c: map<string, Row>, o: map<string, Row>)
    requires ids != [] && (forall id :: id in c ==> c[id].id == id) && (forall id :: id in o ==> o[id].id == id)
    ensures var id := ids[|ids| - 1];
      Ids(MergedRows(ids, a, c, o)) == Ids(MergedRows(ids[..|ids| - 1], a, c, o)) + if id in c.Keys + o.Keys then {id} else {}
  {
    var id, before := ids[|ids| - 1], MergedRows(ids[..|ids| - 1], a, c, o);
    var row := MergeRow(Find(a, id), Find(c, id), Find(o, id));
    if row.Some? {
      IdsSnoc(before, row.value);
    } else {
      assert before + [] == before;
    }
  }

  lemma OneMore(s: set<string>, id: string, keys: set<string>)
    ensures (s + {id}) * keys == s * keys + if id in keys then {id} else {}
  {
  }

  /** The merged ledger is strictly ascending by id, over exactly the ids of
      current and other: an id of the ancestor alone is dropped. */
  lemma MergedIds(ancestor: seq<Row>, current: seq<Row>, other: seq<Row>)
    ensures Ids(Merged(ancestor, current, other)) == Ids(current) + Ids(other)
    ensures IdsAscend(Merged(ancestor, current, other))
  {
    var ids := Sorted(Ids(ancestor) + Ids(current) + Ids(other));
    LatestKeys(current);
    LatestKeys(other);
    MergedRowsAt(ids, Latest(ancestor), Latest(current), Latest(other));
    MergedRowIds(ids, Latest(ancestor), Latest(current), Latest(other));
    assert SetOf(ids) == Ids(ancestor) + Ids(current) + Ids(other);
  }

  /** Every row of the merged ledger, and the row it keeps for every id. */
  lemma MergedRowOf(ancestor: seq<Row>, current: seq<Row>, other: seq<Row>, id: string)
    requires id in Ids(current) + Ids(other)
    ensures var merged := Merged(ancestor, current, other);
      && id in Latest(merged)
      && Some(Latest(merged)[id]) == MergeRow(Find(Latest(ancestor), id), Find(Latest(current), id), Find(Latest(other), id))
  {
    var merged := Merged(ancestor, current, other);
    var ids := Sorted(Ids(ancestor) + Ids(current) + Ids(other));
    MergedRowsAt(ids, Latest(ancestor), Latest(current), Latest(other));
    MergedIds(ancestor, current, other);
    LatestKeys(merged);
    var i := LatestPosition(merged, id);
  }

  /** The labels a written row carries are those that went into the union. */
  lemma LabelSetWritten(w: Raw, a: Option<seq<string>>, b: Option<seq<string>>, c: Option<seq<string>>)
    ensures var united := WithLabels(w, a, b, c);
      LabelSet(united) == if a.None? && b.None? && c.None? then LabelSet(w)
                          else SetOf(Elements(a)) + SetOf(Elements(b)) + SetOf(Elements(c))
  {
    if a.Some? || b.Some? || c.Some? {
      var xs := Sorted(SetOf(Elements(a) + Elements(b) + Elements(c)));
      SetOfConcat(Elements(a), Elements(b));
      SetOfConcat(Elements(a) + Elements(b), Elements(c));
      StringArrayWritten(w, xs);
      assert SetOf(xs) == SetOf(Elements(a) + Elements(b) + Elements(c));
    }
  }

  /** Reading back a marshalled label list: the list itself, except that an empty
      one was written as null and reads as the nil slice. */
  lemma StringArrayWritten(w: Raw, xs: seq<string>)
    ensures StringArray(w[LABELS := MarshalStrings(xs)], LABELS) == if xs == [] then None else Some(xs)
  {
    if xs != [] {
      assert Strings(MarshalStrings(xs).items) == xs;
    }
  }

  lemma DependencyMapWritten(w: Raw, a: Option<seq<Json>>, b: Option<seq<Json>>, c: Option<seq<Json>>)
    ensures DependencyMap(WithDependencies(w, a, b, c)) ==
      if a.None? && b.None? && c.None? then DependencyMap(w)
      else FirstByKey(Elements(c)) + (FirstByKey(Elements(b)) + FirstByKey(Elements(a)))
  {
    if a.Some? || b.Some? || c.Some? {
      var all := Elements(a) + Elements(b) + Elements(c);
      FirstByKeyCanonical(all);
      FirstThree(Elements(a), Elements(b), Elements(c));
      var list := Listed(Sorted(FirstByKey(all).Keys), FirstByKey(all));
      assert RawArray(w[DEPENDENCIES := Array(list)], DEPENDENCIES) == Some(list);
    }
  }

  lemma FirstThree(a: seq<Json>, b: seq<Json>, c: seq<Json>)
    ensures FirstByKey(a + b + c) == FirstByKey(c) + (FirstByKey(b) + FirstByKey(a))
  {
    FirstByKeyConcat(a + b, c);
    FirstByKeyConcat(a, b);
  }

  lemma SameScalars(w: Raw, j: Json)
    ensures Scalars(w[LABELS := j]) == Scalars(w)
    ensures Scalars(w[DEPENDENCIES := j]) == Scalars(w)
    ensures LabelSet(w[DEPENDENCIES := j]) == LabelSet(w)
    ensures StringArray(w[DEPENDENCIES := j], LABELS) == StringArray(w, LABELS)
    ensures DependencyMap(w[LABELS := j]) == DependencyMap(w)
    ensures RawArray(w[LABELS := j], DEPENDENCIES) == RawArray(w, DEPENDENCIES)
  {
  }

  lemma UnitedScalars(winner: Raw, current: Raw, other: Raw, ancestor: Raw)
    ensures Scalars(United(winner, current, other, ancestor)) == Scalars(winner)
  {
    var a, b, c := StringArray(current, LABELS), StringArray(other, LABELS), StringArray(ancestor, LABELS);
    var labelled := WithLabels(winner, a, b, c);
    var united := United(winner, current, other, ancestor);
    if labelled != winner {
      SameScalars(winner, labelled[LABELS]);
    }
    if united != labelled {
      SameScalars(labelled, united[DEPENDENCIES]);
    }
  }

  lemma UnitedLabels(winner: Raw, current: Raw, other: Raw, ancestor: Raw)
    requires winner == current || winner == other
    ensures LabelSet(United(winner, current, other, ancestor)) == LabelSet(current) + LabelSet(other) + LabelSet(ancestor)
  {
    var a, b, c := StringArray(current, LABELS), StringArray(other, LABELS), StringArray(ancestor, LABELS);
    var labelled := WithLabels(winner, a, b, c);
    var united := United(winner, current, other, ancestor);
    LabelSetWritten(winner, a, b, c);
    if united != labelled {
      SameScalars(labelled, united[DEPENDENCIES]);
    }
  }

  lemma UnitedDependencies(winner: Raw, current: Raw, other: Raw, ancestor: Raw)
    requires winner == current || winner == other
    ensures DependencyMap(United(winner, current, other, ancestor)) ==
      DependencyMap(ancestor) + (DependencyMap(other) + DependencyMap(current))
  {
    var a, b, c := StringArray(current, LABELS), StringArray(other, LABELS), StringArray(ancestor, LABELS);
    var p, q, r := RawArray(current, DEPENDENCIES), RawArray(other, DEPENDENCIES), RawArray(ancestor, DEPENDENCIES);
    var labelled := WithLabels(winner, a, b, c);
    if labelled != winner {
      SameScalars(winner, labelled[LABELS]);
    }
    DependencyMapWritten(labelled, p, q, r);
  }

  /** When any of the three rows has a dependency list, the written list holds
      one entry per dependency key, in ascending key order. */
  lemma UnitedDependencyList(winner: Raw, current: Raw, other: Raw, ancestor: Raw)
    requires RawArray(current, DEPENDENCIES).Some? || RawArray(other, DEPENDENCIES).Some? || RawArray(ancestor, DEPENDENCIES).Some?
    ensures var m := DependencyMap(United(winner, current, other, ancestor));
      RawArray(United(winner, current, other, ancestor), DEPENDENCIES) == Some(Listed(Sorted(m.Keys), m))
  {
    var p, q, r := RawArray(current, DEPENDENCIES), RawArray(other, DEPENDENCIES), RawArray(ancestor, DEPENDENCIES);
    FirstByKeyCanonical(Elements(p) + Elements(q) + Elements(r));
  }

  /** A row that both sides hold keeps the greatest timestamp and its scalar
      fields, exactly the labels of the three rows, and one entry for each
      dependency key any of them names. A row of one side passes through. */
  lemma SharedRow(ancestor: seq<Row>, current: seq<Row>, other: seq<Row>, id: string)
    requires id in Ids(current) && id in Ids(other)
    ensures id in Latest(current) && id in Latest(other) && id in Latest(Merged(ancestor, current, other))
    ensures SharedOutcome(RawOf(Find(Latest(ancestor), id)), Latest(current)[id], Latest(other)[id],
                          Latest(Merged(ancestor, current, other))[id])
  {
    LatestKeys(current);
    LatestKeys(other);
    MergedRowOf(ancestor, current, other, id);
    SharedRowOutcome(Find(Latest(ancestor), id), Latest(current)[id], Latest(other)[id]);
  }

  ghost predicate SharedOutcome(a: Raw, c: Row, o: Row, m: Row) {
    && m.at >= c.at && m.at >= o.at
    && ((m.at == c.at && Scalars(m.raw) == Scalars(c.raw)) || (m.at == o.at > c.at && Scalars(m.raw) == Scalars(o.raw)))
    && LabelSet(m.raw) == LabelSet(c.raw) + LabelSet(o.raw) + LabelSet(a)
    && DependencyMap(m.raw) == DependencyMap(a) + (DependencyMap(o.raw) + DependencyMap(c.raw))
  }

  lemma SharedRowOutcome(a: Option<Row>, c: Row, o: Row)
    ensures SharedOutcome(RawOf(a), c, o, MergeRow(a, Some(c), Some(o)).value)
  {
    var winner := if c.at < o.at then o else c;
    UnitedScalars(winner.raw, c.raw, o.raw, RawOf(a));
    UnitedLabels(winner.raw, c.raw, o.raw, RawOf(a));
    UnitedDependencies(winner.raw, c.raw, o.raw, RawOf(a));
  }

  lemma OneSidedRow(ancestor: seq<Row>, current: seq<Row>, other: seq<Row>, id: string)
    requires (id in Ids(current)) != (id in Ids(other))
    ensures id in Latest(Merged(ancestor, current, other))
    ensures Some(Latest(Merged(ancestor, current, other))[id]) ==
      if id in Ids(current) then Find(Latest(current), id) else Find(Latest(other), id)
  {
    LatestKeys(current);
    LatestKeys(other);
    MergedRowOf(ancestor, current, other, id);
  }

  ghost function Logged(log: seq<Conflict>): set<string> {
    set k | 0 <= k < |log| :: log[k].id
  }

  lemma LoggedSnoc(log: seq<Conflict>, f: Conflict)
    ensures Logged(log + [f]) == Logged(log) + {f.id}
  {
    var whole := log + [f];
    assert whole[|log|] == f;
    forall id | id in Logged(log) ensures id in Logged(whole) {
      var k :| 0 <= k < |log| && log[k].id == id;
      assert whole[k].id == id;
    }
    forall id | id in Logged(whole) ensures id in Logged(log) + {f.id} {
      var k :| 0 <= k < |whole| && whole[k].id == id;
      assert k < |log| ==> log[k].id == id;
    }
  }

  /** The field reads as t: it is that text, or it is no text and t is empty. */
  predicate Reads(m: Raw, key: string, t: string) {
    if key in m && m[key].Text? then m[key] == Text(t) else t == ""
  }

  ghost predicate RecordsBothSides(log: seq<Conflict>, c: map<string, Row>, o: map<string, Row>) {
    forall k :: 0 <= k < |log| ==>
      log[k].id in c && log[k].id in o
      && Reads(c[log[k].id].raw, "status", log[k].ours) && Reads(o[log[k].id].raw, "status", log[k].theirs)
  }

  lemma {:induction false} ConflictsAt(ids: seq<string>, c: map<string, Row>, o: map<string, Row>)
    requires Ascending(ids)
    ensures forall id :: id in Logged(MergedConflicts(ids, c, o)) <==> id in ids && Conflicting(Find(c, id), Find(o, id))
    ensures |Logged(MergedConflicts(ids, c, o))| == |MergedConflicts(ids, c, o)|
    ensures RecordsBothSides(MergedConflicts(ids, c, o), c, o)
  {
    if ids != [] {
      var n := |ids| - 1;
      var init, id := ids[..n], ids[n];
      assert ids == init + [id];
      ConflictsAt(init, c, o);
      forall i | 0 <= i < n ensures ids[i] != id {
        LessAsymmetric(ids[i], id);
      }
      ConflictsSnoc(ids, c, o);
    }
  }

  lemma ConflictsSnoc(ids: seq<string>, c: map<string, Row>, o: map<string, Row>)
    requires ids != []
    ensures var id, before := ids[|ids| - 1], MergedConflicts(ids[..|ids| - 1], c, o);
      && Logged(MergedConflicts(ids, c, o)) == Logged(before) + (if Conflicting(Find(c, id), Find(o, id)) then {id} else {})
      && |MergedConflicts(ids, c, o)| == |before| + (if Conflicting(Find(c, id), Find(o, id)) then 1 else 0)
      && (RecordsBothSides(before, c, o) ==> RecordsBothSides(MergedConflicts(ids, c, o), c, o))
  {
    var id, before := ids[|ids| - 1], MergedConflicts(ids[..|ids| - 1], c, o);
    if Conflicting(Find(c, id), Find(o, id)) {
      LoggedSnoc(before, ConflictOf(id, c[id], o[id]));
      assert MergedConflicts(ids, c, o) == before + [ConflictOf(id, c[id], o[id])];
    } else {
      assert MergedConflicts(ids, c, o) == before;
    }
  }

  /** A conflict is logged for an id exactly when both sides tie on time and
      differ in their raw fields, once, with the two sides' statuses. */
  lemma ConflictsExact(ancestor: seq<Row>, current: seq<Row>, other: seq<Row>, id: string)
    ensures id in Logged(Conflicts(ancestor, current, other)) <==>
      && id in Latest(current) && id in Latest(other)
      && Latest(current)[id].at == Latest(other)[id].at && Latest(current)[id].raw != Latest(other)[id].raw
    ensures |Logged(Conflicts(ancestor, current, other))| == |Conflicts(ancestor, current, other)|
    ensures RecordsBothSides(Conflicts(ancestor, current, other), Latest(current), Latest(other))
  {
    var ids := Sorted(Ids(ancestor) + Ids(current) + Ids(other));
    LatestKeys(current);
    LatestKeys(other);
    ConflictsAt(ids, Latest(current), Latest(other));
  }

  // ---- The united lists, told from the fields ----

  /** The label list of a row has this label. A list with anything but texts and nulls
      is no label list; a null in it stands for the empty text. */
  predicate HasLabel(m: Raw, t: string) {
    && LABELS in m && m[LABELS].Array?
    && (forall i :: 0 <= i < |m[LABELS].items| ==> m[LABELS].items[i].Text? || m[LABELS].items[i].Null?)
    && exists i :: 0 <= i < |m[LABELS].items| && (m[LABELS].items[i] == Text(t) || (m[LABELS].items[i].Null? && t == ""))
  }

  lemma HasLabelIs(m: Raw, t: string)
    ensures HasLabel(m, t) <==> t in LabelSet(m)
  {
    if LABELS in m && m[LABELS].Array? && AllStrings(m[LABELS].items) {
      var xs := Strings(m[LABELS].items);
      if HasLabel(m, t) {
        var i :| 0 <= i < |m[LABELS].items| && (m[LABELS].items[i] == Text(t) || (m[LABELS].items[i].Null? && t == ""));
        assert xs[i] == t;
      }
      if t in LabelSet(m) {
        var i :| 0 <= i < |xs| && xs[i] == t;
        assert m[LABELS].items[i] == Text(t) || (m[LABELS].items[i].Null? && t == "");
      }
    }
  }

  /** A shared row has a label exactly when one of the three rows has it. */
  lemma SharedLabels(ancestor: seq<Row>, current: seq<Row>, other: seq<Row>, id: string, t: string)
    requires id in Ids(current) && id in Ids(other)
    ensures id in Latest(current) && id in Latest(other) && id in Latest(Merged(ancestor, current, other))
    ensures HasLabel(Latest(Merged(ancestor, current, other))[id].raw, t) <==>
      HasLabel(Latest(current)[id].raw, t) || HasLabel(Latest(other)[id].raw, t) || HasLabel(RawOf(Find(Latest(ancestor), id)), t)
  {
    SharedRow(ancestor, current, other, id);
    HasLabelIs(Latest(Merged(ancestor, current, other))[id].raw, t);
    HasLabelIs(Latest(current)[id].raw, t);
    HasLabelIs(Latest(other)[id].raw, t);
    HasLabelIs(RawOf(Find(Latest(ancestor), id)), t);
  }

  /** The entry depends on d. */
  predicate DependsOn(entry: Json, d: string) {
    entry.Object? && "depends_on_id" in entry.fields && entry.fields["depends_on_id"] == Text(d)
  }

  /** The entry names no dependency, only the issue i. */
  predicate IssueAlone(entry: Json, i: string) {
    && entry.Object? && "issue_id" in entry.fields && entry.fields["issue_id"] == Text(i)
    && ("depends_on_id" in entry.fields && entry.fields["depends_on_id"].Text? ==> DependsOn(entry, ""))
  }

  /** What the merge tells entries apart by: the dependency, or for an issue alone its
      id and a colon. A dependency on ":" counts as none. */
  predicate Under(entry: Json, k: string) {
    (k !in {"", ":"} && DependsOn(entry, k)) || (|k| > 1 && k[|k| - 1] == ':' && IssueAlone(entry, k[..|k| - 1]))
  }

  lemma UnderIs(entry: Json, k: string)
    ensures Under(entry, k) <==> DependencyKey(entry) == Some(k)
  {
    if entry.Object? {
      var on, issue := StringField(entry.fields, "depends_on_id"), StringField(entry.fields, "issue_id");
      if on == "" && issue == "" {
        assert issue + ":" + on == ":";
      } else if on == "" {
        var key := issue + ":";
        assert |key| > |":"| && key[..|key| - 1] == issue;
        assert entry.fields["issue_id"] == Text(issue);
        assert IssueAlone(entry, issue) && Under(entry, key);
        assert issue + ":" + on == key;
        if Under(entry, k) {
          assert k == k[..|k| - 1] + ":" && k[..|k| - 1] == issue;
        }
      }
    }
  }

  function EntriesOf(m: Raw): seq<Json> {
    if DEPENDENCIES in m && m[DEPENDENCIES].Array? then m[DEPENDENCIES].items else []
  }

  predicate Holds(entries: seq<Json>, k: string) {
    exists y :: 0 <= y < |entries| && Under(entries[y], k)
  }

  predicate FirstAt(entries: seq<Json>, k: string, y: nat) {
    y < |entries| && Under(entries[y], k) && forall z :: 0 <= z < y ==> !Under(entries[z], k)
  }

  ghost predicate IsFirst(entries: seq<Json>, k: string, entry: Json) {
    exists y: nat :: FirstAt(entries, k, y) && entries[y] == entry
  }

  lemma HoldsSnoc(init: seq<Json>, e: Json, k: string)
    ensures Holds(init + [e], k) <==> Holds(init, k) || Under(e, k)
  {
    var entries := init + [e];
    assert entries[|init|] == e;
    assert forall z :: 0 <= z < |init| ==> entries[z] == init[z];
    if Holds(init, k) {
      var y :| 0 <= y < |init| && Under(init[y], k);
      assert Under(entries[y], k);
    }
  }

  lemma FirstAtLonger(init: seq<Json>, e: Json, k: string, y: nat)
    requires FirstAt(init, k, y)
    ensures FirstAt(init + [e], k, y) && (init + [e])[y] == init[y]
  {
  }

  lemma FirstAtEnd(init: seq<Json>, e: Json, k: string)
    requires !Holds(init, k) && Under(e, k)
    ensures FirstAt(init + [e], k, |init|) && (init + [e])[|init|] == e
  {
    assert forall z :: 0 <= z < |init| ==> (init + [e])[z] == init[z] && !Under(init[z], k);
  }

  lemma {:induction false} FirstByKeyIs(entries: seq<Json>, k: string)
    ensures k in FirstByKey(entries) <==> Holds(entries, k)
    ensures k in FirstByKey(entries) ==> IsFirst(entries, k, FirstByKey(entries)[k])
  {
    if entries != [] {
      var n := |entries| - 1;
      var init, e := entries[..n], entries[n];
      FirstByKeyIs(init, k);
      UnderIs(e, k);
      HoldsSnoc(init, e, k);
      assert entries == init + [e];
      if Holds(init, k) {
        var y: nat :| FirstAt(init, k, y) && init[y] == FirstByKey(init)[k];
        FirstAtLonger(init, e, k, y);
        assert FirstAt(entries, k, y) && entries[y] == FirstByKey(entries)[k];
      } else if Under(e, k) {
        FirstAtEnd(init, e, k);
        assert FirstAt(entries, k, n) && entries[n] == FirstByKey(entries)[k];
      }
    }
  }

  ghost predicate Named(entry: Json) {
    exists k :: Under(entry, k)
  }

  /** The written list has, for each key of the three lists, the first entry under it,
      once, and no other entry. */
  ghost predicate FirstOfEach(all: seq<Json>, list: seq<Json>) {
    && (forall k :: Holds(list, k) <==> Holds(all, k))
    && (forall x, k :: 0 <= x < |list| && Under(list[x], k) ==> IsFirst(all, k, list[x]))
    && (forall x, y, k :: 0 <= x < y < |list| && Under(list[x], k) ==> !Under(list[y], k))
    && (forall x :: 0 <= x < |list| ==> Named(list[x]))
  }

  lemma ListedUnder(all: seq<Json>, x: nat, k: string)
    requires x < |Sorted(FirstByKey(all).Keys)|
    ensures var keys := Sorted(FirstByKey(all).Keys);
      keys[x] in FirstByKey(all) && (Under(Listed(keys, FirstByKey(all))[x], k) <==> k == keys[x])
  {
    var keys := Sorted(FirstByKey(all).Keys);
    assert keys[x] in keys;
    FirstByKeyKeys(all);
    UnderIs(FirstByKey(all)[keys[x]], k);
  }

  lemma ListedHolds(all: seq<Json>, k: string)
    ensures Holds(Listed(Sorted(FirstByKey(all).Keys), FirstByKey(all)), k) <==> Holds(all, k)
  {
    var keys := Sorted(FirstByKey(all).Keys);
    var list := Listed(keys, FirstByKey(all));
    FirstByKeyIs(all, k);
    if k in FirstByKey(all) {
      assert k in keys;
      var x :| 0 <= x < |keys| && keys[x] == k;
      ListedUnder(all, x, k);
      assert Under(list[x], k);
    }
    if Holds(list, k) {
      var x :| 0 <= x < |list| && Under(list[x], k);
      ListedUnder(all, x, k);
    }
  }

  lemma ListedFirsts(all: seq<Json>)
    ensures FirstOfEach(all, Listed(Sorted(FirstByKey(all).Keys), FirstByKey(all)))
  {
    var keys := Sorted(FirstByKey(all).Keys);
    var list := Listed(keys, FirstByKey(all));
    forall k ensures Holds(list, k) <==> Holds(all, k) {
      ListedHolds(all, k);
    }
    forall x, k | 0 <= x < |list| && Under(list[x], k) ensures IsFirst(all, k, list[x]) {
      ListedUnder(all, x, k);
      FirstByKeyIs(all, k);
    }
    forall x, y, k | 0 <= x < y < |list| && Under(list[x], k) ensures !Under(list[y], k) {
      ListedUnder(all, x, k);
      ListedUnder(all, y, k);
      LessAsymmetric(keys[x], keys[y]);
    }
    forall x | 0 <= x < |list| ensures Named(list[x]) {
      ListedUnder(all, x, keys[x]);
      assert Under(list[x], keys[x]);
    }
  }

  /** The dependencies of a shared row: of the entries of current, then other, then
      ancestor, the first for each dependency and for each issue alone, each once. An
      entry that is no object, or names nothing, is dropped. */
  lemma SharedDependencies(ancestor: seq<Row>, current: seq<Row>, other: seq<Row>, id: string)
    requires id in Ids(current) && id in Ids(other)
    ensures id in Latest(current) && id in Latest(other) && id in Latest(Merged(ancestor, current, other))
    ensures FirstOfEach(
      EntriesOf(Latest(current)[id].raw) + EntriesOf(Latest(other)[id].raw) + EntriesOf(RawOf(Find(Latest(ancestor), id))),
      EntriesOf(Latest(Merged(ancestor, current, other))[id].raw))
  {
    LatestKeys(current);
    LatestKeys(other);
    MergedRowOf(ancestor, current, other, id);
    var c, o := Latest(current)[id], Latest(other)[id];
    UnitedFirsts((if c.at < o.at then o else c).raw, c.raw, o.raw, RawOf(Find(Latest(ancestor), id)));
  }

  lemma UnitedFirsts(winner: Raw, current: Raw, other: Raw, ancestor: Raw)
    requires winner == current || winner == other
    ensures FirstOfEach(EntriesOf(current) + EntriesOf(other) + EntriesOf(ancestor), EntriesOf(United(winner, current, other, ancestor)))
  {
    var p, q, r := RawArray(current, DEPENDENCIES), RawArray(other, DEPENDENCIES), RawArray(ancestor, DEPENDENCIES);
    var all := EntriesOf(current) + EntriesOf(other) + EntriesOf(ancestor);
    assert all == Elements(p) + Elements(q) + Elements(r);
    var united := United(winner, current, other, ancestor);
    if p.Some? || q.Some? || r.Some? {
      ListedFirsts(all);
      assert united[DEPENDENCIES] == Array(Listed(Sorted(FirstByKey(all).Keys), FirstByKey(all)));
    } else {
      assert RawArray(united, DEPENDENCIES) == None && EntriesOf(united) == [] == all;
    }
  }

  predicate Depended(entries: seq<Json>, d: string) {
    exists y :: 0 <= y < |entries| && DependsOn(entries[y], d)
  }

  /** At most one entry of the list depends on d, and one does exactly when the first
      entry under d does, rather than an issue alone with that key; for a d that does
      not end in a colon, when any entry does. */
  ghost predicate DependedOnce(all: seq<Json>, list: seq<Json>, d: string)
    requires d != ""
  {
    && (forall x, y :: 0 <= x < y < |list| && DependsOn(list[x], d) ==> !DependsOn(list[y], d))
    && (Depended(list, d) <==> exists y: nat :: FirstAt(all, d, y) && DependsOn(all[y], d))
    && (d[|d| - 1] != ':' ==> (Depended(list, d) <==> Depended(all, d)))
  }

  /** So no dependency of a shared row is lost or doubled, but for the one that an issue
      alone hides. */
  lemma EachDependencyOnce(ancestor: seq<Row>, current: seq<Row>, other: seq<Row>, id: string, d: string)
    requires id in Ids(current) && id in Ids(other) && d != ""
    ensures id in Latest(current) && id in Latest(other) && id in Latest(Merged(ancestor, current, other))
    ensures DependedOnce(
      EntriesOf(Latest(current)[id].raw) + EntriesOf(Latest(other)[id].raw) + EntriesOf(RawOf(Find(Latest(ancestor), id))),
      EntriesOf(Latest(Merged(ancestor, current, other))[id].raw), d)
  {
    SharedDependencies(ancestor, current, other, id);
    DependedExactly(
      EntriesOf(Latest(current)[id].raw) + EntriesOf(Latest(other)[id].raw) + EntriesOf(RawOf(Find(Latest(ancestor), id))),
      EntriesOf(Latest(Merged(ancestor, current, other))[id].raw), d);
  }

  lemma DependedExactly(all: seq<Json>, list: seq<Json>, d: string)
    requires d != "" && FirstOfEach(all, list)
    ensures DependedOnce(all, list, d)
  {
    forall x, y | 0 <= x < y < |list| && DependsOn(list[x], d) ensures !DependsOn(list[y], d) {
      assert Named(list[x]);
      assert Under(list[x], d);
    }
    if Depended(list, d) {
      var x :| 0 <= x < |list| && DependsOn(list[x], d);
      assert Named(list[x]);
      assert Under(list[x], d);
      assert IsFirst(all, d, list[x]);
    }
    if y: nat :| FirstAt(all, d, y) && DependsOn(all[y], d) {
      FirstIsListed(all, list, d, y);
    }
    if Depended(all, d) && d[|d| - 1] != ':' {
      var y :| 0 <= y < |all| && DependsOn(all[y], d);
      assert Under(all[y], d) && Holds(all, d);
      var x :| 0 <= x < |list| && Under(list[x], d);
    }
  }

  lemma FirstIsListed(all: seq<Json>, list: seq<Json>, k: string, y: nat)
    requires FirstOfEach(all, list) && FirstAt(all, k, y)
    ensures exists x :: 0 <= x < |list| && list[x] == all[y]
  {
    assert Holds(all, k);
    var x :| 0 <= x < |list| && Under(list[x], k);
    assert IsFirst(all, k, list[x]);
    var y': nat :| FirstAt(all, k, y') && all[y'] == list[x];
    assert !(y' < y) && !(y < y');
  }

  /** Where a colon at the end matters: an issue alone "x" comes before an entry that
      depends on "x:", and that dependency is lost. */
  lemma ColonHides()
    ensures var alone := Object(map["issue_id" := Text("x")]);
      var entry := Object(map["issue_id" := Text("y"), "depends_on_id" := Text("x:")]);
      var list := EntriesOf(United(map[], map[DEPENDENCIES := Array([alone, entry])], map[], map[]));
      Depended([alone, entry], "x:") && !Depended(list, "x:")
  {
    var alone := Object(map["issue_id" := Text("x")]);
    var entry := Object(map["issue_id" := Text("y"), "depends_on_id" := Text("x:")]);
    var current: Raw := map[DEPENDENCIES := Array([alone, entry])];
    var none: Raw := map[];
    assert DependsOn([alone, entry][1], "x:");
    UnitedFirsts(none, current, none, none);
    var all := EntriesOf(current) + EntriesOf(none) + EntriesOf(none);
    assert all == [alone, entry];
    assert "x:"[..1] == "x" && IssueAlone(alone, "x");
    assert Under(all[0], "x:") && FirstAt(all, "x:", 0);
    DependedExactly(all, EntriesOf(United(none, current, none, none)), "x:");
  }
}
