/** The merge down to the written fields: exactly when regrouping three files
    leaves the written ledger itself unchanged. */
module BeadsMergeBytes {
  import opened Order
  import opened BeadRows
  import opened BeadsMerge
  import opened BeadsMergeOutput
  import opened BeadsMergeAlgebra
  import opened Results

  function Field(m: Raw, key: string): Option<Json> {
    if key in m then Some(m[key]) else None
  }

  /** The two list fields and the rest determine a row's fields. */
  lemma FieldsDetermine(m: Raw, n: Raw)
    ensures m == n <==>
      Scalars(m) == Scalars(n) && Field(m, LABELS) == Field(n, LABELS) && Field(m, DEPENDENCIES) == Field(n, DEPENDENCIES)
  {
    if Scalars(m) == Scalars(n) && Field(m, LABELS) == Field(n, LABELS) && Field(m, DEPENDENCIES) == Field(n, DEPENDENCIES) {
      forall k ensures k in m <==> k in n {
        assert k in Scalars(m) <==> k in Scalars(n);
      }
      forall k | k in m ensures m[k] == n[k] {
        if k in Scalars(m) {
          assert Scalars(m)[k] == Scalars(n)[k];
        }
      }
    }
  }

  function LabelsIn(f: Option<Json>): Option<seq<string>> {
    StringArray(if f.Some? then map[LABELS := f.value] else map[], LABELS)
  }

  function EntriesIn(f: Option<Json>): Option<seq<Json>> {
    RawArray(if f.Some? then map[DEPENDENCIES := f.value] else map[], DEPENDENCIES)
  }

  /** The label field of a joined row, from the winner's field and both fields. */
  function JoinLabels(won: Option<Json>, c: Option<Json>, o: Option<Json>): Option<Json> {
    if LabelsIn(c).None? && LabelsIn(o).None? then won
    else Some(MarshalStrings(Sorted(SetOf(Elements(LabelsIn(c))) + SetOf(Elements(LabelsIn(o))))))
  }

  function EntryMap(f: Option<Json>): map<string, Json> {
    FirstByKey(Elements(EntriesIn(f)))
  }

  function JoinEntries(won: Option<Json>, c: Option<Json>, o: Option<Json>): Option<Json> {
    if EntriesIn(c).None? && EntriesIn(o).None? then won
    else
      var first := EntryMap(o) + EntryMap(c);
      Some(Array(Listed(Sorted(first.Keys), first)))
  }

  lemma ReadersSeeFields(m: Raw)
    ensures LabelsIn(Field(m, LABELS)) == StringArray(m, LABELS)
    ensures EntriesIn(Field(m, DEPENDENCIES)) == RawArray(m, DEPENDENCIES)
  {
  }

  lemma JoinRowsLabels(c: Row, o: Row)
    ensures Field(JoinRows(c, o).raw, LABELS) ==
      JoinLabels(Field((if c.at < o.at then o else c).raw, LABELS), Field(c.raw, LABELS), Field(o.raw, LABELS))
  {
    var none: Raw := map[];
    var w := if c.at < o.at then o else c;
    ReadersSeeFields(c.raw);
    ReadersSeeFields(o.raw);
    var a, b := StringArray(c.raw, LABELS), StringArray(o.raw, LABELS);
    assert StringArray(none, LABELS) == None;
    assert Elements(a) + Elements(b) + [] == Elements(a) + Elements(b);
    SetOfConcat(Elements(a), Elements(b));
    var labelled := WithLabels(w.raw, a, b, None);
    assert Field(labelled, LABELS) == JoinLabels(Field(w.raw, LABELS), Field(c.raw, LABELS), Field(o.raw, LABELS));
    OtherFieldKept(labelled, RawArray(c.raw, DEPENDENCIES), RawArray(o.raw, DEPENDENCIES));
  }

  lemma OtherFieldKept(labelled: Raw, p: Option<seq<Json>>, q: Option<seq<Json>>)
    ensures Field(WithDependencies(labelled, p, q, None), LABELS) == Field(labelled, LABELS)
  {
  }

  lemma JoinRowsEntries(c: Row, o: Row)
    ensures Field(JoinRows(c, o).raw, DEPENDENCIES) ==
      JoinEntries(Field((if c.at < o.at then o else c).raw, DEPENDENCIES), Field(c.raw, DEPENDENCIES), Field(o.raw, DEPENDENCIES))
  {
    var none: Raw := map[];
    var w := if c.at < o.at then o else c;
    ReadersSeeFields(c.raw);
    ReadersSeeFields(o.raw);
    assert RawArray(none, DEPENDENCIES) == None;
    var p, q := RawArray(c.raw, DEPENDENCIES), RawArray(o.raw, DEPENDENCIES);
    assert Elements(p) + Elements(q) + [] == Elements(p) + Elements(q);
    FirstByKeyConcat(Elements(p), Elements(q));
    var labelled := WithLabels(w.raw, StringArray(c.raw, LABELS), StringArray(o.raw, LABELS), None);
    assert Field(labelled, DEPENDENCIES) == Field(w.raw, DEPENDENCIES);
  }

  lemma JoinRowsScalars(c: Row, o: Row)
    ensures Scalars(JoinRows(c, o).raw) == Scalars((if c.at < o.at then o else c).raw)
    ensures JoinRows(c, o).at == (if c.at < o.at then o else c).at
    ensures JoinRows(c, o).id == (if c.at < o.at then o else c).id
  {
    UnitedScalars((if c.at < o.at then o else c).raw, c.raw, o.raw, map[]);
  }

  // ---- Label fields: where regrouping can show ----

  function LabelsOf(f: Option<Json>): set<string> {
    SetOf(Elements(LabelsIn(f)))
  }

  predicate Empty(f: Option<Json>) {
    LabelsIn(f) == Some([])
  }

  lemma JoinLabelsReads(won: Option<Json>, c: Option<Json>, o: Option<Json>)
    requires won == c || won == o
    ensures LabelsOf(JoinLabels(won, c, o)) == LabelsOf(c) + LabelsOf(o)
    ensures LabelsIn(JoinLabels(won, c, o)).None? <==> LabelsOf(c) + LabelsOf(o) == {}
    ensures !Empty(JoinLabels(won, c, o))
  {
    var all := LabelsOf(c) + LabelsOf(o);
    assert LabelsIn(c).Some? && LabelsIn(c) != Some([]) ==> LabelsIn(c).value[0] in LabelsOf(c);
    assert LabelsIn(o).Some? && LabelsIn(o) != Some([]) ==> LabelsIn(o).value[0] in LabelsOf(o);
    if LabelsIn(c).Some? || LabelsIn(o).Some? {
      var none: Raw := map[];
      StringArrayWritten(none, Sorted(all));
      assert SetOf(Sorted(all)) == all;
      assert none[LABELS := MarshalStrings(Sorted(all))] == map[LABELS := MarshalStrings(Sorted(all))];
    }
  }

  /** What a join leaves in the label field, by cases. */
  function LabelResult(won: Option<Json>, all: set<string>, anyEmpty: bool): Option<Json> {
    if all != {} then Some(MarshalStrings(Sorted(all))) else if anyEmpty then Some(Null) else won
  }

  lemma JoinLabelsCases(won: Option<Json>, c: Option<Json>, o: Option<Json>)
    requires won == c || won == o
    ensures JoinLabels(won, c, o) == LabelResult(won, LabelsOf(c) + LabelsOf(o), Empty(c) || Empty(o))
  {
    assert LabelsIn(c).Some? && LabelsIn(c) != Some([]) ==> LabelsIn(c).value[0] in LabelsOf(c);
    assert LabelsIn(o).Some? && LabelsIn(o) != Some([]) ==> LabelsIn(o).value[0] in LabelsOf(o);
    assert Sorted({}) == [];
  }

  /** Which of three timestamps wins a left-biased merge. */
  function Winner(x: int, y: int, z: int): nat {
    if x < y then (if y < z then 2 else 1) else (if x < z then 2 else 0)
  }

  /** The written rows need not associate: an explicitly empty label list is
      written back as null, which the next merge reads as no list at all. It shows
      exactly when none of the three rows has a label, one has an explicit empty
      list, and the winner is the first or the last row and itself has neither an
      empty list nor a null under `labels`. */
  predicate EmptyLabelTrap(x: Row, y: Row, z: Row) {
    LabelTrap(x.at, y.at, z.at, Field(x.raw, LABELS), Field(y.raw, LABELS), Field(z.raw, LABELS))
  }

  predicate LabelTrap(x: int, y: int, z: int, fx: Option<Json>, fy: Option<Json>, fz: Option<Json>) {
    && LabelsOf(fx) == {} && LabelsOf(fy) == {} && LabelsOf(fz) == {}
    && (Empty(fx) || Empty(fy) || Empty(fz))
    && ((Winner(x, y, z) == 0 && !Empty(fx) && fx != Some(Null)) || (Winner(x, y, z) == 2 && !Empty(fz) && fz != Some(Null)))
  }

  function Max(x: int, y: int): int {
    if x < y then y else x
  }

  /** Joining a joined label field with a third, on either side. */
  lemma JoinLabelsAgain(won: Option<Json>, c: Option<Json>, o: Option<Json>, f: Option<Json>, last: Option<Json>)
    requires (won == c || won == o) && (last == f || last == JoinLabels(won, c, o))
    ensures var joined, all := JoinLabels(won, c, o), LabelsOf(c) + LabelsOf(o) + LabelsOf(f);
      JoinLabels(last, joined, f) == LabelResult(last, all, Empty(f))
      && JoinLabels(last, f, joined) == LabelResult(last, all, Empty(f))
  {
    var joined := JoinLabels(won, c, o);
    JoinLabelsReads(won, c, o);
    JoinLabelsCases(last, joined, f);
    JoinLabelsCases(last, f, joined);
    assert LabelsOf(joined) + LabelsOf(f) == LabelsOf(c) + LabelsOf(o) + LabelsOf(f) == LabelsOf(f) + LabelsOf(joined);
  }

  /** The label field of (x y) z. */
  lemma LabelsGroupedLeft(x: int, y: int, z: int, fx: Option<Json>, fy: Option<Json>, fz: Option<Json>)
    ensures var xy, all := JoinLabels(if x < y then fy else fx, fx, fy), LabelsOf(fx) + LabelsOf(fy) + LabelsOf(fz);
      JoinLabels(if Max(x, y) < z then fz else xy, xy, fz) ==
        if all != {} then Some(MarshalStrings(Sorted(all)))
        else if Empty(fz) || (Max(x, y) >= z && (Empty(fx) || Empty(fy))) then Some(Null)
        else if Max(x, y) < z then fz else if x < y then fy else fx
  {
    var won := if x < y then fy else fx;
    JoinLabelsCases(won, fx, fy);
    JoinLabelsAgain(won, fx, fy, fz, if Max(x, y) < z then fz else JoinLabels(won, fx, fy));
    NoLabels(LabelsOf(fx), LabelsOf(fy), LabelsOf(fz));
  }

  lemma NoLabels(a: set<string>, b: set<string>, c: set<string>)
    ensures a + b + c == {} <==> a == {} && b == {} && c == {}
    ensures a + b + c == b + c + a
  {
  }

  /** The label field of x (y z). */
  lemma LabelsGroupedRight(x: int, y: int, z: int, fx: Option<Json>, fy: Option<Json>, fz: Option<Json>)
    ensures var yz, all := JoinLabels(if y < z then fz else fy, fy, fz), LabelsOf(fx) + LabelsOf(fy) + LabelsOf(fz);
      JoinLabels(if x < Max(y, z) then yz else fx, fx, yz) ==
        if all != {} then Some(MarshalStrings(Sorted(all)))
        else if Empty(fx) || (x < Max(y, z) && (Empty(fy) || Empty(fz))) then Some(Null)
        else if x >= Max(y, z) then fx else if y < z then fz else fy
  {
    var won := if y < z then fz else fy;
    JoinLabelsCases(won, fy, fz);
    JoinLabelsAgain(won, fy, fz, fx, if x < Max(y, z) then JoinLabels(won, fy, fz) else fx);
    NoLabels(LabelsOf(fx), LabelsOf(fy), LabelsOf(fz));
    NoLabels(LabelsOf(fy), LabelsOf(fz), LabelsOf(fx));
  }

  lemma LabelFieldsAssociate(x: int, y: int, z: int, fx: Option<Json>, fy: Option<Json>, fz: Option<Json>)
    ensures var xy, yz := JoinLabels(if x < y then fy else fx, fx, fy), JoinLabels(if y < z then fz else fy, fy, fz);
      JoinLabels(if Max(x, y) < z then fz else xy, xy, fz) == JoinLabels(if x < Max(y, z) then yz else fx, fx, yz)
      <==> !LabelTrap(x, y, z, fx, fy, fz)
  {
    LabelsGroupedLeft(x, y, z, fx, fy, fz);
    LabelsGroupedRight(x, y, z, fx, fy, fz);
  }

  // ---- Dependency fields always associate ----

  lemma JoinEntriesReads(won: Option<Json>, c: Option<Json>, o: Option<Json>)
    requires won == c || won == o
    ensures EntryMap(JoinEntries(won, c, o)) == EntryMap(o) + EntryMap(c)
    ensures EntriesIn(JoinEntries(won, c, o)).None? <==> EntriesIn(c).None? && EntriesIn(o).None?
  {
    if EntriesIn(c).Some? || EntriesIn(o).Some? {
      FirstByKeyConcat(Elements(EntriesIn(c)), Elements(EntriesIn(o)));
      FirstByKeyCanonical(Elements(EntriesIn(c)) + Elements(EntriesIn(o)));
    }
  }

  /** The entry field that a map of first entries is written as. */
  function WrittenEntries(first: map<string, Json>): Option<Json> {
    Some(Array(Listed(Sorted(first.Keys), first)))
  }

  lemma EntriesGroupedLeft(x: int, y: int, z: int, fx: Option<Json>, fy: Option<Json>, fz: Option<Json>)
    ensures var xy := JoinEntries(if x < y then fy else fx, fx, fy);
      JoinEntries(if Max(x, y) < z then fz else xy, xy, fz) ==
        if EntriesIn(fx).None? && EntriesIn(fy).None? && EntriesIn(fz).None?
        then (if Max(x, y) < z then fz else if x < y then fy else fx)
        else WrittenEntries(EntryMap(fz) + (EntryMap(fy) + EntryMap(fx)))
  {
    JoinEntriesReads(if x < y then fy else fx, fx, fy);
  }

  lemma EntriesGroupedRight(x: int, y: int, z: int, fx: Option<Json>, fy: Option<Json>, fz: Option<Json>)
    ensures var yz := JoinEntries(if y < z then fz else fy, fy, fz);
      JoinEntries(if x < Max(y, z) then yz else fx, fx, yz) ==
        if EntriesIn(fx).None? && EntriesIn(fy).None? && EntriesIn(fz).None?
        then (if x >= Max(y, z) then fx else if y < z then fz else fy)
        else WrittenEntries((EntryMap(fz) + EntryMap(fy)) + EntryMap(fx))
  {
    JoinEntriesReads(if y < z then fz else fy, fy, fz);
  }

  lemma MapUnionAssociative(a: map<string, Json>, b: map<string, Json>, c: map<string, Json>)
    ensures a + (b + c) == (a + b) + c
  {
  }

  /** The entry fields of both groupings are the same. */
  ghost predicate EntriesRegroup(x: int, y: int, z: int, fx: Option<Json>, fy: Option<Json>, fz: Option<Json>) {
    var xy, yz := JoinEntries(if x < y then fy else fx, fx, fy), JoinEntries(if y < z then fz else fy, fy, fz);
    JoinEntries(if Max(x, y) < z then fz else xy, xy, fz) == JoinEntries(if x < Max(y, z) then yz else fx, fx, yz)
  }

  lemma EntryFieldsAssociate(x: int, y: int, z: int, fx: Option<Json>, fy: Option<Json>, fz: Option<Json>)
    ensures EntriesRegroup(x, y, z, fx, fy, fz)
  {
    var xy, yz := JoinEntries(if x < y then fy else fx, fx, fy), JoinEntries(if y < z then fz else fy, fy, fz);
    var l, r := JoinEntries(if Max(x, y) < z then fz else xy, xy, fz), JoinEntries(if x < Max(y, z) then yz else fx, fx, yz);
    MapUnionAssociative(EntryMap(fz), EntryMap(fy), EntryMap(fx));
    assert l == r by {
      EntriesGroupedLeft(x, y, z, fx, fy, fz);
      EntriesGroupedRight(x, y, z, fx, fy, fz);
    }
  }

  /** Three rows of one id: regrouping leaves the written row the same exactly
      outside the trap. */
  lemma JoinRowsAssociateExactly(x: Row, y: Row, z: Row)
    requires x.id == y.id == z.id
    ensures JoinRows(JoinRows(x, y), z) == JoinRows(x, JoinRows(y, z)) <==> !EmptyLabelTrap(x, y, z)
  {
    var xy, yz := JoinRows(x, y), JoinRows(y, z);
    var l, r := JoinRows(xy, z), JoinRows(x, yz);
    JoinRowsScalars(x, y);
    JoinRowsScalars(y, z);
    JoinRowsScalars(xy, z);
    JoinRowsScalars(x, yz);
    assert l.id == r.id && l.at == r.at && Scalars(l.raw) == Scalars(r.raw);
    FieldsDetermine(l.raw, r.raw);
    RegroupedLabels(x, y, z);
    RegroupedEntries(x, y, z);
  }

  lemma RegroupedLabels(x: Row, y: Row, z: Row)
    ensures Field(JoinRows(JoinRows(x, y), z).raw, LABELS) == Field(JoinRows(x, JoinRows(y, z)).raw, LABELS)
      <==> !EmptyLabelTrap(x, y, z)
  {
    JoinRowsScalars(x, y);
    JoinRowsScalars(y, z);
    JoinRowsLabels(x, y);
    JoinRowsLabels(y, z);
    JoinRowsLabels(JoinRows(x, y), z);
    JoinRowsLabels(x, JoinRows(y, z));
    LabelFieldsAssociate(x.at, y.at, z.at, Field(x.raw, LABELS), Field(y.raw, LABELS), Field(z.raw, LABELS));
  }

  lemma RegroupedEntries(x: Row, y: Row, z: Row)
    ensures Field(JoinRows(JoinRows(x, y), z).raw, DEPENDENCIES) == Field(JoinRows(x, JoinRows(y, z)).raw, DEPENDENCIES)
  {
    JoinRowsScalars(x, y);
    JoinRowsScalars(y, z);
    JoinRowsEntries(x, y);
    JoinRowsEntries(y, z);
    JoinRowsEntries(JoinRows(x, y), z);
    JoinRowsEntries(x, JoinRows(y, z));
    EntryFieldsAssociate(x.at, y.at, z.at, Field(x.raw, DEPENDENCIES), Field(y.raw, DEPENDENCIES), Field(z.raw, DEPENDENCIES));
  }

  // ---- Whole files ----

  function IdList(rows: seq<Row>): seq<string> {
    seq(|rows|, i requires 0 <= i < |rows| => rows[i].id)
  }

  lemma AscendingRowIsLatest(rows: seq<Row>, i: nat)
    requires IdsAscend(rows) && i < |rows|
    ensures rows[i].id in Latest(rows) && Latest(rows)[rows[i].id] == rows[i]
  {
    forall j | 0 <= j < |rows| && rows[j].id == rows[i].id ensures j == i {
      LessIrreflexive(rows[i].id);
    }
    assert EarliestNewest(rows, i);
    LatestIsEarliestNewest(rows, i);
  }

  /** A file in strictly ascending id order is determined by its rows by id. */
  lemma AscendingFilesEqual(f: seq<Row>, g: seq<Row>)
    requires IdsAscend(f) && IdsAscend(g)
    ensures f == g <==> Latest(f) == Latest(g)
  {
    if Latest(f) == Latest(g) {
      LatestKeys(f);
      LatestKeys(g);
      forall id ensures id in IdList(f) <==> id in IdList(g) {
        IdListHolds(f, id);
        IdListHolds(g, id);
      }
      AscendingUnique(IdList(f), IdList(g));
      forall i | 0 <= i < |f| ensures i < |g| && f[i] == g[i] {
        assert |IdList(f)| == |IdList(g)| && IdList(f)[i] == IdList(g)[i];
        AscendingRowIsLatest(f, i);
        AscendingRowIsLatest(g, i);
      }
      assert |f| == |IdList(f)| == |IdList(g)| == |g|;
    }
  }

  lemma IdListHolds(f: seq<Row>, id: string)
    ensures id in IdList(f) <==> id in Ids(f)
  {
    if id in IdList(f) {
      var i :| 0 <= i < |IdList(f)| && IdList(f)[i] == id;
      assert f[i] in f;
    }
    if id in Ids(f) {
      var i :| 0 <= i < |f| && f[i].id == id;
      assert IdList(f)[i] == id;
    }
  }

  ghost predicate Trapped(x: seq<Row>, y: seq<Row>, z: seq<Row>, id: string) {
    id in Latest(x) && id in Latest(y) && id in Latest(z) && EmptyLabelTrap(Latest(x)[id], Latest(y)[id], Latest(z)[id])
  }

  lemma MergeAssociatesAt(x: seq<Row>, y: seq<Row>, z: seq<Row>, id: string)
    ensures Find(Latest(Merge2(Merge2(x, y), z)), id) == Find(Latest(Merge2(x, Merge2(y, z))), id) <==> !Trapped(x, y, z, id)
  {
    Merge2RowOf(x, y, id);
    Merge2RowOf(y, z, id);
    Merge2RowOf(Merge2(x, y), z, id);
    Merge2RowOf(x, Merge2(y, z), id);
    if id in Latest(x) && id in Latest(y) && id in Latest(z) {
      JoinRowsAssociateExactly(Latest(x)[id], Latest(y)[id], Latest(z)[id]);
    }
  }

  lemma MapsEqual(f: map<string, Row>, g: map<string, Row>)
    ensures f == g <==> forall id :: Find(f, id) == Find(g, id)
  {
    if forall id :: Find(f, id) == Find(g, id) {
      forall id ensures id in f <==> id in g {
        assert Find(f, id) == Find(g, id);
      }
      forall id | id in f ensures f[id] == g[id] {
        assert Find(f, id) == Find(g, id);
      }
    }
  }

  /** Regrouping three files leaves the written ledger as it was, row for row and
      field for field, exactly when no id held by all three falls in the trap. */
  lemma MergeAssociatesExactly(x: seq<Row>, y: seq<Row>, z: seq<Row>)
    ensures Merge2(Merge2(x, y), z) == Merge2(x, Merge2(y, z)) <==> forall id :: !Trapped(x, y, z, id)
  {
    MergedIds([], Merge2(x, y), z);
    MergedIds([], x, Merge2(y, z));
    var l, r := Merge2(Merge2(x, y), z), Merge2(x, Merge2(y, z));
    AscendingFilesEqual(l, r);
    MapsEqual(Latest(l), Latest(r));
    forall id ensures Find(Latest(l), id) == Find(Latest(r), id) <==> !Trapped(x, y, z, id) {
      MergeAssociatesAt(x, y, z, id);
    }
  }

  /** One file in the trap: the newest row has no label list, an older one an explicit
      empty list. Grouped to the left the merge writes a null, to the right nothing. */
  lemma TrappedFiles()
    ensures var x, y, z := [Row("b", 2, map[])], [Row("b", 1, map[LABELS := Array([])])], [Row("b", 1, map[])];
      && Trapped(x, y, z, "b") && Merge2(Merge2(x, y), z) != Merge2(x, Merge2(y, z))
      && Field(JoinRows(JoinRows(x[0], y[0]), z[0]).raw, LABELS) == Some(Null)
      && Field(JoinRows(x[0], JoinRows(y[0], z[0])).raw, LABELS) == None
  {
    var x, y, z := Row("b", 2, map[]), Row("b", 1, map[LABELS := Array([])]), Row("b", 1, map[]);
    OneRow(x);
    OneRow(y);
    OneRow(z);
    TrappedRows(x, y, z);
    MergeAssociatesExactly([x], [y], [z]);
    assert Trapped([x], [y], [z], "b");
  }

  lemma TrappedRows(x: Row, y: Row, z: Row)
    requires x.at > y.at >= z.at
    requires Field(x.raw, LABELS) == None && Field(y.raw, LABELS) == Some(Array([])) && Field(z.raw, LABELS) == None
    ensures EmptyLabelTrap(x, y, z)
    ensures Field(JoinRows(JoinRows(x, y), z).raw, LABELS) == Some(Null)
    ensures Field(JoinRows(x, JoinRows(y, z)).raw, LABELS) == None
  {
    NoListHasNoLabels();
    JoinRowsScalars(x, y);
    JoinRowsScalars(y, z);
    JoinRowsLabels(x, y);
    JoinRowsLabels(y, z);
    JoinRowsLabels(JoinRows(x, y), z);
    JoinRowsLabels(x, JoinRows(y, z));
    LabelsGroupedLeft(x.at, y.at, z.at, None, Some(Array([])), None);
    LabelsGroupedRight(x.at, y.at, z.at, None, Some(Array([])), None);
  }

  lemma NoListHasNoLabels()
    ensures LabelsIn(None) == None && LabelsIn(Some(Array([]))) == Some([])
    ensures LabelsOf(None) == {} && LabelsOf(Some(Array([]))) == {}
  {
    var m: Raw := map[LABELS := Array([])];
    assert StringArray(m, LABELS) == Some([]);
  }

  lemma OneRow(r: Row)
    ensures Latest([r]) == map[r.id := r]
  {
    LatestKeys([r]);
    AscendingRowIsLatest([r], 0);
  }
}
