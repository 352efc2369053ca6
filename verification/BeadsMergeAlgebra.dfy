/** The merge as an algebra: with no ancestor it is a left-biased semilattice on
    what ledgers say, for any number of files. */
module BeadsMergeAlgebra {
  import opened BeadRows
  import opened BeadsMerge
  import opened BeadsMergeOutput
  import opened Results

  /** What a row says: its timestamp, its scalar fields, its label set, and the
      entry it holds for each dependency key. */
  datatype Meaning = Meaning(at: int, scalars: Raw, labels: set<string>, deps: map<string, Json>)

  type Ledger = map<string, Meaning>

  function MeaningOf(r: Row): Meaning {
    Meaning(r.at, Scalars(r.raw), LabelSet(r.raw), DependencyMap(r.raw))
  }

  function LedgerOf(file: seq<Row>): Ledger {
    map id | id in Latest(file) :: MeaningOf(Latest(file)[id])
  }

  function Join(c: Meaning, o: Meaning): Meaning {
    var w := if c.at < o.at then o else c;
    Meaning(w.at, w.scalars, c.labels + o.labels, o.deps + c.deps)
  }

  function JoinLedgers(x: Ledger, y: Ledger): Ledger {
    map id | id in x.Keys + y.Keys ::
      if id in x && id in y then Join(x[id], y[id]) else if id in x then x[id] else y[id]
  }

  /** The file that merging two ledgers with no common ancestor writes. */
  function Merge2(x: seq<Row>, y: seq<Row>): seq<Row> {
    Merged([], x, y)
  }

  function JoinRows(c: Row, o: Row): Row {
    MergeRow(None, Some(c), Some(o)).value
  }

  function MergeAll(files: seq<seq<Row>>): seq<Row> {
    if files == [] then [] else Merge2(MergeAll(files[..|files| - 1]), files[|files| - 1])
  }

  lemma JoinMeans(c: Row, o: Row)
    ensures MeaningOf(JoinRows(c, o)) == Join(MeaningOf(c), MeaningOf(o))
  {
    var none: Raw := map[];
    var w := if c.at < o.at then o else c;
    var united := United(w.raw, c.raw, o.raw, none);
    UnitedScalars(w.raw, c.raw, o.raw, none);
    UnitedLabels(w.raw, c.raw, o.raw, none);
    UnitedDependencies(w.raw, c.raw, o.raw, none);
    assert LabelSet(none) == {} && DependencyMap(none) == map[];
    JoinParts(JoinRows(c, o), united, w, c, o);
  }

  lemma JoinParts(m: Row, united: Raw, w: Row, c: Row, o: Row)
    requires m.at == w.at && m.raw == united && w == if c.at < o.at then o else c
    requires Scalars(united) == Scalars(w.raw)
    requires LabelSet(united) == LabelSet(c.raw) + LabelSet(o.raw) + {}
    requires DependencyMap(united) == map[] + (DependencyMap(o.raw) + DependencyMap(c.raw))
    ensures MeaningOf(m) == Join(MeaningOf(c), MeaningOf(o))
  {
    assert DependencyMap(united) == DependencyMap(o.raw) + DependencyMap(c.raw);
    assert LabelSet(united) == LabelSet(c.raw) + LabelSet(o.raw);
  }

  /** The row that a merge of two files keeps for an id. */
  lemma Merge2RowOf(x: seq<Row>, y: seq<Row>, id: string)
    ensures id in Latest(Merge2(x, y)) <==> id in Latest(x) || id in Latest(y)
    ensures id in Latest(x) && id in Latest(y) ==> Latest(Merge2(x, y))[id] == JoinRows(Latest(x)[id], Latest(y)[id])
    ensures id in Latest(x) && id !in Latest(y) ==> Latest(Merge2(x, y))[id] == Latest(x)[id]
    ensures id !in Latest(x) && id in Latest(y) ==> Latest(Merge2(x, y))[id] == Latest(y)[id]
  {
    MergedIds([], x, y);
    LatestKeys(Merge2(x, y));
    LatestKeys(x);
    LatestKeys(y);
    if id in Ids(x) + Ids(y) {
      MergedRowOf([], x, y, id);
    }
  }

  /** What a merged file says depends only on what its inputs say. */
  lemma MergeMeans(x: seq<Row>, y: seq<Row>)
    ensures LedgerOf(Merge2(x, y)) == JoinLedgers(LedgerOf(x), LedgerOf(y))
  {
    var l, r := LedgerOf(Merge2(x, y)), JoinLedgers(LedgerOf(x), LedgerOf(y));
    forall id ensures (id in l <==> id in r) && (id in l ==> l[id] == r[id]) {
      MergeMeansAt(x, y, id);
    }
  }

  lemma MergeMeansAt(x: seq<Row>, y: seq<Row>, id: string)
    ensures var l, r := LedgerOf(Merge2(x, y)), JoinLedgers(LedgerOf(x), LedgerOf(y));
      (id in l <==> id in r) && (id in l ==> l[id] == r[id])
  {
    Merge2RowOf(x, y, id);
    if id in Latest(x) && id in Latest(y) {
      JoinMeans(Latest(x)[id], Latest(y)[id]);
    }
  }

  lemma JoinAssociative(x: Meaning, y: Meaning, z: Meaning)
    ensures Join(Join(x, y), z) == Join(x, Join(y, z))
  {
    assert z.deps + (y.deps + x.deps) == (z.deps + y.deps) + x.deps;
  }

  lemma JoinLedgersAssociative(x: Ledger, y: Ledger, z: Ledger)
    ensures JoinLedgers(JoinLedgers(x, y), z) == JoinLedgers(x, JoinLedgers(y, z))
  {
    var l, r := JoinLedgers(JoinLedgers(x, y), z), JoinLedgers(x, JoinLedgers(y, z));
    assert l.Keys == r.Keys;
    forall id | id in l ensures l[id] == r[id] {
      if id in x && id in y && id in z {
        JoinAssociative(x[id], y[id], z[id]);
      }
    }
  }

  /** Associative for all files, on timestamp ties too. */
  lemma MergeAssociative(x: seq<Row>, y: seq<Row>, z: seq<Row>)
    ensures LedgerOf(Merge2(Merge2(x, y), z)) == LedgerOf(Merge2(x, Merge2(y, z)))
  {
    MergeMeans(x, y);
    MergeMeans(y, z);
    MergeMeans(Merge2(x, y), z);
    MergeMeans(x, Merge2(y, z));
    JoinLedgersAssociative(LedgerOf(x), LedgerOf(y), LedgerOf(z));
  }

  lemma MergeEmpty(x: seq<Row>)
    ensures JoinLedgers(LedgerOf(x), LedgerOf([])) == LedgerOf(x)
  {
    assert LedgerOf([]) == map[];
  }

  /** Any number of files may be merged in groups: a group's merge stands for it. */
  lemma {:induction false} MergeInGroups(fs: seq<seq<Row>>, gs: seq<seq<Row>>)
    ensures LedgerOf(MergeAll(fs + gs)) == JoinLedgers(LedgerOf(MergeAll(fs)), LedgerOf(MergeAll(gs)))
    ensures LedgerOf(MergeAll(fs + gs)) == LedgerOf(Merge2(MergeAll(fs), MergeAll(gs)))
  {
    MergeMeans(MergeAll(fs), MergeAll(gs));
    if gs == [] {
      assert fs + gs == fs;
      MergeEmpty(MergeAll(fs));
    } else {
      var n := |gs| - 1;
      var init, last := gs[..n], gs[n];
      assert (fs + gs)[..|fs + gs| - 1] == fs + init;
      MergeInGroups(fs, init);
      MergeMeans(MergeAll(fs + init), last);
      MergeMeans(MergeAll(init), last);
      JoinLedgersAssociative(LedgerOf(MergeAll(fs)), LedgerOf(MergeAll(init)), LedgerOf(last));
    }
  }

  // ---- Commutativity ----

  /** Two meanings agree up to which entry stands under a dependency key. */
  predicate SameUpToEntries(x: Meaning, y: Meaning) {
    x.at == y.at && x.scalars == y.scalars && x.labels == y.labels && x.deps.Keys == y.deps.Keys
  }

  predicate TieWithOtherScalars(x: Meaning, y: Meaning) {
    x.at == y.at && x.scalars != y.scalars
  }

  /** The order of two files matters for an id exactly when both hold it at one
      timestamp with different scalar fields. */
  lemma MergeCommutesExactly(x: seq<Row>, y: seq<Row>, id: string)
    requires id in LedgerOf(Merge2(x, y))
    ensures id in LedgerOf(Merge2(y, x))
    ensures SameUpToEntries(LedgerOf(Merge2(x, y))[id], LedgerOf(Merge2(y, x))[id]) <==>
      !(id in LedgerOf(x) && id in LedgerOf(y) && TieWithOtherScalars(LedgerOf(x)[id], LedgerOf(y)[id]))
  {
    MergeMeans(x, y);
    MergeMeans(y, x);
    if id in LedgerOf(x) && id in LedgerOf(y) {
      JoinCommutes(LedgerOf(x)[id], LedgerOf(y)[id]);
    }
  }

  lemma JoinCommutes(x: Meaning, y: Meaning)
    ensures SameUpToEntries(Join(x, y), Join(y, x)) <==> !TieWithOtherScalars(x, y)
    ensures Join(x, y) == Join(y, x) <==>
      !TieWithOtherScalars(x, y) && forall k :: k in x.deps && k in y.deps ==> x.deps[k] == y.deps[k]
  {
    var xy, yx := y.deps + x.deps, x.deps + y.deps;
    if xy == yx {
      forall k | k in x.deps && k in y.deps ensures x.deps[k] == y.deps[k] {
        assert xy[k] == x.deps[k] && yx[k] == y.deps[k];
      }
    }
  }

  /** The entries themselves also agree exactly when the two files hold the same
      entry under every dependency key that the id has in both. */
  lemma MergeCommutesFully(x: seq<Row>, y: seq<Row>, id: string)
    requires id in LedgerOf(x) && id in LedgerOf(y)
    ensures id in LedgerOf(Merge2(x, y)) && id in LedgerOf(Merge2(y, x))
    ensures LedgerOf(Merge2(x, y))[id] == LedgerOf(Merge2(y, x))[id] <==>
      && !TieWithOtherScalars(LedgerOf(x)[id], LedgerOf(y)[id])
      && forall k :: k in LedgerOf(x)[id].deps && k in LedgerOf(y)[id].deps ==>
           LedgerOf(x)[id].deps[k] == LedgerOf(y)[id].deps[k]
  {
    MergeMeans(x, y);
    MergeMeans(y, x);
    JoinCommutes(LedgerOf(x)[id], LedgerOf(y)[id]);
  }

  // ---- Absorption ----

  /** x adds nothing to y. */
  predicate Below(x: Meaning, y: Meaning) {
    x.at <= y.at && x.labels <= y.labels && x.deps.Keys <= y.deps.Keys
  }

  lemma JoinBelow(x: Meaning, y: Meaning)
    ensures Below(x, y) <==> Join(y, x) == y
    ensures Below(x, Join(x, y)) && Below(y, Join(x, y))
  {
    if Join(y, x) == y {
      assert y.labels + x.labels == y.labels;
      assert (x.deps + y.deps).Keys == x.deps.Keys + y.deps.Keys;
    }
    if Below(x, y) {
      assert x.deps + y.deps == y.deps;
      assert y.labels + x.labels == y.labels;
    }
  }

  /** Every id of f is in l, which already says all that f says about it. */
  ghost predicate Absorbed(f: Ledger, l: Ledger) {
    forall id :: id in f ==> id in l && Below(f[id], l[id])
  }

  lemma AbsorbedMeansNoChange(f: Ledger, l: Ledger)
    requires Absorbed(f, l)
    ensures JoinLedgers(l, f) == l
  {
    var lf := JoinLedgers(l, f);
    assert lf.Keys == l.Keys;
    forall id | id in l ensures lf[id] == l[id] {
      if id in f {
        JoinBelow(f[id], l[id]);
      }
    }
  }

  lemma JoinKeepsAbsorbed(f: Ledger, x: Ledger, y: Ledger)
    requires Absorbed(f, x) || f == y
    ensures Absorbed(f, JoinLedgers(x, y))
  {
    var l := JoinLedgers(x, y);
    forall id | id in f ensures id in l && Below(f[id], l[id]) {
      if id in x && id in y {
        JoinBelow(x[id], y[id]);
      }
    }
  }

  lemma MergeKeepsAbsorbed(f: Ledger, x: seq<Row>, y: seq<Row>)
    requires Absorbed(f, LedgerOf(x)) || f == LedgerOf(y)
    ensures Absorbed(f, LedgerOf(Merge2(x, y)))
  {
    MergeMeans(x, y);
    JoinKeepsAbsorbed(f, LedgerOf(x), LedgerOf(y));
  }

  /** Every merged file stays absorbed, wherever it stood among the inputs. */
  lemma {:induction false} InputsAbsorbed(files: seq<seq<Row>>, i: nat, f: Ledger)
    requires i < |files| && f == LedgerOf(files[i])
    ensures Absorbed(f, LedgerOf(MergeAll(files)))
  {
    var n := |files| - 1;
    var init, last := files[..n], files[n];
    if i < n {
      InputsAbsorbed(init, i, f);
    }
    MergeKeepsAbsorbed(f, MergeAll(init), last);
    assert MergeAll(files) == Merge2(MergeAll(init), last);
  }

  /** Merging in a file that has already been merged changes no row. */
  lemma MergeAbsorbs(files: seq<seq<Row>>, i: nat)
    requires i < |files|
    ensures LedgerOf(Merge2(MergeAll(files), files[i])) == LedgerOf(MergeAll(files))
  {
    InputsAbsorbed(files, i, LedgerOf(files[i]));
    MergeMeans(MergeAll(files), files[i]);
    AbsorbedMeansNoChange(LedgerOf(files[i]), LedgerOf(MergeAll(files)));
  }
}
