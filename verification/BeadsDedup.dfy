/** `harmonik beads-dedup`, and why running it first never changes a merge. */
module BeadsDedup {
  import opened Order
  import opened BeadRows
  import opened BeadsMerge

  function ListRows(ids: seq<string>, best: map<string, Row>): (r: seq<Row>)
    requires forall id :: id in ids ==> id in best
    ensures |r| == |ids|
  {
    seq(|ids|, i requires 0 <= i < |ids| => best[ids[i]])
  }

  function Deduplicated(rows: seq<Row>): seq<Row> {
    ListRows(Sorted(Latest(rows).Keys), Latest(rows))
  }

  method DeduplicateBeadRows(rows: seq<Row>) returns (result: seq<Row>)
    ensures result == Deduplicated(rows)
  {
    var best: map<string, Row> := map[];
    for i := 0 to |rows|
      invariant best == Latest(rows[..i])
    {
      assert rows[..i + 1][..i] == rows[..i];
      var seen := rows[i].id in best;
      if !seen || best[rows[i].id].at < rows[i].at {
        best := best[rows[i].id := rows[i]];
      }
    }
    assert rows[..|rows|] == rows;
    var ids := Sorted(best.Keys);
    result := [];
    for i := 0 to |ids|
      invariant |result| == i
      invariant forall j :: 0 <= j < i ==> result[j] == best[ids[j]]
    {
      result := result + [best[ids[i]]];
    }
  }

  lemma {:induction false} LatestListed(ids: seq<string>, best: map<string, Row>)
    requires Ascending(ids)
    requires forall id :: id in ids ==> id in best && best[id].id == id
    ensures Latest(ListRows(ids, best)) == map id | id in SetOf(ids) :: best[id]
  {
    if ids != [] {
      var n := |ids| - 1;
      LatestListed(ids[..n], best);
      assert ListRows(ids, best)[..n] == ListRows(ids[..n], best);
      assert ids == ids[..n] + [ids[n]];
      forall i | 0 <= i < n ensures ids[i] != ids[n] {
        LessAsymmetric(ids[i], ids[n]);
      }
      KeepListed(ids[..n], ids[n], best);
    }
  }

  lemma KeepListed(ids: seq<string>, last: string, best: map<string, Row>)
    requires (forall id :: id in ids ==> id in best) && last in best && best[last].id == last && last !in ids
    ensures Keep(map id | id in SetOf(ids) :: best[id], best[last]) == map id | id in SetOf(ids + [last]) :: best[id]
  {
    assert SetOf(ids + [last]) == SetOf(ids) + {last};
  }

  /** De-duplication keeps, for every id, the record the merge would pick. */
  lemma LatestDeduplicated(rows: seq<Row>)
    ensures Latest(Deduplicated(rows)) == Latest(rows)
  {
    LatestListed(Sorted(Latest(rows).Keys), Latest(rows));
    assert SetOf(Sorted(Latest(rows).Keys)) == Latest(rows).Keys;
  }

  /** The output is strictly ascending by id over exactly the ids of the input,
      one record each, and de-duplicating it again changes nothing. */
  lemma DedupSortedKeepsIds(rows: seq<Row>)
    ensures Ids(Deduplicated(rows)) == Ids(rows)
    ensures forall i, j :: 0 <= i < j < |Deduplicated(rows)| ==> Less(Deduplicated(rows)[i].id, Deduplicated(rows)[j].id)
    ensures Deduplicated(Deduplicated(rows)) == Deduplicated(rows)
  {
    LatestDeduplicated(rows);
    LatestKeys(rows);
    LatestKeys(Deduplicated(rows));
    var ids := Sorted(Latest(rows).Keys);
    forall i | 0 <= i < |ids| ensures Deduplicated(rows)[i].id == ids[i] {
      assert ids[i] in ids;
    }
  }

  /** Of two records with one id and one timestamp the earlier in the file is
      kept, and the later one only by being strictly newer. */
  lemma DedupTie(first: Row, second: Row)
    requires first.id == second.id
    ensures Deduplicated([first, second]) == [second] <==> first == second || first.at < second.at
    ensures first.at >= second.at ==> Deduplicated([first, second]) == [first]
  {
    var rows := [first, second];
    assert rows[..1] == [first] && [first][..0] == [];
    assert Latest([first]) == map[first.id := first];
    assert Latest(rows) == Keep(map[first.id := first], second);
    assert Latest(rows).Keys == {first.id};
    SortedSingleton(first.id);
    assert Deduplicated(rows) == [Latest(rows)[first.id]];
  }

  lemma SortedSingleton(id: string)
    ensures Sorted({id}) == [id]
  {
    assert {id} - {Least({id})} == {};
  }

  /** De-duplicating any of the three inputs first leaves the merged ledger and
      the logged conflicts as they were. */
  lemma DedupFirstIsHarmless(ancestor: seq<Row>, current: seq<Row>, other: seq<Row>)
    ensures Merged(Deduplicated(ancestor), Deduplicated(current), Deduplicated(other)) == Merged(ancestor, current, other)
    ensures Conflicts(Deduplicated(ancestor), Deduplicated(current), Deduplicated(other)) == Conflicts(ancestor, current, other)
  {
    LatestDeduplicated(ancestor);
    LatestDeduplicated(current);
    LatestDeduplicated(other);
    DedupSortedKeepsIds(ancestor);
    DedupSortedKeepsIds(current);
    DedupSortedKeepsIds(other);
  }
}
