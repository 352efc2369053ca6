/** The resume ledger of the pilot loader: rows printed by append_map_row, read back
    by read_map through Python's csv.reader with its default dialect, which follows
    section 2 of RFC 4180 and tolerates what that section leaves open. */
module Ledger {
  import opened Results

  datatype Row = Row(mnem: string, id: string, title: string)

  // ---- The printer ----

  function DoubleQuotes(s: string): string {
    if s == "" then "" else (if s[0] == '"' then "\"\"" else [s[0]]) + DoubleQuotes(s[1..])
  }

  /** Only a comma or a quote makes the title be quoted. */
  predicate Quoted(title: string) {
    ',' in title || '"' in title
  }

  function PrintTitle(title: string): string {
    if Quoted(title) then "\"" + DoubleQuotes(title) + "\"" else title
  }

  function PrintRow(row: Row): string {
    row.mnem + "," + row.id + "," + PrintTitle(row.title) + "\n"
  }

  method AppendMapRow(file: string, row: Row) returns (file': string)
    ensures file' == file + PrintRow(row)
  {
    var t := DoubleQuotes(row.title);
    QuotedDoubled(row.title);
    if ',' in t || '"' in t {
      t := "\"" + t + "\"";
    } else {
      UnquotedDoubled(row.title);
    }
    file' := file + (row.mnem + "," + row.id + "," + t + "\n");
  }

  /** The code tests the title after doubling its quotes. */
  lemma {:induction false} QuotedDoubled(title: string)
    ensures Quoted(DoubleQuotes(title)) <==> Quoted(title)
    decreases |title|
  {
    if title != "" {
      QuotedDoubled(title[1..]);
      var head := if title[0] == '"' then "\"\"" else [title[0]];
      var tail := DoubleQuotes(title[1..]);
      assert title == [title[0]] + title[1..];
      assert forall c :: c in head + tail <==> c in head || c in tail;
    }
  }

  lemma {:induction false} UnquotedDoubled(title: string)
    requires !Quoted(title)
    ensures DoubleQuotes(title) == title
  {
    if title != "" {
      UnquotedDoubled(title[1..]);
      assert title == [title[0]] + title[1..];
    }
  }

  const HEADER := "mnemonic,assigned_id,title\n"
  const HEADER_KEY := "mnemonic"

  function PrintRows(rows: seq<Row>): string {
    if rows == [] then "" else PrintRow(rows[0]) + PrintRows(rows[1..])
  }

  // ---- The reader ----

  datatype Mode = StartRecord | StartField | InField | InQuoted | QuoteInQuoted

  /** Text mode turns every kind of line break into one of these. */
  predicate IsBreak(c: char) {
    c == '\n' || c == '\r'
  }

  /** The records of a text, given the fields of the current record so far. */
  function Records(s: string, mode: Mode, field: string, row: seq<string>, rows: seq<seq<string>>): seq<seq<string>>
    decreases |s|
  {
    if s == "" then (if mode.StartRecord? then rows else rows + [row + [field]])
    else
      var c, rest := s[0], s[1..];
      match mode
      case StartRecord =>
        if IsBreak(c) then Records(rest, StartRecord, "", [], rows + [[]])
        else if c == '"' then Records(rest, InQuoted, "", [], rows)
        else if c == ',' then Records(rest, StartField, "", [""], rows)
        else Records(rest, InField, [c], [], rows)
      case StartField =>
        if IsBreak(c) then Records(rest, StartRecord, "", [], rows + [row + [""]])
        else if c == '"' then Records(rest, InQuoted, "", row, rows)
        else if c == ',' then Records(rest, StartField, "", row + [""], rows)
        else Records(rest, InField, [c], row, rows)
      case InField =>
        if IsBreak(c) then Records(rest, StartRecord, "", [], rows + [row + [field]])
        else if c == ',' then Records(rest, StartField, "", row + [field], rows)
        else Records(rest, InField, field + [c], row, rows)
      case InQuoted =>
        if c == '"' then Records(rest, QuoteInQuoted, field, row, rows)
        else Records(rest, InQuoted, field + [c], row, rows)
      case QuoteInQuoted =>
        if c == '"' then Records(rest, InQuoted, field + ['"'], row, rows)
        else if IsBreak(c) then Records(rest, StartRecord, "", [], rows + [row + [field]])
        else if c == ',' then Records(rest, StartField, "", row + [field], rows)
        else Records(rest, InField, field + [c], row, rows)
  }

  function CsvRows(s: string): seq<seq<string>> {
    Records(s, StartRecord, "", [], [])
  }

  predicate Skipped(record: seq<string>) {
    record == [] || record[0] == HEADER_KEY
  }

  /** The map of a list of records; a record of one field has no id to read. */
  function MapOf(records: seq<seq<string>>): Result<map<string, string>> {
    if records == [] then Ok(map[])
    else
      var before, last := MapOf(records[..|records| - 1]), records[|records| - 1];
      if before.Err? || Skipped(last) then before
      else if |last| == 1 then Err("list index out of range")
      else Ok(before.value[last[0] := last[1]])
  }

  method ReadMap(file: Option<string>) returns (m: Result<map<string, string>>)
    ensures m == if file.None? then Ok(map[]) else MapOf(CsvRows(file.value))
  {
    if file.None? {
      return Ok(map[]);
    }
    var records := CsvRows(file.value);
    var entries: map<string, string> := map[];
    for i := 0 to |records|
      invariant MapOf(records[..i]) == Ok(entries)
    {
      assert records[..i + 1][..i] == records[..i];
      var row := records[i];
      if |row| == 0 || row[0] == HEADER_KEY {
        continue;
      }
      if |row| == 1 {
        ErrStays(records, i + 1);
        return Err("list index out of range");
      }
      entries := entries[row[0] := row[1]];
    }
    assert records[..|records|] == records;
    m := Ok(entries);
  }

  lemma {:induction false} ErrStays(records: seq<seq<string>>, i: nat)
    requires i <= |records| && MapOf(records[..i]).Err?
    ensures MapOf(records) == Err("list index out of range")
    decreases |records|
  {
    ErrIs(records[..i]);
    if i == |records| {
      assert records[..i] == records;
    } else {
      assert records[..|records| - 1][..i] == records[..i];
      ErrStays(records[..|records| - 1], i);
    }
  }

  lemma {:induction false} ErrIs(records: seq<seq<string>>)
    ensures MapOf(records).Err? ==> MapOf(records) == Err("list index out of range")
  {
    if records != [] {
      ErrIs(records[..|records| - 1]);
    }
  }

  // ---- Reading a printed row ----

  /** A text with no comma, no quote and no line break. */
  predicate Plain(s: string) {
    forall i :: 0 <= i < |s| ==> s[i] != ',' && s[i] != '"' && !IsBreak(s[i])
  }

  /** Mnemonics and ids as the loader has them. */
  predicate Keyed(row: Row) {
    Plain(row.mnem) && Plain(row.id) && row.mnem != HEADER_KEY
  }

  /** The lines of a text that starts in the middle of one. */
  function Lines(start: string, s: string): (r: seq<string>)
    ensures |r| > 0
    decreases |s|
  {
    if s == "" then [start]
    else if IsBreak(s[0]) then [start] + Lines("", s[1..])
    else Lines(start + [s[0]], s[1..])
  }

  /** The record of a line without commas and quotes. */
  function LineRecord(line: string): seq<string> {
    if line == "" then [] else [line]
  }

  function LineRecords(lines: seq<string>): (r: seq<seq<string>>)
    ensures |r| == |lines|
  {
    if lines == [] then [] else [LineRecord(lines[0])] + LineRecords(lines[1..])
  }

  /** What the reader makes of one printed row. */
  function RowRecords(row: Row): seq<seq<string>> {
    if Quoted(row.title) then [[row.mnem, row.id, row.title]]
    else
      var lines := Lines("", row.title);
      [[row.mnem, row.id, lines[0]]] + LineRecords(lines[1..])
  }

  lemma {:induction false} ReadPlain(s: string, rest: string, field: string, row: seq<string>, rows: seq<seq<string>>)
    requires Plain(s)
    ensures Records(s + rest, InField, field, row, rows) == Records(rest, InField, field + s, row, rows)
    decreases |s|
  {
    if s == "" {
      assert s + rest == rest && field + s == field;
    } else {
      assert (s + rest)[1..] == s[1..] + rest;
      ReadPlain(s[1..], rest, field + [s[0]], row, rows);
      assert field + [s[0]] + s[1..] == field + s;
    }
  }

  /** A plain field up to its comma, from the start of a record or of a field. */
  lemma ReadField(s: string, rest: string, row: seq<string>, rows: seq<seq<string>>)
    requires Plain(s)
    ensures Records(s + "," + rest, StartField, "", row, rows) == Records(rest, StartField, "", row + [s], rows)
    ensures row == [] ==> Records(s + "," + rest, StartRecord, "", row, rows) == Records(rest, StartField, "", [s], rows)
  {
    var text := s + "," + rest;
    if s == "" {
      assert text[1..] == rest;
    } else {
      assert text[1..] == s[1..] + ("," + rest);
      ReadPlain(s[1..], "," + rest, [s[0]], row, rows);
      assert [s[0]] + s[1..] == s;
      assert ("," + rest)[1..] == rest;
      assert row == [] ==> row + [s] == [s];
    }
  }

  lemma Regroup<T>(a: seq<T>, b: T, c: seq<T>)
    ensures a + [b] + c == a + ([b] + c)
  {
  }

  /** Inside quotes: a character, a doubled quote, and the quote that ends the record. */
  lemma QuotedChar(c: char, rest: string, field: string, row: seq<string>, rows: seq<seq<string>>)
    requires c != '"'
    ensures Records([c] + rest, InQuoted, field, row, rows) == Records(rest, InQuoted, field + [c], row, rows)
  {
    assert ([c] + rest)[1..] == rest;
  }

  lemma QuotedQuote(rest: string, field: string, row: seq<string>, rows: seq<seq<string>>)
    ensures Records("\"\"" + rest, InQuoted, field, row, rows) == Records(rest, InQuoted, field + ['"'], row, rows)
  {
    assert ("\"\"" + rest)[1..] == "\"" + rest && ("\"" + rest)[1..] == rest;
  }

  lemma QuotedEnd(rest: string, field: string, row: seq<string>, rows: seq<seq<string>>)
    ensures Records("\"\n" + rest, InQuoted, field, row, rows) == Records(rest, StartRecord, "", [], rows + [row + [field]])
  {
    assert ("\"\n" + rest)[1..] == "\n" + rest && ("\n" + rest)[1..] == rest;
  }

  lemma {:induction false} ReadDoubled(s: string, rest: string, field: string, row: seq<string>, rows: seq<seq<string>>)
    ensures Records(DoubleQuotes(s) + "\"\n" + rest, InQuoted, field, row, rows)
      == Records(rest, StartRecord, "", [], rows + [row + [field + s]])
    decreases |s|
  {
    if s == "" {
      QuotedEnd(rest, field, row, rows);
      assert DoubleQuotes(s) + "\"\n" + rest == "\"\n" + rest;
      assert field + s == field;
    } else {
      var more := DoubleQuotes(s[1..]) + "\"\n" + rest;
      ReadDoubled(s[1..], rest, field + [s[0]], row, rows);
      assert field + [s[0]] + s[1..] == field + s;
      if s[0] == '"' {
        QuotedQuote(more, field, row, rows);
        assert DoubleQuotes(s) + "\"\n" + rest == "\"\"" + more;
      } else {
        QuotedChar(s[0], more, field, row, rows);
        assert DoubleQuotes(s) + "\"\n" + rest == [s[0]] + more;
      }
    }
  }

  predicate Unquotable(s: string) {
    forall i :: 0 <= i < |s| ==> s[i] != ',' && s[i] != '"'
  }

  /** Lines of an unquoted title: the first ends the row, each other is a record. */
  lemma {:induction false} ReadLines(s: string, rest: string, field: string, row: seq<string>, rows: seq<seq<string>>)
    requires Unquotable(s)
    ensures Records(s + "\n" + rest, InField, field, row, rows)
      == Records(rest, StartRecord, "", [], rows + [row + [Lines(field, s)[0]]] + LineRecords(Lines(field, s)[1..]))
    ensures field == "" && row == [] ==>
      Records(s + "\n" + rest, StartRecord, "", [], rows) == Records(rest, StartRecord, "", [], rows + LineRecords(Lines("", s)))
    decreases |s|
  {
    var text := s + "\n" + rest;
    if s == "" {
      assert text[1..] == rest;
      assert Lines(field, s)[1..] == [];
      assert LineRecords([""]) == [[]] by { assert [""][1..] == []; }
      assert rows + [row + [field]] + [] == rows + [row + [field]];
    } else {
      var tail := s[1..];
      assert text[1..] == tail + "\n" + rest;
      if IsBreak(s[0]) {
        ReadLines(tail, rest, "", [], rows + [row + [field]]);
        assert Lines(field, s)[1..] == Lines("", tail);
        ReadLines(tail, rest, "", [], rows + [[]]);
        assert rows + [[]] + LineRecords(Lines("", tail)) == rows + ([[]] + LineRecords(Lines("", tail)));
        assert Lines("", s)[1..] == Lines("", tail);
      } else {
        ReadLines(tail, rest, field + [s[0]], row, rows);
        if field == "" && row == [] {
          assert "" + [s[0]] == [s[0]];
          NonEmptyLine([s[0]], tail);
          var lines := Lines([s[0]], tail);
          assert [] + [lines[0]] == LineRecord(lines[0]);
          Regroup(rows, LineRecord(lines[0]), LineRecords(lines[1..]));
        }
      }
    }
  }

  lemma {:induction false} NonEmptyLine(start: string, s: string)
    requires start != ""
    ensures Lines(start, s)[0] != ""
    decreases |s|
  {
    if s != "" && !IsBreak(s[0]) {
      NonEmptyLine(start + [s[0]], s[1..]);
    }
  }

  lemma ReadTitle(title: string, rest: string, row: seq<string>, rows: seq<seq<string>>)
    ensures Records(PrintTitle(title) + "\n" + rest, StartField, "", row, rows) ==
      Records(rest, StartRecord, "", [],
        if Quoted(title) then rows + [row + [title]]
        else rows + [row + [Lines("", title)[0]]] + LineRecords(Lines("", title)[1..]))
  {
    var text := PrintTitle(title) + "\n" + rest;
    if Quoted(title) {
      assert text[1..] == DoubleQuotes(title) + "\"\n" + rest;
      ReadDoubled(title, rest, "", row, rows);
      assert "" + title == title;
    } else {
      assert Unquotable(title);
      ReadLines(title, rest, "", row, rows);
      if title != "" {
        assert text[1..] == title[1..] + "\n" + rest;
        assert Records(text, StartField, "", row, rows) == Records(text, InField, "", row, rows) by {
          assert "" + [title[0]] == [title[0]];
        }
      }
    }
  }

  lemma ReadRow(row: Row, rest: string, rows: seq<seq<string>>)
    requires Plain(row.mnem) && Plain(row.id)
    ensures Records(PrintRow(row) + rest, StartRecord, "", [], rows) == Records(rest, StartRecord, "", [], rows + RowRecords(row))
  {
    var third := PrintTitle(row.title) + "\n" + rest;
    var second := row.id + "," + third;
    assert PrintRow(row) + rest == row.mnem + "," + second;
    ReadField(row.mnem, second, [], rows);
    ReadField(row.id, third, [row.mnem], rows);
    ReadTitle(row.title, rest, [row.mnem, row.id], rows);
    assert [row.mnem] + [row.id] == [row.mnem, row.id];
    if !Quoted(row.title) {
      var lines := Lines("", row.title);
      assert [row.mnem, row.id] + [lines[0]] == [row.mnem, row.id, lines[0]];
      Regroup(rows, [row.mnem, row.id, lines[0]], LineRecords(lines[1..]));
    } else {
      assert [row.mnem, row.id] + [row.title] == [row.mnem, row.id, row.title];
    }
  }

  function AllRecords(rows: seq<Row>): seq<seq<string>> {
    if rows == [] then [] else RowRecords(rows[0]) + AllRecords(rows[1..])
  }

  lemma Associate<T>(a: seq<T>, b: seq<T>, c: seq<T>)
    ensures a + b + c == a + (b + c)
  {
  }

  lemma {:induction false} ReadRows(rows: seq<Row>, records: seq<seq<string>>)
    requires forall row :: row in rows ==> Plain(row.mnem) && Plain(row.id)
    ensures Records(PrintRows(rows), StartRecord, "", [], records) == records + AllRecords(rows)
    decreases |rows|
  {
    if rows == [] {
      assert records + [] == records;
    } else {
      var row, rest := rows[0], rows[1..];
      assert row in rows;
      ReadRow(row, PrintRows(rest), records);
      ReadRows(rest, records + RowRecords(row));
      Associate(records, RowRecords(row), AllRecords(rest));
    }
  }

  // ---- The round trip ----

  /** The map that a list of ledger rows stands for: a later row wins. */
  function LedgerMap(rows: seq<Row>): map<string, string> {
    if rows == [] then map[]
    else LedgerMap(rows[..|rows| - 1])[rows[|rows| - 1].mnem := rows[|rows| - 1].id]
  }

  predicate Passed(line: string) {
    line in {"", HEADER_KEY}
  }

  /** A title that does no harm: it is quoted, or its further lines are all blank or
      look like the header. */
  predicate Harmless(title: string) {
    Quoted(title) || forall k :: 0 <= k < |Lines("", title)[1..]| ==> Passed(Lines("", title)[1..][k])
  }

  lemma {:induction false} MapOfConcat(a: seq<seq<string>>, b: seq<seq<string>>)
    requires MapOf(a).Ok?
    requires forall record :: record in b ==> Skipped(record)
    ensures MapOf(a + b) == MapOf(a)
    decreases |b|
  {
    if b == [] {
      assert a + b == a;
    } else {
      var n := |b| - 1;
      assert (a + b)[..|a + b| - 1] == a + b[..n];
      assert b[n] in b;
      MapOfConcat(a, b[..n]);
    }
  }

  lemma {:induction false} LineRecordsAt(lines: seq<string>, k: nat)
    requires k < |lines|
    ensures LineRecords(lines)[k] == LineRecord(lines[k])
  {
    if k > 0 {
      LineRecordsAt(lines[1..], k - 1);
    }
  }

  /** Reading one more row. */
  lemma MapOfRow(before: seq<seq<string>>, row: Row)
    requires Keyed(row) && MapOf(before).Ok?
    ensures MapOf(before + RowRecords(row)) ==
      if Harmless(row.title) then Ok(MapOf(before).value[row.mnem := row.id]) else Err("list index out of range")
  {
    var records := RowRecords(row);
    var one, more := before + [records[0]], records[1..];
    assert one[..|one| - 1] == before;
    assert MapOf(one) == Ok(MapOf(before).value[row.mnem := row.id]);
    Regroup(before, records[0], more);
    assert records == [records[0]] + more;
    if Quoted(row.title) {
      assert one + more == one;
    } else {
      MoreLines(one, Lines("", row.title)[1..]);
    }
  }

  lemma MoreLines(one: seq<seq<string>>, lines: seq<string>)
    requires MapOf(one).Ok?
    ensures MapOf(one + LineRecords(lines)) ==
      if forall k :: 0 <= k < |lines| ==> Passed(lines[k]) then MapOf(one) else Err("list index out of range")
  {
    var more := LineRecords(lines);
    if forall k :: 0 <= k < |lines| ==> Passed(lines[k]) {
      forall k | 0 <= k < |more| ensures Skipped(more[k]) {
        LineRecordsAt(lines, k);
        assert Passed(lines[k]);
      }
      MapOfConcat(one, more);
    } else {
      var k :| 0 <= k < |lines| && !Passed(lines[k]);
      LineRecordsAt(lines, k);
      OneField(one, more, k);
    }
  }

  lemma OneField(one: seq<seq<string>>, more: seq<seq<string>>, k: nat)
    requires k < |more| && |more[k]| == 1 && !Skipped(more[k])
    ensures MapOf(one + more) == Err("list index out of range")
  {
    var upTo := one + more[..k + 1];
    assert upTo[..|upTo| - 1] == one + more[..k] && upTo[|upTo| - 1] == more[k];
    assert (one + more)[..|upTo|] == upTo;
    if MapOf(one + more[..k]).Err? {
      assert (one + more)[..|one| + k] == one + more[..k];
      ErrStays(one + more, |one| + k);
    } else {
      ErrStays(one + more, |upTo|);
    }
  }

  lemma {:induction false} MapOfRows(before: seq<seq<string>>, rows: seq<Row>)
    requires MapOf(before).Ok? && forall row :: row in rows ==> Keyed(row)
    ensures MapOf(before + AllRecords(rows)) ==
      if AllHarmless(rows) then Ok(Updated(MapOf(before).value, rows)) else Err("list index out of range")
    decreases |rows|
  {
    if rows == [] {
      assert before + [] == before;
    } else {
      var row, rest := rows[0], rows[1..];
      assert row in rows && forall r :: r in rest ==> r in rows;
      MapOfRow(before, row);
      HarmlessSplits(rows);
      MapOfNext(before, row, rest);
      assert [row] + rest == rows;
      if Harmless(row.title) {
        MapOfRows(before + RowRecords(row), rest);
      }
    }
  }

  lemma MapOfNext(before: seq<seq<string>>, row: Row, rest: seq<Row>)
    ensures before + AllRecords([row] + rest) == before + RowRecords(row) + AllRecords(rest)
    ensures MapOf(before + RowRecords(row)).Err? ==> MapOf(before + AllRecords([row] + rest)) == Err("list index out of range")
  {
    var next := before + RowRecords(row);
    assert ([row] + rest)[1..] == rest;
    assert before + AllRecords([row] + rest) == next + AllRecords(rest);
    if MapOf(next).Err? {
      assert (next + AllRecords(rest))[..|next|] == next;
      ErrStays(next + AllRecords(rest), |next|);
    }
  }

  ghost predicate AllHarmless(rows: seq<Row>) {
    forall row :: row in rows ==> Harmless(row.title)
  }

  lemma HarmlessSplits(rows: seq<Row>)
    requires rows != []
    ensures AllHarmless(rows) <==> Harmless(rows[0].title) && AllHarmless(rows[1..])
  {
    assert forall r :: r in rows <==> r == rows[0] || r in rows[1..];
  }

  function Updated(m: map<string, string>, rows: seq<Row>): map<string, string>
    decreases |rows|
  {
    if rows == [] then m else Updated(m[rows[0].mnem := rows[0].id], rows[1..])
  }

  lemma {:induction false} UpdatedSnoc(m: map<string, string>, rows: seq<Row>, last: Row)
    ensures Updated(m, rows + [last]) == Updated(m, rows)[last.mnem := last.id]
    decreases |rows|
  {
    if rows == [] {
      assert rows + [last] == [last];
      assert [last][1..] == [];
    } else {
      assert (rows + [last])[1..] == rows[1..] + [last];
      UpdatedSnoc(m[rows[0].mnem := rows[0].id], rows[1..], last);
    }
  }

  lemma {:induction false} UpdatedIsLedgerMap(rows: seq<Row>)
    ensures Updated(map[], rows) == LedgerMap(rows)
  {
    if rows != [] {
      var n := |rows| - 1;
      UpdatedIsLedgerMap(rows[..n]);
      UpdatedSnoc(map[], rows[..n], rows[n]);
      assert rows == rows[..n] + [rows[n]];
    }
  }

  /** A ledger file: header, then the rows. */
  function File(rows: seq<Row>): string {
    HEADER + PrintRows(rows)
  }

  const HEADER_ROW := Row(HEADER_KEY, "assigned_id", "title")

  lemma HeaderPrinted()
    ensures HEADER == PrintRow(HEADER_ROW) && Plain(HEADER_ROW.mnem) && Plain(HEADER_ROW.id)
  {
    assert PrintTitle("title") == "title";
    assert "mnemonic" + "," + "assigned_id" + "," + "title" + "\n" == HEADER;
  }

  /** A line that starts with the header key is passed over. */
  lemma HeaderSkipped(header: Row)
    requires header.mnem == HEADER_KEY && forall i :: 0 <= i < |header.title| ==> !IsBreak(header.title[i])
    ensures MapOf(RowRecords(header)) == Ok(map[])
  {
    OneLine("", header.title);
    var records := RowRecords(header);
    assert |records| == 1 && records[0][0] == HEADER_KEY;
    assert records[..0] == [];
  }

  lemma ReadBackAfter(header: Row, rows: seq<Row>)
    requires Plain(header.mnem) && Plain(header.id) && MapOf(RowRecords(header)) == Ok(map[])
    requires forall row :: row in rows ==> Keyed(row)
    ensures MapOf(CsvRows(PrintRow(header) + PrintRows(rows))) ==
      if AllHarmless(rows) then Ok(LedgerMap(rows)) else Err("list index out of range")
  {
    ReadRow(header, PrintRows(rows), []);
    assert [] + RowRecords(header) == RowRecords(header);
    ReadRows(rows, RowRecords(header));
    MapOfRows(RowRecords(header), rows);
    UpdatedIsLedgerMap(rows);
  }

  /** Reading a ledger back, for every sequence of rows: it gives the map that was
      written if and only if every title is harmless, and fails otherwise. Titles
      with any commas and quotes and without line breaks are harmless. */
  lemma ReadBackExactly(rows: seq<Row>)
    requires forall row :: row in rows ==> Keyed(row)
    ensures MapOf(CsvRows(File(rows))) ==
      if AllHarmless(rows) then Ok(LedgerMap(rows)) else Err("list index out of range")
  {
    HeaderPrinted();
    HeaderSkipped(HEADER_ROW);
    ReadBackAfter(HEADER_ROW, rows);
  }

  lemma {:induction false} OneLine(start: string, title: string)
    requires forall i :: 0 <= i < |title| ==> !IsBreak(title[i])
    ensures |Lines(start, title)| == 1
    decreases |title|
  {
    if title != "" {
      OneLine(start + [title[0]], title[1..]);
    }
  }

  lemma UnbrokenIsHarmless(title: string)
    requires forall i :: 0 <= i < |title| ==> !IsBreak(title[i])
    ensures Harmless(title)
  {
    OneLine("", title);
  }

  /** A title that does harm: its second line is a record of one field. */
  lemma BrokenTitleFails()
    ensures MapOf(CsvRows(File([Row("m", "i", "a\nb")]))) == Err("list index out of range")
  {
    var title := "a\nb";
    var rest := title[1..];
    assert rest[0] == '\n' && rest[1..] == ['b'] && ['b'][1..] == "";
    assert "" + ['a'] == "a" && "" + ['b'] == "b";
    assert Lines("", ['b']) == ["b"];
    assert Lines("a", rest) == ["a"] + Lines("", rest[1..]);
    assert Lines("", title) == ["a", "b"];
    assert Lines("", title)[1..][0] == "b" && !Passed("b");
    var rows := [Row("m", "i", title)];
    assert rows[0] in rows && !Harmless(rows[0].title);
    ReadBackExactly(rows);
  }
}
