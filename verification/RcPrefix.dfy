/** `harmonik migrate-rc-prefix`: setting daemon.remote_control_prefix in the text of
    a config file, by lines. */
module RcPrefix {
  import opened Results
  import opened Texts

  const FIELD := "remote_control_prefix:"

  /** White space of the pattern's `\s`, other than the line break. A match that
      starts on blank lines above the field keeps them, so that by lines the pattern
      is: white space, then the field name, then anything. */
  predicate Indenting(c: char) {
    c in "\t\U{C}\r "
  }

  function Indent(line: string): (n: nat)
    ensures n <= |line|
    ensures forall i :: 0 <= i < n ==> Indenting(line[i])
    ensures n < |line| ==> !Indenting(line[n])
  {
    if line != "" && Indenting(line[0]) then 1 + Indent(line[1..]) else 0
  }

  predicate IsField(line: string) {
    FIELD <= line[Indent(line)..]
  }

  function NewLine(indent: string, prefix: string): string {
    indent + FIELD + " " + prefix
  }

  function SetField(line: string, prefix: string): string {
    if IsField(line) then NewLine(line[..Indent(line)], prefix) else line
  }

  function SetFields(lines: seq<string>, prefix: string): (r: seq<string>)
    ensures |r| == |lines| && forall i :: 0 <= i < |lines| ==> r[i] == SetField(lines[i], prefix)
  {
    seq(|lines|, i requires 0 <= i < |lines| => SetField(lines[i], prefix))
  }

  predicate HasField(lines: seq<string>) {
    exists i :: 0 <= i < |lines| && IsField(lines[i])
  }

  // ---- The insertion ----

  const DAEMON := "daemon:"

  predicate IsDaemon(line: string) {
    TrimSpace(line) == DAEMON
  }

  /** The first index from i on at which p holds, or the end. */
  function FirstFrom(lines: seq<string>, p: string -> bool, i: nat, end: nat): (k: nat)
    requires i <= end <= |lines|
    ensures i <= k <= end && (k < end ==> p(lines[k]))
    ensures forall j :: i <= j < k ==> !p(lines[j])
    decreases end - i
  {
    if i == end || p(lines[i]) then i else FirstFrom(lines, p, i + 1, end)
  }

  function DaemonAt(lines: seq<string>): nat {
    FirstFrom(lines, IsDaemon, 0, |lines|)
  }

  /** A line of the top level: not blank and not indented. */
  predicate TopLevel(line: string) {
    TrimSpace(line) != "" && line != "" && line[0] != ' ' && line[0] != '\t'
  }

  function BlockEnd(lines: seq<string>, daemon: nat): nat
    requires daemon < |lines|
  {
    FirstFrom(lines, TopLevel, daemon + 1, |lines|)
  }

  function Starts(anchor: string): string -> bool {
    line => anchor <= TrimSpace(line)
  }

  function AnchorFrom(lines: seq<string>, daemon: nat, end: nat, anchors: seq<string>): nat
    requires daemon < end <= |lines|
    decreases |anchors|
  {
    if anchors == [] then daemon
    else
      var k := FirstFrom(lines, Starts(anchors[0]), daemon + 1, end);
      if k < end then k else AnchorFrom(lines, daemon, end, anchors[1..])
  }

  const ANCHORS := ["workflow_mode:", "max_concurrent:", "target_branch:"]

  function Insert(lines: seq<string>, at: nat, line: string): seq<string>
    requires at <= |lines|
  {
    lines[..at] + [line] + lines[at..]
  }

  /** The lines of a text without the empty one that a final line break leaves. */
  function Body(lines: seq<string>): seq<string>
    requires lines != []
  {
    if |lines| > 1 && lines[|lines| - 1] == "" then lines[..|lines| - 1] else lines
  }

  /** The line after which the field goes, if there is a daemon block. */
  function Place(lines: seq<string>): Option<nat> {
    var daemon := DaemonAt(lines);
    if daemon == |lines| then None else Some(AnchorFrom(lines, daemon, BlockEnd(lines, daemon), ANCHORS))
  }

  function Inserted(lines: seq<string>, prefix: string): seq<string>
    requires lines != []
  {
    var place := Place(lines);
    PlaceInBlock(lines);
    if place.None? then Body(lines) + [DAEMON, NewLine("  ", prefix), ""]
    else Insert(lines, place.value + 1, NewLine("  ", prefix))
  }

  function PatchedLines(lines: seq<string>, prefix: string): seq<string>
    requires lines != []
  {
    if HasField(lines) then SetFields(lines, prefix) else Inserted(lines, prefix)
  }

  function Patched(content: string, prefix: string): string {
    Join(PatchedLines(Split(content), prefix))
  }

  lemma {:induction false} AnchorInBlock(lines: seq<string>, daemon: nat, end: nat, anchors: seq<string>)
    requires daemon < end <= |lines|
    ensures daemon <= AnchorFrom(lines, daemon, end, anchors) < end
    decreases |anchors|
  {
    if anchors != [] {
      AnchorInBlock(lines, daemon, end, anchors[1..]);
    }
  }

  lemma PlaceInBlock(lines: seq<string>)
    ensures Place(lines).Some? ==>
      var daemon := DaemonAt(lines); daemon < |lines| && daemon <= Place(lines).value < BlockEnd(lines, daemon)
  {
    var daemon := DaemonAt(lines);
    if daemon < |lines| {
      AnchorInBlock(lines, daemon, BlockEnd(lines, daemon), ANCHORS);
    }
  }

  // ---- The methods ----

  method FindDaemon(lines: seq<string>) returns (daemonIdx: int)
    ensures daemonIdx == if DaemonAt(lines) < |lines| then DaemonAt(lines) else -1
  {
    for i := 0 to |lines|
      invariant DaemonAt(lines) == FirstFrom(lines, IsDaemon, i, |lines|)
    {
      if TrimSpace(lines[i]) == DAEMON {
        return i;
      }
    }
    daemonIdx := -1;
  }

  method FindBlockEnd(lines: seq<string>, daemonIdx: nat) returns (blockEnd: nat)
    requires daemonIdx < |lines|
    ensures blockEnd == BlockEnd(lines, daemonIdx)
  {
    blockEnd := |lines|;
    for i := daemonIdx + 1 to |lines|
      invariant BlockEnd(lines, daemonIdx) == FirstFrom(lines, TopLevel, i, |lines|)
    {
      if TrimSpace(lines[i]) == "" {
        continue;
      }
      NotBlank(lines[i]);
      if lines[i][0] != ' ' && lines[i][0] != '\t' {
        return i;
      }
    }
  }

  lemma NotBlank(line: string)
    requires TrimSpace(line) != ""
    ensures line != ""
  {
  }

  method FindAnchor(lines: seq<string>, daemonIdx: nat, blockEnd: nat, anchors: seq<string>) returns (at: nat)
    requires daemonIdx < blockEnd <= |lines|
    ensures at == AnchorFrom(lines, daemonIdx, blockEnd, anchors)
  {
    for a := 0 to |anchors|
      invariant AnchorFrom(lines, daemonIdx, blockEnd, anchors) == AnchorFrom(lines, daemonIdx, blockEnd, anchors[a..])
    {
      assert anchors[a..][0] == anchors[a] && anchors[a..][1..] == anchors[a + 1..];
      for i := daemonIdx + 1 to blockEnd
        invariant FirstFrom(lines, Starts(anchors[a]), daemonIdx + 1, blockEnd) == FirstFrom(lines, Starts(anchors[a]), i, blockEnd)
      {
        if anchors[a] <= TrimSpace(lines[i]) {
          return i;
        }
      }
    }
    at := daemonIdx;
  }

  method InsertRCPrefixLine(content: string, prefix: string) returns (r: string)
    ensures r == Join(Inserted(Split(content), prefix))
  {
    var lines := Split(content);
    var newField := NewLine("  ", prefix);
    var daemonIdx := FindDaemon(lines);
    if daemonIdx == -1 {
      AppendedLines(content, DAEMON, newField);
      if |content| > 0 && content[|content| - 1] == '\n' {
        return content + DAEMON + "\n" + newField + "\n";
      }
      return content + "\n" + DAEMON + "\n" + newField + "\n";
    }
    var blockEnd := FindBlockEnd(lines, daemonIdx);
    var at := FindAnchor(lines, daemonIdx, blockEnd, ANCHORS);
    PlaceInBlock(lines);
    r := Join(lines[..at + 1] + [newField] + lines[at + 1..]);
  }

  method PatchText(content: string, prefix: string) returns (r: string)
    ensures r == Patched(content, prefix)
  {
    var lines := Split(content);
    var replaced, found := ReplaceFields(lines, prefix);
    if found {
      r := Join(replaced);
    } else {
      r := InsertRCPrefixLine(content, prefix);
    }
  }

  lemma HasFieldSnoc(lines: seq<string>, last: string)
    ensures HasField(lines + [last]) <==> HasField(lines) || IsField(last)
  {
    var more := lines + [last];
    assert more[|lines|] == last;
    assert forall j :: 0 <= j < |lines| ==> more[j] == lines[j];
    if HasField(lines) {
      var j :| 0 <= j < |lines| && IsField(lines[j]);
      assert IsField(more[j]);
    }
  }

  /** The pattern's replacement, line by line. */
  method ReplaceFields(lines: seq<string>, prefix: string) returns (replaced: seq<string>, found: bool)
    ensures replaced == SetFields(lines, prefix) && (found <==> HasField(lines))
  {
    found, replaced := false, [];
    for i := 0 to |lines|
      invariant replaced == SetFields(lines[..i], prefix) && (found <==> HasField(lines[..i]))
    {
      assert lines[..i + 1] == lines[..i] + [lines[i]];
      HasFieldSnoc(lines[..i], lines[i]);
      SetFieldsConcat(lines[..i], [lines[i]], prefix);
      found := found || IsField(lines[i]);
      replaced := replaced + [SetField(lines[i], prefix)];
    }
    assert lines[..|lines|] == lines;
  }

  // ---- The two texts that are appended ----

  lemma {:induction false} JoinConcat(a: seq<string>, b: seq<string>)
    requires a != [] && b != []
    ensures Join(a + b) == Join(a) + "\n" + Join(b)
  {
    if |a| == 1 {
      assert a + b == [a[0]] + b;
      assert ([a[0]] + b)[1..] == b;
    } else {
      JoinConcat(a[1..], b);
      assert (a + b)[1..] == a[1..] + b;
    }
  }

  lemma EndsInBreak(content: string)
    ensures var lines := Split(content);
      (content != "" && content[|content| - 1] == '\n') <==> (|lines| > 1 && lines[|lines| - 1] == "")
    ensures content != "" && content[|content| - 1] == '\n' ==> content == Join(Body(Split(content))) + "\n"
  {
    var lines := Split(content);
    SplitLines(content);
    var n := |lines| - 1;
    if n > 0 {
      JoinConcat(lines[..n], [lines[n]]);
      assert lines == lines[..n] + [lines[n]];
      assert content == Join(lines[..n]) + "\n" + lines[n];
      assert OneLine(lines[n]);
    } else {
      assert OneLine(lines[0]) && content == lines[0];
    }
  }

  lemma AppendedLines(content: string, daemon: string, newField: string)
    ensures Join(Body(Split(content)) + [daemon, newField, ""]) ==
      if content != "" && content[|content| - 1] == '\n' then content + daemon + "\n" + newField + "\n"
      else content + "\n" + daemon + "\n" + newField + "\n"
  {
    var body := Body(Split(content));
    SplitLines(content);
    EndsInBreak(content);
    JoinConcat(body, [daemon, newField, ""]);
    JoinThree(daemon, newField, "");
    Reassociate(Join(body) + "\n", daemon, newField);
  }

  lemma Reassociate(s: string, a: string, b: string)
    ensures s + (a + "\n" + b + "\n" + "") == s + a + "\n" + b + "\n"
  {
  }

  lemma JoinThree(a: string, b: string, c: string)
    ensures Join([a, b, c]) == a + "\n" + b + "\n" + c
  {
    assert [a, b, c][1..] == [b, c] && [b, c][1..] == [c];
    assert Join([c]) == c;
    assert Join([b, c]) == b + "\n" + c;
    assert a + "\n" + (b + "\n" + c) == a + "\n" + b + "\n" + c;
  }

  // ---- What a patch does ----

  lemma SetFieldAgain(line: string, p: string, q: string)
    requires IsField(line)
    ensures IsField(SetField(line, p)) && SetField(SetField(line, p), q) == SetField(line, q)
  {
    var n := Indent(line);
    var set_ := SetField(line, p);
    NewLineIs(line[..n], p);
  }

  lemma NewLineIs(indent: string, p: string)
    requires forall i :: 0 <= i < |indent| ==> Indenting(indent[i])
    ensures IsField(NewLine(indent, p)) && Indent(NewLine(indent, p)) == |indent| && NewLine(indent, p)[..|indent|] == indent
  {
    var line := NewLine(indent, p);
    assert line[|indent|] == FIELD[0] == 'r';
    assert line[|indent|..] == FIELD + " " + p;
  }

  lemma SetFieldsAgain(lines: seq<string>, p: string, q: string)
    ensures SetFields(SetFields(lines, p), q) == SetFields(lines, q)
    ensures HasField(SetFields(lines, p)) <==> HasField(lines)
  {
    forall i | 0 <= i < |lines|
      ensures SetField(SetField(lines[i], p), q) == SetField(lines[i], q)
      ensures IsField(SetFields(lines, p)[i]) <==> IsField(lines[i])
    {
      if IsField(lines[i]) {
        SetFieldAgain(lines[i], p, q);
      }
    }
  }

  lemma SetFieldsConcat(a: seq<string>, b: seq<string>, q: string)
    ensures SetFields(a + b, q) == SetFields(a, q) + SetFields(b, q)
  {
  }

  lemma NothingToSet(lines: seq<string>, q: string)
    requires !HasField(lines)
    ensures SetFields(lines, q) == lines
  {
  }

  lemma NoFieldIn(lines: seq<string>, i: nat, j: nat)
    requires !HasField(lines) && i <= j <= |lines|
    ensures !HasField(lines[i..j])
  {
    assert forall k :: 0 <= k < j - i ==> lines[i..j][k] == lines[i + k];
  }

  /** Setting the fields of lines that hold one inserted field. */
  lemma InsertedAgain(a: seq<string>, b: seq<string>, p: string, q: string)
    requires !HasField(a) && !HasField(b)
    ensures HasField(a + [NewLine("  ", p)] + b)
    ensures SetFields(a + [NewLine("  ", p)] + b, q) == a + [NewLine("  ", q)] + b
  {
    NewLineIs("  ", p);
    var lines := a + [NewLine("  ", p)] + b;
    assert IsField(lines[|a|]);
    SetFieldsConcat(a + [NewLine("  ", p)], b, q);
    SetFieldsConcat(a, [NewLine("  ", p)], q);
    NothingToSet(a, q);
    NothingToSet(b, q);
    assert SetFields([NewLine("  ", p)], q) == [NewLine("  ", q)];
  }

  lemma DaemonIsNoField()
    ensures !IsField(DAEMON) && !IsField("")
  {
    assert DAEMON[Indent(DAEMON)..][0] == 'd';
  }

  lemma InsertedFields(lines: seq<string>, p: string, q: string)
    requires lines != [] && !HasField(lines)
    ensures HasField(Inserted(lines, p)) && SetFields(Inserted(lines, p), q) == Inserted(lines, q)
  {
    PlaceInBlock(lines);
    if Place(lines).Some? {
      PlacedFields(lines, Place(lines).value + 1, p, q);
    } else {
      AppendedFields(lines, p, q);
    }
  }

  lemma PlacedFields(lines: seq<string>, at: nat, p: string, q: string)
    requires !HasField(lines) && at <= |lines|
    ensures HasField(Insert(lines, at, NewLine("  ", p)))
    ensures SetFields(Insert(lines, at, NewLine("  ", p)), q) == Insert(lines, at, NewLine("  ", q))
  {
    NoFieldIn(lines, 0, at);
    NoFieldIn(lines, at, |lines|);
    assert lines[..at] == lines[0..at] && lines[at..] == lines[at..|lines|];
    InsertedAgain(lines[..at], lines[at..], p, q);
  }

  lemma AppendedFields(lines: seq<string>, p: string, q: string)
    requires lines != [] && !HasField(lines)
    ensures HasField(Body(lines) + [DAEMON, NewLine("  ", p), ""])
    ensures SetFields(Body(lines) + [DAEMON, NewLine("  ", p), ""], q) == Body(lines) + [DAEMON, NewLine("  ", q), ""]
  {
    var body := Body(lines);
    NoFieldIn(lines, 0, |body|);
    assert body == lines[0..|body|];
    DaemonIsNoField();
    HasFieldSnoc(body, DAEMON);
    HasFieldSnoc([], "");
    assert [] + [""] == [""];
    AppendFour(body, DAEMON, NewLine("  ", p), "");
    AppendFour(body, DAEMON, NewLine("  ", q), "");
    InsertedAgain(body + [DAEMON], [""], p, q);
  }

  lemma AppendFour(a: seq<string>, b: string, c: string, e: string)
    ensures a + [b, c, e] == a + [b] + [c] + [e]
  {
  }

  lemma PatchedOneLine(lines: seq<string>, p: string)
    requires lines != [] && AllOneLine(lines) && OneLine(p)
    ensures PatchedLines(lines, p) != [] && AllOneLine(PatchedLines(lines, p))
  {
    PlaceInBlock(lines);
    NewLineOneLine("  ", p);
    if HasField(lines) {
      FieldsOneLine(lines, p);
    } else if Place(lines).Some? {
      InsertOneLine(lines, Place(lines).value + 1, NewLine("  ", p));
    } else {
      assert OneLine(DAEMON) && OneLine("");
    }
  }

  lemma FieldsOneLine(lines: seq<string>, p: string)
    requires AllOneLine(lines) && OneLine(p)
    ensures AllOneLine(SetFields(lines, p))
  {
    forall i | 0 <= i < |lines| ensures OneLine(SetField(lines[i], p)) {
      if IsField(lines[i]) {
        NewLineOneLine(lines[i][..Indent(lines[i])], p);
      }
    }
  }

  lemma InsertOneLine(lines: seq<string>, at: nat, line: string)
    requires AllOneLine(lines) && OneLine(line) && at <= |lines|
    ensures AllOneLine(Insert(lines, at, line))
  {
  }

  lemma NewLineOneLine(indent: string, p: string)
    requires OneLine(indent) && OneLine(p)
    ensures OneLine(NewLine(indent, p))
  {
    assert OneLine(FIELD) && OneLine(" ");
    assert forall c :: c in NewLine(indent, p) ==> c in indent || c in FIELD || c in " " || c in p;
  }

  /** The last write wins, for every config text. */
  lemma LastWriteWins(content: string, p: string, q: string)
    requires OneLine(p) && OneLine(q)
    ensures Patched(Patched(content, p), q) == Patched(content, q)
  {
    var lines := Split(content);
    SplitLines(content);
    PatchedOneLine(lines, p);
    JoinSplit(PatchedLines(lines, p));
    if HasField(lines) {
      SetFieldsAgain(lines, p, q);
    } else {
      InsertedFields(lines, p, q);
    }
  }

  /** After a patch there is a field line, and every field line has the new value. */
  lemma PatchSetsEvery(content: string, p: string)
    requires OneLine(p)
    ensures var lines := Split(Patched(content, p));
      HasField(lines) && forall i :: 0 <= i < |lines| && IsField(lines[i]) ==> lines[i] == NewLine(lines[i][..Indent(lines[i])], p)
  {
    LastWriteWins(content, p, p);
    var lines := Split(content);
    SplitLines(content);
    PatchedOneLine(lines, p);
    JoinSplit(PatchedLines(lines, p));
    if HasField(lines) {
      SetFieldsAgain(lines, p, p);
    } else {
      InsertedFields(lines, p, p);
    }
    var after := PatchedLines(lines, p);
    assert SetFields(after, p) == after;
    forall i | 0 <= i < |after| && IsField(after[i]) ensures after[i] == NewLine(after[i][..Indent(after[i])], p) {
      assert SetFields(after, p)[i] == SetField(after[i], p);
    }
  }

  /** Where no line is a field, one line is added to a config with a bare daemon:
      line, inside its block: after that line and before the next top-level one. All
      other lines stay, in order. */
  lemma InsertsOneLine(content: string, p: string)
    requires OneLine(p) && !HasField(Split(content)) && DaemonAt(Split(content)) < |Split(content)|
    ensures var lines := Split(content); var daemon := DaemonAt(lines);
      exists k :: daemon < k <= BlockEnd(lines, daemon) && Split(Patched(content, p)) == Insert(lines, k, NewLine("  ", p))
    ensures var lines := Split(content); var daemon := DaemonAt(lines);
      IsDaemon(lines[daemon]) && forall i :: daemon < i < BlockEnd(lines, daemon) ==> !TopLevel(lines[i])
  {
    var lines := Split(content);
    PlaceInBlock(lines);
    SplitLines(content);
    PatchedOneLine(lines, p);
    JoinSplit(PatchedLines(lines, p));
    var k := Place(lines).value + 1;
    assert Split(Patched(content, p)) == Insert(lines, k, NewLine("  ", p));
  }

  /** Without one, the text is kept and a new block is put at its end, even when the
      config already has a daemon key written in another way. */
  lemma AppendsABlock(content: string, p: string)
    requires OneLine(p) && !HasField(Split(content)) && DaemonAt(Split(content)) == |Split(content)|
    ensures Split(Patched(content, p)) == Body(Split(content)) + [DAEMON, NewLine("  ", p), ""]
    ensures content <= Patched(content, p)
  {
    var lines := Split(content);
    SplitLines(content);
    PatchedOneLine(lines, p);
    JoinSplit(PatchedLines(lines, p));
    AppendedKeeps(content, DAEMON, NewLine("  ", p));
  }

  lemma AppendedKeeps(content: string, daemon: string, newField: string)
    ensures content <= Join(Body(Split(content)) + [daemon, newField, ""])
  {
    AppendedLines(content, daemon, newField);
    Extends(content, daemon, newField, "\n");
    Extends(content + "\n", daemon, newField, "\n");
    assert content <= content + "\n";
  }

  lemma Extends(s: string, a: string, b: string, c: string)
    ensures s <= s + a + c + b + c
  {
    assert s + a + c + b + c == s + (a + c + b + c);
  }

  // ---- The lines of a patch, told from the text ----

  predicate Blank(c: char) {
    c == ' ' || c == '\t' || c == '\r' || c == '\U{C}'
  }

  /** The line is blanks, the field name, and anything. */
  predicate FieldAfter(line: string, indent: string) {
    (forall i :: 0 <= i < |indent| ==> Blank(indent[i])) && indent + "remote_control_prefix:" <= line
  }

  lemma FieldAfterIs(line: string, indent: string)
    requires FieldAfter(line, indent)
    ensures IsField(line) && line[..Indent(line)] == indent
  {
    assert line[|indent|] == (indent + FIELD)[|indent|] == 'r';
    assert forall i :: 0 <= i < |indent| ==> line[i] == (indent + FIELD)[i] == indent[i];
    assert Indent(line) == |indent|;
    assert line[|indent|..][..|FIELD|] == FIELD;
  }

  lemma FieldHasIndent(line: string)
    requires IsField(line)
    ensures FieldAfter(line, line[..Indent(line)])
  {
    var indent := line[..Indent(line)];
    assert line == indent + line[Indent(line)..];
    assert line[Indent(line)..] == FIELD + line[Indent(line)..][|FIELD|..];
    assert indent + FIELD <= line;
  }

  lemma PatchedIs(content: string, p: string)
    requires OneLine(p)
    ensures Split(Patched(content, p)) == PatchedLines(Split(content), p)
  {
    SplitLines(content);
    PatchedOneLine(Split(content), p);
    JoinSplit(PatchedLines(Split(content), p));
  }

  lemma NewLineText(indent: string, p: string)
    ensures NewLine(indent, p) == indent + "remote_control_prefix: " + p
  {
    assert FIELD + " " == "remote_control_prefix: ";
    assert indent + FIELD + " " + p == indent + (FIELD + " ") + p;
  }

  lemma SetFieldIs(line: string, p: string)
    ensures forall indent :: FieldAfter(line, indent) ==> SetField(line, p) == indent + "remote_control_prefix: " + p
    ensures (forall indent :: !FieldAfter(line, indent)) ==> SetField(line, p) == line
  {
    forall indent | FieldAfter(line, indent) ensures SetField(line, p) == indent + "remote_control_prefix: " + p {
      FieldAfterIs(line, indent);
      NewLineText(indent, p);
    }
    if IsField(line) {
      FieldHasIndent(line);
    }
  }

  /** Where the config has a field line, a patch keeps every line in its place: a field
      line keeps its indentation and gets the new value, any other stays as it is. */
  lemma PatchKeepsLines(content: string, p: string, i: nat)
    requires OneLine(p) && HasField(Split(content)) && i < |Split(content)|
    ensures var line, after := Split(content)[i], Split(Patched(content, p));
      && |after| == |Split(content)|
      && (forall indent :: FieldAfter(line, indent) ==> after[i] == indent + "remote_control_prefix: " + p)
      && ((forall indent :: !FieldAfter(line, indent)) ==> after[i] == line)
  {
    PatchedIs(content, p);
    SetFieldIs(Split(content)[i], p);
    assert Split(Patched(content, p))[i] == SetField(Split(content)[i], p);
  }

  predicate StartsWith(lines: seq<string>, i: nat, word: string) {
    i < |lines| && word <= TrimSpace(lines[i])
  }

  /** i is the first line between that starts with the word. */
  predicate FirstWith(lines: seq<string>, lo: nat, hi: nat, word: string, i: nat) {
    lo <= i < hi && StartsWith(lines, i, word) && forall j :: lo <= j < i ==> !StartsWith(lines, j, word)
  }

  predicate NoneWith(lines: seq<string>, lo: nat, hi: nat, word: string) {
    forall j :: lo <= j < hi ==> !StartsWith(lines, j, word)
  }

  /** The line after which the field goes: the first with workflow_mode, else the first
      with max_concurrent, else the first with target_branch, else daemon itself. */
  predicate GoesAfter(lines: seq<string>, daemon: nat, end: nat, i: nat) {
    var lo := daemon + 1;
    || FirstWith(lines, lo, end, "workflow_mode:", i)
    || (NoneWith(lines, lo, end, "workflow_mode:")
        && (|| FirstWith(lines, lo, end, "max_concurrent:", i)
            || (NoneWith(lines, lo, end, "max_concurrent:")
                && (FirstWith(lines, lo, end, "target_branch:", i) || (NoneWith(lines, lo, end, "target_branch:") && i == daemon)))))
  }

  lemma AnchorIs(lines: seq<string>, daemon: nat, end: nat, anchors: seq<string>)
    requires daemon < end <= |lines| && anchors != []
    ensures var at := AnchorFrom(lines, daemon, end, anchors);
      FirstWith(lines, daemon + 1, end, anchors[0], at)
      || (NoneWith(lines, daemon + 1, end, anchors[0]) && at == AnchorFrom(lines, daemon, end, anchors[1..]))
  {
    var k := FirstFrom(lines, Starts(anchors[0]), daemon + 1, end);
    forall j | daemon + 1 <= j < k ensures !StartsWith(lines, j, anchors[0]) {
      assert !Starts(anchors[0])(lines[j]);
    }
    assert k < end ==> Starts(anchors[0])(lines[k]);
  }

  lemma AnchorsAre(lines: seq<string>, daemon: nat, end: nat)
    requires daemon < end <= |lines|
    ensures GoesAfter(lines, daemon, end, AnchorFrom(lines, daemon, end, ANCHORS))
  {
    AnchorIs(lines, daemon, end, ANCHORS);
    AnchorIs(lines, daemon, end, ANCHORS[1..]);
    AnchorIs(lines, daemon, end, ANCHORS[1..][1..]);
    assert ANCHORS[1..][0] == "max_concurrent:" && ANCHORS[1..][1..][0] == "target_branch:" && ANCHORS[1..][1..][1..] == [];
    assert ANCHORS[0] == "workflow_mode:";
  }

  /** The first daemon line. */
  predicate FirstDaemon(lines: seq<string>, daemon: nat) {
    && daemon < |lines| && TrimSpace(lines[daemon]) == "daemon:"
    && forall j :: 0 <= j < daemon ==> TrimSpace(lines[j]) != "daemon:"
  }

  /** Neither blank nor indented by a space or a tab. */
  predicate Outer(line: string) {
    TrimSpace(line) != "" && line != "" && line[0] != ' ' && line[0] != '\t'
  }

  /** The block of the daemon line goes up to the next outer line. */
  predicate BlockTo(lines: seq<string>, daemon: nat, end: nat) {
    && daemon < end <= |lines| && (end < |lines| ==> Outer(lines[end]))
    && forall j :: daemon < j < end ==> !Outer(lines[j])
  }

  lemma DaemonIs(lines: seq<string>, daemon: nat)
    ensures FirstDaemon(lines, daemon) <==> daemon < |lines| && daemon == DaemonAt(lines)
  {
    var d := DaemonAt(lines);
    assert d < |lines| ==> IsDaemon(lines[d]);
    assert forall j :: 0 <= j < d ==> !IsDaemon(lines[j]);
    if FirstDaemon(lines, daemon) {
      assert IsDaemon(lines[daemon]);
    }
  }

  lemma BlockIs(lines: seq<string>, daemon: nat)
    requires daemon < |lines|
    ensures BlockTo(lines, daemon, BlockEnd(lines, daemon))
  {
    var end := BlockEnd(lines, daemon);
    assert end < |lines| ==> TopLevel(lines[end]);
    assert forall j :: daemon < j < end ==> !TopLevel(lines[j]);
  }

  /** Where no line is a field and there is a daemon line, the place of the new line in
      its block is exact, and every other line stays. */
  lemma InsertsAtAnchor(content: string, p: string, daemon: nat) returns (i: nat, end: nat)
    requires OneLine(p) && !HasField(Split(content)) && FirstDaemon(Split(content), daemon)
    ensures BlockTo(Split(content), daemon, end) && i < |Split(content)| && GoesAfter(Split(content), daemon, end, i)
    ensures Split(Patched(content, p)) == Insert(Split(content), i + 1, "  remote_control_prefix: " + p)
  {
    DaemonIs(Split(content), daemon);
    end := BlockEnd(Split(content), daemon);
    BlockIs(Split(content), daemon);
    i := InsertedAfter(Split(content), p);
    IndentedText(p);
    PatchedWithout(content, p, i, "  remote_control_prefix: " + p);
  }

  /** Without a daemon line the text is kept, closed by a line break, and a block of two
      lines is put at its end. */
  lemma AppendsText(content: string, p: string)
    requires OneLine(p) && !HasField(Split(content)) && forall daemon :: !FirstDaemon(Split(content), daemon)
    ensures Patched(content, p) ==
      (if content != "" && content[|content| - 1] == '\n' then content else content + "\n")
      + "daemon:" + "\n" + ("  remote_control_prefix: " + p) + "\n"
  {
    DaemonIs(Split(content), DaemonAt(Split(content)));
    IndentedText(p);
    PatchedAppends(content, p, "  remote_control_prefix: " + p);
    EndingOf(content, "  remote_control_prefix: " + p);
  }

  lemma PatchedAppends(content: string, p: string, line: string)
    requires !HasField(Split(content)) && DaemonAt(Split(content)) == |Split(content)| && line == NewLine("  ", p)
    ensures Patched(content, p) == Join(Body(Split(content)) + [DAEMON, line, ""])
  {
  }

  lemma EndingOf(content: string, line: string)
    ensures Join(Body(Split(content)) + [DAEMON, line, ""]) ==
      (if content != "" && content[|content| - 1] == '\n' then content else content + "\n") + "daemon:" + "\n" + line + "\n"
  {
    AppendedLines(content, DAEMON, line);
  }

  lemma IndentedText(p: string)
    ensures NewLine("  ", p) == "  remote_control_prefix: " + p
  {
    NewLineText("  ", p);
    var a, b := "  ", "remote_control_prefix: ";
    assert a + b == "  remote_control_prefix: ";
  }

  lemma PatchedWithout(content: string, p: string, k: nat, line: string)
    requires OneLine(p) && !HasField(Split(content)) && k < |Split(content)| && line == NewLine("  ", p)
    requires Inserted(Split(content), p) == Insert(Split(content), k + 1, NewLine("  ", p))
    ensures Split(Patched(content, p)) == Insert(Split(content), k + 1, line)
  {
    PatchedIs(content, p);
  }

  lemma InsertedAfter(lines: seq<string>, p: string) returns (i: nat)
    requires lines != [] && DaemonAt(lines) < |lines|
    ensures i < |lines| && GoesAfter(lines, DaemonAt(lines), BlockEnd(lines, DaemonAt(lines)), i)
    ensures Inserted(lines, p) == Insert(lines, i + 1, NewLine("  ", p))
  {
    PlaceInBlock(lines);
    AnchorsAre(lines, DaemonAt(lines), BlockEnd(lines, DaemonAt(lines)));
    i := Place(lines).value;
  }
}
