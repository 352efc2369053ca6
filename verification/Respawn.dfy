/** The captain respawn command line (captainRespawnCmdString): a printer of shell
    words whose reader is `sh -c`. The reader here is the token recognition and
    quoting of sections 2.2 to 2.4 of the POSIX.1-2017 Shell Command Language. */
module Respawn {
  import opened Results

  // ---- The printer ----

  /** Characters that make an argument be quoted. */
  predicate Trigger(c: char) {
    c in " \t\n'\"\\$`*?[]&;|<>(){}"
  }

  predicate ContainsTrigger(s: string) {
    exists i :: 0 <= i < |s| && Trigger(s[i])
  }

  /** Every single quote written as '\'' . */
  function EscapeQuotes(s: string): string {
    if s == "" then ""
    else (if s[0] == '\'' then "'\\''" else [s[0]]) + EscapeQuotes(s[1..])
  }

  function Quote(s: string): string {
    if s == "" then "''"
    else if !ContainsTrigger(s) then s
    else "'" + EscapeQuotes(s) + "'"
  }

  function Join(words: seq<string>): string {
    if words == [] then ""
    else if |words| == 1 then words[0]
    else words[0] + " " + Join(words[1..])
  }

  function QuoteAll(args: seq<string>): (r: seq<string>)
    ensures |r| == |args|
  {
    seq(|args|, i requires 0 <= i < |args| => Quote(args[i]))
  }

  const WINDOW_AGENT := "agent"

  function RespawnArgs(keeperBin: string, name: string, tmuxSession: string, sessionId: string, project: string): seq<string> {
    [keeperBin, "captain", "respawn", "--name", name, "--tmux", tmuxSession + ":" + WINDOW_AGENT,
     "--session-id", sessionId, "--project", project]
  }

  method CaptainRespawnCmdString(keeperBin: string, name: string, tmuxSession: string, sessionId: string, project: string)
    returns (cmd: string)
    ensures cmd == Join(QuoteAll(RespawnArgs(keeperBin, name, tmuxSession, sessionId, project)))
  {
    var argv := [keeperBin, "captain", "respawn", "--name", name, "--tmux", tmuxSession + ":" + WINDOW_AGENT,
                 "--session-id", sessionId, "--project", project];
    var quoted: seq<string> := [];
    for i := 0 to |argv|
      invariant |quoted| == i
      invariant forall j :: 0 <= j < i ==> quoted[j] == Quote(argv[j])
    {
      quoted := quoted + [Quote(argv[i])];
    }
    assert quoted == QuoteAll(argv);
    cmd := Join(quoted);
  }

  // ---- The reader ----

  /** Between words; in a word, `bare` when no part of it was quoted; or inside
      single quotes in a word. */
  datatype Mode = Between | Word(text: string, bare: bool) | Single(text: string)

  predicate IsBlank(c: char) {
    c == ' ' || c == '\t'
  }

  /** Unquoted, these end the command, start an expansion or a pattern, or open a
      double-quoted string; the reader gives up on them. NUL cannot occur at all. */
  predicate Special(c: char) {
    c in "\n\"$`*?[&;|<>()" || c == '\0'
  }

  predicate NameStart(c: char) {
    'a' <= c <= 'z' || 'A' <= c <= 'Z' || c == '_'
  }

  predicate IsName(s: string) {
    s != "" && NameStart(s[0]) && forall i :: 0 <= i < |s| ==> NameStart(s[i]) || '0' <= s[i] <= '9'
  }

  predicate Reserved(s: string) {
    s in {"!", "{", "}", "case", "do", "done", "elif", "else", "esac", "fi", "for", "if", "in", "then", "until", "while"}
  }

  /** The word list after one more word; a bare reserved word cannot be the command. */
  function Push(words: seq<string>, text: string, bare: bool): Option<seq<string>> {
    if words == [] && bare && Reserved(text) then None else Some(words + [text])
  }

  /** The words of a simple command that contains no expansion and no assignment;
      None when the text is anything else. */
  function Lex(s: string, mode: Mode, words: seq<string>): Option<seq<string>>
    decreases |s|
  {
    if s == "" then
      match mode
      case Between => Some(words)
      case Word(text, bare) => Push(words, text, bare)
      case Single(_) => None
    else
      var c, rest := s[0], s[1..];
      match mode
      case Between =>
        if IsBlank(c) then Lex(rest, Between, words)
        else if c == '#' || c == '~' then None
        else InWord(s, "", true, words)
      case Word(text, bare) =>
        if IsBlank(c) then
          var words' := Push(words, text, bare);
          if words'.None? then None else Lex(rest, Between, words'.value)
        else InWord(s, text, bare, words)
      case Single(text) =>
        if c == '\'' then Lex(rest, Word(text, false), words)
        else if c == '\0' then None
        else Lex(rest, Single(text + [c]), words)
  }

  /** One step of Lex inside a word, on a character that is not a blank. */
  function InWord(s: string, text: string, bare: bool, words: seq<string>): Option<seq<string>>
    requires s != ""
    decreases |s|, 0
  {
    var c, rest := s[0], s[1..];
    if c == '\'' then Lex(rest, Single(text), words)
    else if c == '\\' then
      if rest == "" || rest[0] == '\0' then None
      else Lex(rest[1..], Word(if rest[0] == '\n' then text else text + [rest[0]], false), words)
    else if Special(c) then None
    else if c == '=' && words == [] && bare && IsName(text) then None
    else Lex(rest, Word(text + [c], bare), words)
  }

  function Tokens(s: string): Option<seq<string>> {
    Lex(s, Between, [])
  }

  // ---- The round trip ----

  /** A bare word that the shell would read as NAME=value. */
  predicate Assignment(s: string) {
    exists i :: 0 <= i < |s| && s[i] == '=' && IsName(s[..i])
  }

  /** What the quoting does not take care of: a NUL anywhere and, in an argument
      that is left unquoted, a leading ~ or #, or being an assignment or a
      reserved word in command position. */
  predicate Fine(arg: string, command: bool) {
    && '\0' !in arg
    && (arg != "" && !ContainsTrigger(arg) ==>
          arg[0] != '~' && arg[0] != '#' && (command ==> !Assignment(arg) && !Reserved(arg)))
  }

  predicate AllFine(args: seq<string>, first: bool) {
    forall i :: 0 <= i < |args| ==> Fine(args[i], first && i == 0)
  }

  /** Reading inside single quotes what EscapeQuotes wrote. */
  lemma {:induction false} LexEscaped(arg: string, rest: string, text: string, words: seq<string>)
    ensures Lex(EscapeQuotes(arg) + "'" + rest, Single(text), words) ==
      if '\0' in arg then None else Lex(rest, Word(text + arg, false), words)
    decreases |arg|
  {
    if arg == "" {
      assert EscapeQuotes(arg) + "'" + rest == "'" + rest;
      assert ("'" + rest)[1..] == rest;
      assert text + arg == text;
    } else {
      var tail := EscapeQuotes(arg[1..]) + "'" + rest;
      LexEscaped(arg[1..], rest, text + [arg[0]], words);
      assert text + [arg[0]] + arg[1..] == text + arg;
      assert arg == [arg[0]] + arg[1..];
      if arg[0] == '\'' {
        assert EscapeQuotes(arg) + "'" + rest == "'\\''" + tail;
        LexQuoteMark(tail, text, words);
      } else {
        assert EscapeQuotes(arg) + "'" + rest == [arg[0]] + tail;
        assert ([arg[0]] + tail)[1..] == tail;
      }
    }
  }

  lemma LexQuoteMark(tail: string, text: string, words: seq<string>)
    ensures Lex("'\\''" + tail, Single(text), words) == Lex(tail, Single(text + ['\'']), words)
  {
    var s := "'\\''" + tail;
    assert s[1..] == "\\''" + tail;
    assert s[1..][1..] == "''" + tail;
    assert s[1..][1..][1..] == "'" + tail;
    assert ("'" + tail)[1..] == tail;
    calc {
      Lex(s, Single(text), words);
      Lex("\\''" + tail, Word(text, false), words);
      Lex("'" + tail, Word(text + ['\''], false), words);
      Lex(tail, Single(text + ['\'']), words);
    }
  }

  /** An assignment's '=' stands at i of arg, when `text` comes before arg. */
  predicate AssignsAt(text: string, arg: string, i: int) {
    0 <= i < |arg| && arg[i] == '=' && IsName(text + arg[..i])
  }

  /** Reading a run of unquoted characters. */
  lemma {:induction false} LexBare(arg: string, rest: string, text: string, words: seq<string>)
    requires !ContainsTrigger(arg)
    ensures Lex(arg + rest, Word(text, true), words) ==
      if '\0' in arg || (words == [] && exists i :: AssignsAt(text, arg, i)) then None
      else Lex(rest, Word(text + arg, true), words)
    decreases |arg|
  {
    if arg == "" {
      assert arg + rest == rest && text + arg == text;
    } else {
      var c, tail := arg[0], arg[1..];
      assert !Trigger(c);
      assert (arg + rest)[0] == c && (arg + rest)[1..] == tail + rest;
      LexBare(tail, rest, text + [c], words);
      assert text + [c] + tail == text + arg;
      assert arg == [c] + tail;
      BareAssignment(arg, text);
    }
  }

  lemma AssignsShift(text: string, arg: string, i: int)
    requires arg != ""
    ensures AssignsAt(text, arg, 0) <==> arg[0] == '=' && IsName(text)
    ensures i > 0 ==> (AssignsAt(text, arg, i) <==> AssignsAt(text + [arg[0]], arg[1..], i - 1))
  {
    assert text + arg[..0] == text;
    if 0 < i < |arg| {
      assert text + [arg[0]] + arg[1..][..i - 1] == text + arg[..i];
    }
  }

  lemma BareAssignment(arg: string, text: string)
    requires arg != ""
    ensures (exists i :: AssignsAt(text, arg, i)) <==>
      (arg[0] == '=' && IsName(text)) || exists i :: AssignsAt(text + [arg[0]], arg[1..], i)
  {
    AssignsShift(text, arg, 0);
    if i :| AssignsAt(text, arg, i) {
      AssignsShift(text, arg, i);
    }
    if i :| AssignsAt(text + [arg[0]], arg[1..], i) {
      AssignsShift(text, arg, i + 1);
    }
  }

  /** What reading one argument and the blank after it comes to. */
  function AfterArg(arg: string, rest: string, words: seq<string>): Option<seq<string>> {
    if !Fine(arg, words == []) then None
    else if rest == "" then Some(words + [arg])
    else Lex(rest[1..], Between, words + [arg])
  }

  lemma WordEnds(text: string, bare: bool, rest: string, words: seq<string>)
    requires rest == "" || rest[0] == ' '
    ensures Lex(rest, Word(text, bare), words) ==
      if Push(words, text, bare).None? then None
      else if rest == "" then Some(words + [text])
      else Lex(rest[1..], Between, words + [text])
  {
  }

  lemma LexEmptyArg(rest: string, words: seq<string>)
    requires rest == "" || rest[0] == ' '
    ensures Lex("''" + rest, Between, words) == AfterArg("", rest, words)
  {
    var s := "''" + rest;
    assert s[1..] == "'" + rest && s[1..][1..] == rest;
    assert Lex(s, Between, words) == InWord(s, "", true, words) == Lex(s[1..], Single(""), words);
    WordEnds("", false, rest, words);
  }

  lemma LexQuotedArg(arg: string, rest: string, words: seq<string>)
    requires ContainsTrigger(arg) && (rest == "" || rest[0] == ' ')
    ensures Lex("'" + EscapeQuotes(arg) + "'" + rest, Between, words) == AfterArg(arg, rest, words)
  {
    LexEscaped(arg, rest, "", words);
    var s := "'" + EscapeQuotes(arg) + "'" + rest;
    assert s[1..] == EscapeQuotes(arg) + "'" + rest;
    assert Lex(s, Between, words) == InWord(s, "", true, words) == Lex(s[1..], Single(""), words);
    assert "" + arg == arg;
    WordEnds(arg, false, rest, words);
  }

  lemma LexBareArg(arg: string, rest: string, words: seq<string>)
    requires arg != "" && !ContainsTrigger(arg) && (rest == "" || rest[0] == ' ')
    ensures Lex(arg + rest, Between, words) == AfterArg(arg, rest, words)
  {
    assert !Trigger(arg[0]);
    LexBare(arg, rest, "", words);
    assert "" + arg == arg;
    AssignmentIs(arg);
    if arg[0] != '~' && arg[0] != '#' {
      assert Lex(arg + rest, Between, words) == InWord(arg + rest, "", true, words);
      assert Lex(arg + rest, Word("", true), words) == InWord(arg + rest, "", true, words);
      WordEnds(arg, true, rest, words);
    }
  }

  lemma AssignmentIs(arg: string)
    ensures Assignment(arg) <==> exists i :: AssignsAt("", arg, i)
  {
    assert forall i :: 0 <= i < |arg| ==> "" + arg[..i] == arg[..i];
    if Assignment(arg) {
      var i :| 0 <= i < |arg| && arg[i] == '=' && IsName(arg[..i]);
      assert AssignsAt("", arg, i);
    }
  }

  /** One printed argument, read from the start of a word up to its end. */
  lemma LexQuoted(arg: string, rest: string, words: seq<string>)
    requires rest == "" || rest[0] == ' '
    ensures Lex(Quote(arg) + rest, Between, words) == AfterArg(arg, rest, words)
  {
    if arg == "" {
      LexEmptyArg(rest, words);
    } else if ContainsTrigger(arg) {
      LexQuotedArg(arg, rest, words);
    } else {
      LexBareArg(arg, rest, words);
    }
  }

  lemma {:induction false} LexJoined(args: seq<string>, words: seq<string>)
    requires args != []
    ensures Lex(Join(QuoteAll(args)), Between, words) ==
      if AllFine(args, words == []) then Some(words + args) else None
    decreases |args|
  {
    var rest := args[1..];
    JoinSplits(args);
    AllFineFirst(args, words == []);
    assert words + args == words + [args[0]] + rest;
    if rest == [] {
      LexQuoted(args[0], "", words);
      assert AllFine(rest, false) && words + [args[0]] + rest == words + [args[0]];
    } else {
      var tail := " " + Join(QuoteAll(rest));
      LexQuoted(args[0], tail, words);
      assert tail[1..] == Join(QuoteAll(rest));
      if Fine(args[0], words == []) {
        LexJoined(rest, words + [args[0]]);
      }
    }
  }

  lemma JoinSplits(args: seq<string>)
    requires args != []
    ensures Join(QuoteAll(args)) == Quote(args[0]) + if |args| == 1 then "" else " " + Join(QuoteAll(args[1..]))
  {
    assert QuoteAll(args)[1..] == QuoteAll(args[1..]);
  }

  lemma AllFineFirst(args: seq<string>, first: bool)
    requires args != []
    ensures AllFine(args, first) <==> Fine(args[0], first) && AllFine(args[1..], false)
  {
    if AllFine(args, first) {
      assert Fine(args[0], first && 0 == 0);
      forall i | 0 <= i < |args[1..]| ensures Fine(args[1..][i], false) {
        assert args[1..][i] == args[i + 1];
        assert Fine(args[i + 1], first && i + 1 == 0);
      }
    }
    if Fine(args[0], first) && AllFine(args[1..], false) {
      forall i | 0 <= i < |args| ensures Fine(args[i], first && i == 0) {
        if i > 0 {
          assert args[1..][i - 1] == args[i];
        }
      }
    }
  }

  /** The round trip, exactly: the shell reads back the original argument list if
      and only if every argument is fine. Empty arguments, blanks, newlines,
      quotes, backslashes and every other shell character always come back. */
  lemma RoundTripExactly(args: seq<string>)
    requires args != []
    ensures Tokens(Join(QuoteAll(args))) == Some(args) <==> AllFine(args, true)
  {
    LexJoined(args, []);
    assert [] + args == args;
  }

  /** The respawn command is read back as its eleven arguments, for any values at
      all but those that are not fine; only the binary stands in command position. */
  lemma RespawnRoundTrip(keeperBin: string, name: string, tmuxSession: string, sessionId: string, project: string)
    ensures var args := RespawnArgs(keeperBin, name, tmuxSession, sessionId, project);
      Tokens(Join(QuoteAll(args))) == Some(args) <==>
        AllFine([keeperBin, name, tmuxSession + ":" + WINDOW_AGENT, sessionId, project], true)
  {
    var args := RespawnArgs(keeperBin, name, tmuxSession, sessionId, project);
    RoundTripExactly(args);
    FlagsFine();
    AllFineAround(keeperBin, name, tmuxSession + ":" + WINDOW_AGENT, sessionId, project,
      "captain", "respawn", "--name", "--tmux", "--session-id", "--project");
  }

  /** Fine flags between the values change nothing. */
  lemma AllFineAround(a: string, b: string, c: string, d: string, e: string,
                      f: string, g: string, h: string, i: string, j: string, k: string)
    requires Fine(f, false) && Fine(g, false) && Fine(h, false) && Fine(i, false) && Fine(j, false) && Fine(k, false)
    ensures AllFine([a, f, g, h, b, i, c, j, d, k, e], true) <==> AllFine([a, b, c, d, e], true)
  {
    var args, values := [a, f, g, h, b, i, c, j, d, k, e], [a, b, c, d, e];
    if AllFine(args, true) {
      assert Fine(args[0], true && 0 == 0) && Fine(args[4], true && 4 == 0) && Fine(args[6], true && 6 == 0);
      assert Fine(args[8], true && 8 == 0) && Fine(args[10], true && 10 == 0);
    }
    if AllFine(values, true) {
      assert Fine(values[0], true && 0 == 0) && Fine(values[1], true && 1 == 0) && Fine(values[2], true && 2 == 0);
      assert Fine(values[3], true && 3 == 0) && Fine(values[4], true && 4 == 0);
    }
  }

  lemma FlagsFine()
    ensures Fine("captain", false) && Fine("respawn", false) && Fine("--name", false) && Fine("--tmux", false)
    ensures Fine("--session-id", false) && Fine("--project", false)
  {
    assert "captain"[0] == 'c' && "respawn"[0] == 'r' && "--name"[0] == '-' && "--tmux"[0] == '-';
    assert "--session-id"[0] == '-' && "--project"[0] == '-';
  }

  /** The token after a flag, for a list that starts with three words and goes on in
      pairs of a flag and a value. */
  function ValueOf(args: seq<string>, flag: string, from: nat): Option<string>
    decreases |args| - from
  {
    if from + 1 >= |args| then None
    else if args[from] == flag then Some(args[from + 1])
    else ValueOf(args, flag, from + 2)
  }

  /** What the shell reads back: the binary, the two words of the command, and after
      each flag its own value. */
  lemma RespawnValues(keeperBin: string, name: string, tmuxSession: string, sessionId: string, project: string, words: seq<string>)
    requires Tokens(Join(QuoteAll(RespawnArgs(keeperBin, name, tmuxSession, sessionId, project)))) == Some(words)
    requires AllFine([keeperBin, name, tmuxSession + ":agent", sessionId, project], true)
    ensures |words| == 11 && words[0] == keeperBin && words[1] == "captain" && words[2] == "respawn"
    ensures ValueOf(words, "--name", 3) == Some(name) && ValueOf(words, "--tmux", 3) == Some(tmuxSession + ":agent")
    ensures ValueOf(words, "--session-id", 3) == Some(sessionId) && ValueOf(words, "--project", 3) == Some(project)
  {
    AgentText(tmuxSession);
    RespawnRoundTrip(keeperBin, name, tmuxSession, sessionId, project);
    ArgsValues(keeperBin, name, tmuxSession, sessionId, project, words);
  }

  lemma AgentText(session: string)
    ensures session + ":" + WINDOW_AGENT == session + ":agent"
  {
    assert ":" + WINDOW_AGENT == ":agent";
    assert session + ":" + WINDOW_AGENT == session + (":" + WINDOW_AGENT);
  }

  lemma ArgsValues(keeperBin: string, name: string, tmuxSession: string, sessionId: string, project: string, words: seq<string>)
    requires words == RespawnArgs(keeperBin, name, tmuxSession, sessionId, project)
    ensures |words| == 11 && words[0] == keeperBin && words[1] == "captain" && words[2] == "respawn"
    ensures ValueOf(words, "--name", 3) == Some(name) && ValueOf(words, "--tmux", 3) == Some(tmuxSession + ":agent")
    ensures ValueOf(words, "--session-id", 3) == Some(sessionId) && ValueOf(words, "--project", 3) == Some(project)
  {
    AgentText(tmuxSession);
    FlagsAt(words);
  }

  lemma FlagsAt(words: seq<string>)
    requires |words| == 11 && words[3] == "--name" && words[5] == "--tmux" && words[7] == "--session-id" && words[9] == "--project"
    ensures ValueOf(words, "--name", 3) == Some(words[4]) && ValueOf(words, "--tmux", 3) == Some(words[6])
    ensures ValueOf(words, "--session-id", 3) == Some(words[8]) && ValueOf(words, "--project", 3) == Some(words[10])
  {
    assert "--name"[2] == 'n' && "--tmux"[2] == 't' && "--session-id"[2] == 's' && "--project"[2] == 'p';
    assert ValueOf(words, "--tmux", 3) == ValueOf(words, "--tmux", 5);
    assert ValueOf(words, "--session-id", 3) == ValueOf(words, "--session-id", 5) == ValueOf(words, "--session-id", 7);
    assert ValueOf(words, "--project", 3) == ValueOf(words, "--project", 5) == ValueOf(words, "--project", 7) == ValueOf(words, "--project", 9);
  }
}
