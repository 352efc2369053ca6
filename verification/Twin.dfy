/** The session twin's line handler (cmd/harmonik-twin-session): commands, handoff
    nonces, token growth and session rotation. */
module Twin {
  import opened Results
  import opened Texts

  // ---- Recognising lines ----

  predicate Contains(s: string, sub: string) {
    sub <= s || (s != "" && Contains(s[1..], sub))
  }

  const HANDOFF := "/session-handoff"
  const CLEAR := "/clear"
  const RESUME := "/session-resume"
  const NONCE_OPEN := "<!-- KEEPER:"

  function IndexOf(s: string, c: char, i: nat): (k: nat)
    requires i <= |s|
    ensures i <= k <= |s| && (k < |s| ==> s[k] == c) && forall j :: i <= j < k ==> s[j] != c
    decreases |s| - i
  {
    if i == |s| || s[i] == c then i else IndexOf(s, c, i + 1)
  }

  /** The first text of the form <!-- KEEPER: ... --> with no '>' inside. */
  function FindNonce(s: string, i: nat): Option<string>
    requires i <= |s|
    decreases |s| - i
  {
    if i == |s| then None
    else
      var body := i + |NONCE_OPEN|;
      var close := if body <= |s| then IndexOf(s, '>', body) else |s|;
      if NONCE_OPEN <= s[i..] && close < |s| && body + 2 <= close && s[close - 2..close] == "--" then Some(s[i..close + 1])
      else FindNonce(s, i + 1)
  }

  function Nonce(line: string): Option<string> {
    FindNonce(line, 0)
  }

  datatype Kind = Blank | Handoff | Clear | Resume | Other

  /** The first command, in the handler's order of tests. */
  function KindOf(line: string): Kind {
    if TrimSpace(line) == "" then Blank
    else if Contains(line, HANDOFF) then Handoff
    else if Contains(line, CLEAR) then Clear
    else if Contains(line, RESUME) then Resume
    else Other
  }

  // ---- The state and one line ----

  /** `file` is the handoff file's text, "" when there is none. */
  datatype Session = Session(tokens: int, start: int, id: string, seen: set<string>, armed: bool, file: string)

  /** A line, with the id that a rotation would give and whether the handoff file can
      be written; or a growth tick. */
  datatype Input = Line(text: string, newId: string, writable: bool) | Tick(delta: int)

  function Appended(file: string, nonce: string): string {
    (if file != "" && file[|file| - 1] != '\n' then file + "\n" else file) + nonce + "\n"
  }

  /** A nonce disarms; only its first sight is written. A failed write is not retried. */
  function Take(s: Session, text: string, writable: bool): Session {
    match Nonce(text)
    case None => s
    case Some(nonce) =>
      if nonce in s.seen then s.(armed := false)
      else s.(armed := false, seen := s.seen + {nonce}, file := if writable then Appended(s.file, nonce) else s.file)
  }

  function Next(s: Session, input: Input): Session {
    match input
    case Tick(delta) => s.(tokens := s.tokens + delta)
    case Line(text, newId, writable) =>
      match KindOf(text)
      case Blank => s
      case Handoff => Take(s.(armed := true), text, writable)
      case Clear => if s.tokens <= s.start then s.(armed := false) else s.(armed := false, tokens := s.start, id := newId)
      case Resume => s.(armed := false)
      case Other => if s.armed then Take(s, text, writable) else s
  }

  /** Does this input rotate the session? */
  predicate Rotates(s: Session, input: Input) {
    input.Line? && KindOf(input.text).Clear? && s.tokens > s.start
  }

  class TwinState {
    var tokens: int
    var sessionID: string
    const startTokens: int
    var seen: set<string>
    var handoffArmed: bool
    var file: string

    constructor (startTokens: int, sessionID: string, file: string)
      ensures State() == Session(startTokens, startTokens, sessionID, {}, false, file)
    {
      this.tokens, this.startTokens := startTokens, startTokens;
      this.sessionID, this.seen, this.handoffArmed, this.file := sessionID, {}, false, file;
    }

    function State(): Session
      reads this
    {
      Session(tokens, startTokens, sessionID, seen, handoffArmed, file)
    }

    method Grow(delta: int)
      modifies this
      ensures State() == Next(old(State()), Tick(delta))
    {
      tokens := tokens + delta;
    }

    /** True when the session was rotated. */
    method HandleLine(line: string, newId: string, writable: bool) returns (rotated: bool)
      modifies this
      ensures State() == Next(old(State()), Line(line, newId, writable))
      ensures rotated == Rotates(old(State()), Line(line, newId, writable))
    {
      if TrimSpace(line) == "" {
        return false;
      }
      if Contains(line, HANDOFF) {
        handoffArmed := true;
        TryWriteNonce(line, writable);
        return false;
      } else if Contains(line, CLEAR) {
        handoffArmed := false;
        if tokens <= startTokens {
          return false;
        }
        tokens := startTokens;
        sessionID := newId;
        return true;
      } else if Contains(line, RESUME) {
        handoffArmed := false;
        return false;
      } else {
        if handoffArmed {
          TryWriteNonce(line, writable);
        }
        return false;
      }
    }

    method TryWriteNonce(line: string, writable: bool)
      modifies this
      ensures State() == Take(old(State()), line, writable)
    {
      var m := Nonce(line);
      if m.None? {
        return;
      }
      handoffArmed := false;
      if m.value in seen {
        return;
      }
      seen := seen + {m.value};
      if writable {
        WriteHandoffNonce(m.value);
      }
    }

    method WriteHandoffNonce(nonce: string)
      modifies this`file
      ensures file == Appended(old(file), nonce)
    {
      var body := file;
      if body != "" && body[|body| - 1] != '\n' {
        body := body + "\n";
      }
      file := body + nonce + "\n";
    }
  }

  // ---- Runs ----

  function Run(s: Session, inputs: seq<Input>): Session
    decreases |inputs|
  {
    if inputs == [] then s else Run(Next(s, inputs[0]), inputs[1..])
  }

  lemma {:induction false} RunConcat(s: Session, a: seq<Input>, b: seq<Input>)
    ensures Run(s, a + b) == Run(Run(s, a), b)
    decreases |a|
  {
    if a == [] {
      assert a + b == b;
    } else {
      assert (a + b)[1..] == a[1..] + b;
      RunConcat(Next(s, a[0]), a[1..], b);
    }
  }

  /** The nonce that an input newly takes, if any. */
  function Taken(s: Session, input: Input): Option<string> {
    if input.Line? && (KindOf(input.text).Handoff? || (KindOf(input.text).Other? && s.armed))
       && Nonce(input.text).Some? && Nonce(input.text).value !in s.seen
    then Nonce(input.text) else None
  }

  /** The nonces written over a run, in order. */
  function Writes(s: Session, inputs: seq<Input>): seq<string>
    decreases |inputs|
  {
    if inputs == [] then []
    else
      var nonce := Taken(s, inputs[0]);
      (if nonce.Some? && inputs[0].writable then [nonce.value] else []) + Writes(Next(s, inputs[0]), inputs[1..])
  }

  function AppendedAll(file: string, nonces: seq<string>): string
    decreases |nonces|
  {
    if nonces == [] then file else AppendedAll(Appended(file, nonces[0]), nonces[1..])
  }

  lemma TakenIs(s: Session, input: Input)
    ensures var nonce := Taken(s, input);
      && Next(s, input).seen == s.seen + (if nonce.Some? then {nonce.value} else {})
      && Next(s, input).file == (if nonce.Some? && input.writable then Appended(s.file, nonce.value) else s.file)
      && (nonce.Some? ==> nonce.value !in s.seen)
  {
  }

  ghost predicate NoRepeat(nonces: seq<string>) {
    forall i, j :: 0 <= i < j < |nonces| ==> nonces[i] != nonces[j]
  }

  /** For every sequence of lines and ticks: the handoff file is the old file with
      each written nonce appended, and no nonce is written twice, nor one that was
      already seen. */
  lemma {:induction false} EachNonceOnce(s: Session, inputs: seq<Input>)
    ensures Run(s, inputs).file == AppendedAll(s.file, Writes(s, inputs))
    ensures NoRepeat(Writes(s, inputs))
    ensures forall i :: 0 <= i < |Writes(s, inputs)| ==> Writes(s, inputs)[i] !in s.seen && Writes(s, inputs)[i] in Run(s, inputs).seen
    ensures s.seen <= Run(s, inputs).seen
    decreases |inputs|
  {
    if inputs != [] {
      TakenIs(s, inputs[0]);
      EachNonceOnce(Next(s, inputs[0]), inputs[1..]);
      var nonce, rest := Taken(s, inputs[0]), Writes(Next(s, inputs[0]), inputs[1..]);
      if nonce.Some? && inputs[0].writable {
        NoRepeatCons(nonce.value, rest);
      } else {
        assert [] + rest == rest;
      }
    }
  }

  lemma NoRepeatCons(nonce: string, rest: seq<string>)
    requires NoRepeat(rest) && nonce !in rest
    ensures NoRepeat([nonce] + rest) && ([nonce] + rest)[1..] == rest
    ensures forall i :: 0 <= i < |[nonce] + rest| ==> ([nonce] + rest)[i] == nonce || ([nonce] + rest)[i] in rest
  {
    var all := [nonce] + rest;
    forall i, j | 0 <= i < j < |all| ensures all[i] != all[j] {
      assert all[j] == rest[j - 1];
    }
  }

  // ---- Rotation ----

  /** What the ticks of a run add up to. */
  function Grown(inputs: seq<Input>): int {
    if inputs == [] then 0
    else Grown(inputs[..|inputs| - 1]) + (if inputs[|inputs| - 1].Tick? then inputs[|inputs| - 1].delta else 0)
  }

  /** Where in a run the session was last rotated; -1 when it was not. */
  function LastRotation(s: Session, inputs: seq<Input>): (k: int)
    ensures -1 <= k < |inputs|
    ensures k >= 0 ==> Rotates(Run(s, inputs[..k]), inputs[k])
    ensures forall j :: k < j < |inputs| ==> !Rotates(Run(s, inputs[..j]), inputs[j])
    decreases |inputs|
  {
    if inputs == [] then -1
    else
      var n := |inputs| - 1;
      assert forall j :: 0 <= j < n ==> inputs[..n][..j] == inputs[..j] && inputs[..n][j] == inputs[j];
      if Rotates(Run(s, inputs[..n]), inputs[n]) then n else LastRotation(s, inputs[..n])
  }

  lemma RunSnoc(s: Session, inputs: seq<Input>)
    requires inputs != []
    ensures Run(s, inputs) == Next(Run(s, inputs[..|inputs| - 1]), inputs[|inputs| - 1])
  {
    var n := |inputs| - 1;
    assert inputs == inputs[..n] + [inputs[n]];
    RunConcat(s, inputs[..n], [inputs[n]]);
    assert [inputs[n]][1..] == [];
    assert Run(Run(s, inputs[..n]), [inputs[n]]) == Run(Next(Run(s, inputs[..n]), inputs[n]), []);
  }

  /** The id is the one that the rotation at k gave, and the tokens are what the ticks
      added since then, counted from the start value; k is -1 before any rotation. */
  ghost predicate CountsFrom(s: Session, inputs: seq<Input>, k: int, s': Session) {
    && -1 <= k < |inputs| && (k >= 0 ==> inputs[k].Line?) && s'.start == s.start
    && s'.id == (if k < 0 then s.id else inputs[k].newId)
    && s'.tokens == (if k < 0 then s.tokens + Grown(inputs) else s.start + Grown(inputs[k + 1..]))
  }

  /** One input rotates, or only a tick counts. */
  ghost predicate Counted(s: Session, input: Input, rotates: bool, s': Session) {
    && s'.start == s.start && (rotates ==> input.Line?)
    && s'.id == (if rotates then input.newId else s.id)
    && s'.tokens == (if rotates then s.start else s.tokens + if input.Tick? then input.delta else 0)
  }

  lemma NextCounts(s: Session, input: Input)
    ensures Counted(s, input, Rotates(s, input), Next(s, input))
  {
  }

  lemma CountsStep(s: Session, inputs: seq<Input>, k: int, before: Session, rotates: bool, after: Session)
    requires inputs != [] && CountsFrom(s, inputs[..|inputs| - 1], k, before)
    requires Counted(before, inputs[|inputs| - 1], rotates, after)
    ensures CountsFrom(s, inputs, if rotates then |inputs| - 1 else k, after)
  {
    if rotates {
      assert inputs[|inputs|..] == [];
    } else if k >= 0 {
      GrownSince(inputs, k + 1);
    }
  }

  lemma GrownSince(inputs: seq<Input>, k: nat)
    requires k < |inputs|
    ensures var n := |inputs| - 1;
      Grown(inputs[k..]) == Grown(inputs[..n][k..]) + if inputs[n].Tick? then inputs[n].delta else 0
  {
    var n := |inputs| - 1;
    assert inputs[k..][..n - k] == inputs[..n][k..];
  }

  /** For every sequence of lines and ticks, from any state. */
  lemma {:induction false} RunCounts(s: Session, inputs: seq<Input>)
    ensures CountsFrom(s, inputs, LastRotation(s, inputs), Run(s, inputs))
    decreases |inputs|
  {
    if inputs != [] {
      var n := |inputs| - 1;
      var before := Run(s, inputs[..n]);
      RunCounts(s, inputs[..n]);
      RunSnoc(s, inputs);
      NextCounts(before, inputs[n]);
      CountsStep(s, inputs, LastRotation(s, inputs[..n]), before, Rotates(before, inputs[n]), Next(before, inputs[n]));
    }
  }

  /** After any run of a new session, a /clear rotates exactly when the ticks since the
      last rotation, or since the start, add up to more than nothing; it then gives its
      own id. No other input changes the id. */
  lemma RotatesExactly(s: Session, inputs: seq<Input>, input: Input)
    requires s.tokens == s.start
    ensures var before, grown := Run(s, inputs), Grown(inputs[LastRotation(s, inputs) + 1..]);
      && (Rotates(before, input) <==> input.Line? && KindOf(input.text).Clear? && grown > 0)
      && Run(s, inputs + [input]).id == if Rotates(before, input) then input.newId else before.id
  {
    RunCounts(s, inputs);
    RotatesWhenGrown(s, inputs, LastRotation(s, inputs), Run(s, inputs), input);
    RunSnoc(s, inputs + [input]);
    assert (inputs + [input])[..|inputs|] == inputs;
    NextCounts(Run(s, inputs), input);
  }

  lemma RotatesWhenGrown(s: Session, inputs: seq<Input>, k: int, before: Session, input: Input)
    requires s.tokens == s.start && CountsFrom(s, inputs, k, before)
    ensures Rotates(before, input) <==> input.Line? && KindOf(input.text).Clear? && Grown(inputs[k + 1..]) > 0
  {
    if k < 0 {
      assert inputs[0..] == inputs;
    }
  }

  ghost predicate NoTick(inputs: seq<Input>) {
    forall i :: 0 <= i < |inputs| ==> inputs[i].Line?
  }

  lemma LineBelow(s: Session, input: Input)
    requires input.Line? && s.tokens <= s.start
    ensures Next(s, input).id == s.id && Next(s, input).tokens == s.tokens && Next(s, input).start == s.start
  {
  }

  /** After a rotation there is none until the tokens grow: without a tick, a session
      at or below its start value keeps its id and its tokens. */
  lemma {:induction false} NoRotationWithoutGrowth(s: Session, inputs: seq<Input>)
    requires NoTick(inputs) && s.tokens <= s.start
    ensures Run(s, inputs).id == s.id && Run(s, inputs).tokens == s.tokens && Run(s, inputs).start == s.start
    decreases |inputs|
  {
    if inputs != [] {
      LineBelow(s, inputs[0]);
      NoRotationWithoutGrowth(Next(s, inputs[0]), Rest(inputs));
    }
  }

  // ---- Redelivery ----

  /** The flag after a line depends on the flag and the line alone. */
  function ArmedNext(armed: bool, text: string): bool {
    match KindOf(text)
    case Blank => armed
    case Handoff => Nonce(text).None?
    case Clear => false
    case Resume => false
    case Other => armed && Nonce(text).None?
  }

  function ArmedAfter(armed: bool, inputs: seq<Input>): bool
    requires NoTick(inputs)
    decreases |inputs|
  {
    if inputs == [] then armed else ArmedAfter(ArmedNext(armed, inputs[0].text), Rest(inputs))
  }

  function Rest(inputs: seq<Input>): (r: seq<Input>)
    requires inputs != [] && NoTick(inputs)
    ensures NoTick(r) && r == inputs[1..]
  {
    assert forall i :: 0 <= i < |inputs[1..]| ==> inputs[1..][i] == inputs[i + 1];
    inputs[1..]
  }

  /** The nonces that the lines present while the handler looks for one. */
  function Offered(armed: bool, inputs: seq<Input>): set<string>
    requires NoTick(inputs)
    decreases |inputs|
  {
    if inputs == [] then {}
    else
      OfferedBy(armed, inputs[0].text) + Offered(ArmedNext(armed, inputs[0].text), Rest(inputs))
  }

  function OfferedBy(armed: bool, text: string): set<string> {
    if (KindOf(text).Handoff? || (KindOf(text).Other? && armed)) && Nonce(text).Some? then {Nonce(text).value} else {}
  }

  predicate HasClear(inputs: seq<Input>) {
    exists i :: 0 <= i < |inputs| && inputs[i].Line? && KindOf(inputs[i].text).Clear?
  }

  lemma HasClearFirst(inputs: seq<Input>)
    requires inputs != [] && NoTick(inputs)
    ensures HasClear(inputs) <==> KindOf(inputs[0].text).Clear? || HasClear(Rest(inputs))
  {
    if HasClear(Rest(inputs)) {
      var i :| 0 <= i < |Rest(inputs)| && KindOf(Rest(inputs)[i].text).Clear?;
      assert inputs[i + 1] == Rest(inputs)[i];
    }
    if HasClear(inputs) && !KindOf(inputs[0].text).Clear? {
      var i :| 0 <= i < |inputs| && KindOf(inputs[i].text).Clear?;
      assert Rest(inputs)[i - 1] == inputs[i];
    }
  }

  lemma LineLeaves(s: Session, input: Input)
    requires input.Line?
    ensures var s' := Next(s, input);
      && s'.armed == ArmedNext(s.armed, input.text) && s'.start == s.start
      && s'.seen == s.seen + OfferedBy(s.armed, input.text)
      && (KindOf(input.text).Clear? || s.tokens <= s.start ==> s'.tokens <= s.start)
  {
  }

  /** What lines leave behind: the flag, the nonces seen before and the offered ones,
      and after a /clear tokens at or below the start value. */
  lemma {:induction false} LinesLeave(s: Session, inputs: seq<Input>)
    requires NoTick(inputs)
    ensures var s' := Run(s, inputs);
      && s'.armed == ArmedAfter(s.armed, inputs) && s'.start == s.start
      && s'.seen == s.seen + Offered(s.armed, inputs)
      && (HasClear(inputs) || s.tokens <= s.start ==> s'.tokens <= s.start)
    decreases |inputs|
  {
    if inputs != [] {
      LineLeaves(s, inputs[0]);
      LinesLeave(Next(s, inputs[0]), Rest(inputs));
      HasClearFirst(inputs);
    }
  }

  /** Lines that offer only seen nonces, and clear nothing, move the flag alone. */
  lemma {:induction false} LinesQuiet(s: Session, inputs: seq<Input>)
    requires NoTick(inputs) && Offered(s.armed, inputs) <= s.seen && (HasClear(inputs) ==> s.tokens <= s.start)
    ensures Run(s, inputs) == s.(armed := ArmedAfter(s.armed, inputs))
    decreases |inputs|
  {
    if inputs != [] {
      HasClearFirst(inputs);
      LinesQuiet(Next(s, inputs[0]), Rest(inputs));
    }
  }

  ghost predicate SameTexts(a: seq<Input>, b: seq<Input>)
    requires NoTick(a) && NoTick(b)
  {
    |a| == |b| && forall i :: 0 <= i < |a| ==> a[i].text == b[i].text
  }

  lemma {:induction false} SameControl(armed: bool, a: seq<Input>, b: seq<Input>)
    requires NoTick(a) && NoTick(b) && SameTexts(a, b)
    ensures ArmedAfter(armed, a) == ArmedAfter(armed, b) && Offered(armed, a) == Offered(armed, b) && (HasClear(a) <==> HasClear(b))
    decreases |a|
  {
    if a != [] {
      SameControl(ArmedNext(armed, a[0].text), Rest(a), Rest(b));
      HasClearFirst(a);
      HasClearFirst(b);
    }
  }

  /** A block that opens with a command, as a handoff block does. */
  ghost predicate OpensWithCommand(inputs: seq<Input>) {
    NoTick(inputs) && inputs != [] && !KindOf(inputs[0].text).Blank? && !KindOf(inputs[0].text).Other?
  }

  lemma CommandForgets(armed: bool, armed': bool, inputs: seq<Input>)
    requires OpensWithCommand(inputs)
    ensures ArmedAfter(armed, inputs) == ArmedAfter(armed', inputs) && Offered(armed, inputs) == Offered(armed', inputs)
  {
  }

  /** A block delivered again without a tick between, whatever ids and write failures
      the second delivery would meet, changes nothing exactly when the flag that the
      first delivery leaves would make the block offer only nonces that are then seen,
      and would be left as it is. Both can be read off the block and the state before
      the first delivery. */
  lemma RedeliveredExactly(s: Session, block: seq<Input>, again: seq<Input>)
    requires NoTick(block) && NoTick(again) && SameTexts(block, again)
    ensures var armed := ArmedAfter(s.armed, block);
      Run(Run(s, block), again) == Run(s, block) <==>
        Offered(armed, block) <= s.seen + Offered(s.armed, block) && ArmedAfter(armed, block) == armed
  {
    var s' := Run(s, block);
    LinesLeave(s, block);
    SameControl(s'.armed, block, again);
    LinesLeave(s', again);
    if Offered(s'.armed, block) <= s'.seen {
      LinesQuiet(s', again);
    }
  }

  /** So a block that opens with a command always has the effect of one delivery. */
  lemma BlockTwiceIsOnce(s: Session, block: seq<Input>, again: seq<Input>)
    requires OpensWithCommand(block) && NoTick(again) && SameTexts(block, again)
    ensures Run(Run(s, block), again) == Run(s, block)
  {
    RedeliveredExactly(s, block, again);
    CommandForgets(s.armed, ArmedAfter(s.armed, block), block);
  }

  function Repeated(block: seq<Input>, k: nat): seq<Input> {
    if k == 0 then [] else Repeated(block, k - 1) + block
  }

  /** Any number of deliveries of a handoff block has the effect of one. */
  lemma {:induction false} BlockRepeatedIsOnce(s: Session, block: seq<Input>, k: nat)
    requires OpensWithCommand(block) && k > 0
    ensures Run(s, Repeated(block, k)) == Run(s, block)
  {
    RunConcat(s, Repeated(block, k - 1), block);
    if k > 1 {
      BlockRepeatedIsOnce(s, block, k - 1);
      BlockTwiceIsOnce(s, block, block);
    }
  }

  /** Any single line delivered again has no further effect, command or not. */
  lemma LineTwiceIsOnce(s: Session, text: string, f: string, w: bool, f': string, w': bool)
    ensures Next(Next(s, Line(text, f, w)), Line(text, f', w')) == Next(s, Line(text, f, w))
  {
    match KindOf(text)
    case Blank =>
    case Handoff => TakeTwice(s.(armed := true), text, w, w');
    case Clear =>
    case Resume =>
    case Other => TakeTwice(s, text, w, w');
  }

  lemma TakeTwice(s: Session, text: string, w: bool, w': bool)
    ensures Take(Take(s, text, w).(armed := true), text, w') ==
      if Nonce(text).Some? then Take(s, text, w) else Take(s, text, w).(armed := true)
  {
  }

  /** A block for which the condition fails: one that shows a nonce before its trigger
      has it taken only when it comes the second time. */
  lemma LateTriggerTakesTwice(s: Session, shown: Input, trigger: Input)
    requires shown.Line? && trigger.Line? && !s.armed
    requires KindOf(shown.text).Other? && Nonce(shown.text).Some? && Nonce(shown.text).value !in s.seen
    requires KindOf(trigger.text).Handoff? && Nonce(trigger.text).None?
    ensures var once := Run(s, [shown, trigger]); var twice := Run(once, [shown, trigger]);
      once.seen == s.seen && Nonce(shown.text).value in twice.seen
  {
    var once := Next(Next(s, shown), trigger);
    assert Next(s, shown) == s && once == s.(armed := true);
    RunPair(s, shown, trigger);
    RunPair(once, shown, trigger);
    TakenIs(once, shown);
    TakenIs(Next(once, shown), trigger);
  }

  lemma RunPair(s: Session, a: Input, b: Input)
    ensures Run(s, [a, b]) == Next(Next(s, a), b)
  {
    assert [a, b][1..] == [b] && [b][1..] == [];
    assert Run(s, [a, b]) == Run(Next(s, a), [b]);
    assert Run(Next(s, a), [b]) == Run(Next(Next(s, a), b), []);
  }

  // ---- What the line patterns mean ----

  predicate OccursAt(s: string, sub: string, i: nat) {
    i + |sub| <= |s| && s[i..i + |sub|] == sub
  }

  lemma {:induction false} ContainsMeans(s: string, sub: string)
    ensures Contains(s, sub) <==> exists i: nat :: OccursAt(s, sub, i)
  {
    if sub <= s {
      assert OccursAt(s, sub, 0);
    } else if s != "" {
      ContainsMeans(s[1..], sub);
      if i: nat :| OccursAt(s[1..], sub, i) {
        assert s[i + 1..i + 1 + |sub|] == s[1..][i..i + |sub|];
        assert OccursAt(s, sub, i + 1);
      }
      if i: nat :| OccursAt(s, sub, i) {
        assert i > 0 && s[i..i + |sub|] == s[1..][i - 1..i - 1 + |sub|];
        assert OccursAt(s[1..], sub, i - 1);
      }
    }
  }

  /** <!-- KEEPER: ... --> with no '>' inside. */
  ghost predicate IsNonce(t: string) {
    exists body: string :: t == "<!-- KEEPER:" + body + "-->" && '>' !in body
  }

  ghost predicate NonceAt(line: string, i: nat, t: string) {
    OccursAt(line, t, i) && IsNonce(t)
  }

  /** The place of the first '>' after the opening text, if a nonce is at i. */
  function CloseOf(s: string, i: nat): nat
    requires i <= |s|
  {
    if i + |NONCE_OPEN| <= |s| then IndexOf(s, '>', i + |NONCE_OPEN|) else |s|
  }

  predicate NonceHere(s: string, i: nat)
    requires i <= |s|
  {
    var body, close := i + |NONCE_OPEN|, CloseOf(s, i);
    NONCE_OPEN <= s[i..] && close < |s| && body + 2 <= close && s[close - 2..close] == "--"
  }

  lemma HereIsNonce(s: string, i: nat)
    requires i <= |s| && NonceHere(s, i)
    ensures NonceAt(s, i, s[i..CloseOf(s, i) + 1])
  {
    var close := CloseOf(s, i);
    var t, body := s[i..close + 1], s[i + |NONCE_OPEN|..close - 2];
    assert s[i..i + |NONCE_OPEN|] == s[i..][..|NONCE_OPEN|];
    assert s[close - 2..close + 1] == s[close - 2..close] + [s[close]] == "-->";
    assert t == s[i..i + |NONCE_OPEN|] + body + s[close - 2..close + 1];
    assert forall k :: 0 <= k < |body| ==> body[k] == s[i + |NONCE_OPEN| + k];
    assert t == "<!-- KEEPER:" + body + "-->" && '>' !in body;
  }

  lemma NonceIsHere(s: string, i: nat, t: string)
    requires NonceAt(s, i, t)
    ensures i < |s| && NonceHere(s, i) && t == s[i..CloseOf(s, i) + 1]
  {
    var body: string :| t == "<!-- KEEPER:" + body + "-->" && '>' !in body;
    assert t == NONCE_OPEN + (body + "-->");
    BodyIsHere(s, i, t, body);
  }

  lemma BodyIsHere(s: string, i: nat, t: string, body: string)
    requires OccursAt(s, t, i) && t == NONCE_OPEN + (body + "-->") && '>' !in body
    ensures i < |s| && NonceHere(s, i) && t == s[i..CloseOf(s, i) + 1]
  {
    var from, close := i + |NONCE_OPEN|, i + |NONCE_OPEN| + |body| + 2;
    assert t == s[i..i + |t|];
    assert forall k :: 0 <= k < |t| ==> t[k] == s[i + k];
    assert s[close] == t[close - i] == '>' && s[close - 1] == t[close - 1 - i] == '-' && s[close - 2] == t[close - 2 - i] == '-';
    forall k | from <= k < close ensures s[k] != '>' {
      assert s[k] == t[k - i];
      if k < close - 2 {
        assert t[k - i] == body[k - from];
      }
    }
    ClosesAt(s, i, close);
    assert s[i..][..|NONCE_OPEN|] == s[i..i + |t|][..|NONCE_OPEN|] == NONCE_OPEN;
  }

  lemma ClosesAt(s: string, i: nat, close: nat)
    requires i + |NONCE_OPEN| + 2 <= close < |s| && s[close] == '>' && s[close - 1] == '-' && s[close - 2] == '-'
    requires forall k :: i + |NONCE_OPEN| <= k < close ==> s[k] != '>'
    ensures CloseOf(s, i) == close && s[close - 2..close] == "--"
  {
  }

  ghost predicate NoneAt(line: string, i: nat) {
    forall t :: !NonceAt(line, i, t)
  }

  /** The nonce at i is the first from `from` on. */
  ghost predicate FirstNonceAt(line: string, from: nat, i: nat, t: string) {
    from <= i && NonceAt(line, i, t) && forall j: nat :: from <= j < i ==> NoneAt(line, j)
  }

  ghost predicate FirstNonce(line: string, from: nat, t: string) {
    exists i: nat :: FirstNonceAt(line, from, i, t)
  }

  lemma NoneHere(s: string, i: nat)
    requires i <= |s| ==> !NonceHere(s, i)
    ensures NoneAt(s, i)
  {
    forall t ensures !NonceAt(s, i, t) {
      if NonceAt(s, i, t) {
        NonceIsHere(s, i, t);
      }
    }
  }

  lemma {:induction false} FindNonceFirst(s: string, from: nat)
    requires from <= |s|
    ensures match FindNonce(s, from)
      case None => forall i: nat :: from <= i ==> NoneAt(s, i)
      case Some(t) => FirstNonce(s, from, t)
    decreases |s| - from
  {
    if from == |s| {
      forall i: nat | from <= i ensures NoneAt(s, i) {
        NoneHere(s, i);
      }
    } else if NonceHere(s, from) {
      HereIsNonce(s, from);
      assert FirstNonceAt(s, from, from, s[from..CloseOf(s, from) + 1]);
      assert FindNonce(s, from) == Some(s[from..CloseOf(s, from) + 1]);
    } else {
      FindNonceFirst(s, from + 1);
      assert FindNonce(s, from) == FindNonce(s, from + 1);
      NoneHere(s, from);
      if FindNonce(s, from).Some? {
        var t := FindNonce(s, from).value;
        var i: nat :| FirstNonceAt(s, from + 1, i, t);
        assert FirstNonceAt(s, from, i, t);
      }
    }
  }

  /** A line yields its first nonce, and none exactly when it contains none. */
  lemma NonceIsFirst(line: string)
    ensures Nonce(line).None? <==> forall i: nat :: NoneAt(line, i)
    ensures forall t :: Nonce(line) == Some(t) ==> FirstNonce(line, 0, t)
  {
    FindNonceFirst(line, 0);
    if Nonce(line).Some? {
      var i: nat :| FirstNonceAt(line, 0, i, Nonce(line).value);
      assert !NoneAt(line, i);
    }
  }

  /** The nonce stands on a line of its own: at the start of the file or after a line
      break, and before one. */
  ghost predicate OwnLine(file: string, nonce: string, i: nat) {
    OccursAt(file, nonce + "\n", i) && (i == 0 || file[i - 1] == '\n')
  }

  lemma AppendedOwnLine(file: string, nonce: string)
    ensures file <= Appended(file, nonce) && exists i: nat :: |file| <= i && OwnLine(Appended(file, nonce), nonce, i)
  {
    var after := Appended(file, nonce);
    var before := if file != "" && file[|file| - 1] != '\n' then file + "\n" else file;
    assert after == before + (nonce + "\n");
    assert OwnLine(after, nonce, |before|);
  }

  lemma OwnLineStays(file: string, longer: string, nonce: string, i: nat)
    requires file <= longer && OwnLine(file, nonce, i)
    ensures OwnLine(longer, nonce, i)
  {
    assert longer[i..i + |nonce + "\n"|] == file[i..i + |nonce + "\n"|];
  }

  /** Over every sequence of lines and ticks the file only grows, and each nonce that is
      written has a line of its own in it. */
  lemma {:induction false} WrittenOnOwnLines(s: Session, inputs: seq<Input>, nonce: string)
    ensures s.file <= Run(s, inputs).file
    ensures nonce in Writes(s, inputs) ==> exists i: nat :: |s.file| <= i && OwnLine(Run(s, inputs).file, nonce, i)
    decreases |inputs|
  {
    if inputs != [] {
      var s1 := Next(s, inputs[0]);
      TakenIs(s, inputs[0]);
      WrittenOnOwnLines(s1, inputs[1..], nonce);
      var taken := Taken(s, inputs[0]);
      if taken.Some? && inputs[0].writable {
        AppendedOwnLine(s.file, taken.value);
        if taken.value == nonce {
          var i: nat :| |s.file| <= i && OwnLine(s1.file, nonce, i);
          OwnLineStays(s1.file, Run(s, inputs).file, nonce, i);
        }
      }
    }
  }

  /** Which command a line is: the first of the three texts that it contains, in this
      order, and none for a line of white space. */
  lemma KindExactly(line: string)
    ensures KindOf(line).Blank? <==> TrimSpace(line) == ""
    ensures KindOf(line).Handoff? <==> TrimSpace(line) != "" && Has(line, "/session-handoff")
    ensures KindOf(line).Clear? <==> TrimSpace(line) != "" && !Has(line, "/session-handoff") && Has(line, "/clear")
    ensures KindOf(line).Resume? <==>
      TrimSpace(line) != "" && !Has(line, "/session-handoff") && !Has(line, "/clear") && Has(line, "/session-resume")
  {
    ContainsMeans(line, "/session-handoff");
    ContainsMeans(line, "/clear");
    ContainsMeans(line, "/session-resume");
  }

  ghost predicate Has(line: string, text: string) {
    exists i: nat :: OccursAt(line, text, i)
  }
}
