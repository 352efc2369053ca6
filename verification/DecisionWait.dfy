/** `harmonik decisions wait` (decisionsBlockedWait): arm a subscription, scan the
    event log, then read the stream until the decision has a terminal. */
module DecisionWait {
  import opened Results

  datatype Body =
    | Resolved(decision: string, option: string)
    | Withdrawn(decision: string, reason: string)
    | Undecodable            // a decision event whose payload does not decode
    | Unrelated              // any other event type

  datatype Event = Event(id: nat, body: Body)

  datatype Terminal = Chosen(option: string) | Dropped(reason: string)

  function TerminalOf(e: Event, d: string): Option<Terminal> {
    match e.body
    case Resolved(decision, option) => if decision != d then None else Some(Chosen(option))
    case Withdrawn(decision, reason) => if decision != d then None else Some(Dropped(reason))
    case Undecodable => None
    case Unrelated => None
  }

  /** The first terminal for d in a list of events. */
  function FirstTerminal(events: seq<Event>, d: string): Option<Terminal> {
    if events == [] then None
    else
      var before := FirstTerminal(events[..|events| - 1], d);
      if before.Some? then before else TerminalOf(events[|events| - 1], d)
  }

  function IdsOf(events: seq<Event>): set<nat> {
    set e | e in events :: e.id
  }

  /** The events left when every one whose id was seen before is skipped. */
  function Fresh(events: seq<Event>): seq<Event> {
    if events == [] then []
    else
      var init, e := events[..|events| - 1], events[|events| - 1];
      Fresh(init) + if e.id in IdsOf(init) then [] else [e]
  }

  /** Equal ids mean one event delivered again. */
  ghost predicate Redelivered(events: seq<Event>) {
    forall e, f :: e in events && f in events && e.id == f.id ==> e == f
  }

  lemma IdsSnoc(events: seq<Event>, e: Event)
    ensures IdsOf(events + [e]) == IdsOf(events) + {e.id}
  {
    forall id | id in IdsOf(events) + {e.id} ensures id in IdsOf(events + [e]) {
      if id == e.id {
        assert e in events + [e];
      } else {
        var x :| x in events && x.id == id;
        assert x in events + [e];
      }
    }
  }

  method TerminalInLog(log: seq<Event>, d: string) returns (r: Option<Terminal>)
    ensures r == FirstTerminal(Fresh(log), d)
  {
    var seen: set<nat> := {};
    for i := 0 to |log|
      invariant seen == IdsOf(log[..i])
      invariant FirstTerminal(Fresh(log[..i]), d) == None
    {
      FreshStep(log, i, d);
      var evt := log[i];
      if evt.id !in seen {
        var term := TerminalOf(evt, d);
        if term.Some? {
          return term;
        }
      }
      seen := seen + {evt.id};
    }
    assert log[..|log|] == log;
    r := None;
  }

  lemma FreshStep(log: seq<Event>, i: nat, d: string)
    requires i < |log| && FirstTerminal(Fresh(log[..i]), d) == None
    ensures IdsOf(log[..i + 1]) == IdsOf(log[..i]) + {log[i].id}
    ensures FirstTerminal(Fresh(log[..i + 1]), d) == if log[i].id in IdsOf(log[..i]) then None else TerminalOf(log[i], d)
    ensures FirstTerminal(Fresh(log[..i + 1]), d).Some? ==>
      FirstTerminal(Fresh(log), d) == FirstTerminal(Fresh(log[..i + 1]), d)
  {
    assert log[..i + 1] == log[..i] + [log[i]];
    FreshAppend(log[..i], log[i], d);
    FreshStays(log, i + 1, d);
  }

  lemma FreshStays(log: seq<Event>, k: nat, d: string)
    requires k <= |log|
    ensures FirstTerminal(Fresh(log[..k]), d).Some? ==> FirstTerminal(Fresh(log), d) == FirstTerminal(Fresh(log[..k]), d)
  {
    assert log == log[..k] + log[k..];
    if FirstTerminal(Fresh(log[..k]), d).Some? {
      FreshPrefix(log[..k], log[k..], d);
    }
  }

  lemma FreshAppend(log: seq<Event>, e: Event, d: string)
    requires FirstTerminal(Fresh(log), d) == None
    ensures IdsOf(log + [e]) == IdsOf(log) + {e.id}
    ensures FirstTerminal(Fresh(log + [e]), d) == if e.id in IdsOf(log) then None else TerminalOf(e, d)
  {
    assert (log + [e])[..|log|] == log;
    IdsSnoc(log, e);
    if e.id in IdsOf(log) {
      assert Fresh(log + [e]) == Fresh(log);
    } else {
      assert Fresh(log + [e]) == Fresh(log) + [e];
      FirstTerminalConcat(Fresh(log), [e], d);
      assert [e][..0] == [];
    }
  }

  lemma {:induction false} FirstTerminalConcat(a: seq<Event>, b: seq<Event>, d: string)
    ensures FirstTerminal(a + b, d) == if FirstTerminal(a, d).Some? then FirstTerminal(a, d) else FirstTerminal(b, d)
  {
    if b == [] {
      assert a + b == a;
    } else {
      var n := |b| - 1;
      assert (a + b)[..|a + b| - 1] == a + b[..n];
      FirstTerminalConcat(a, b[..n], d);
    }
  }

  /** A terminal once found stays the first, whatever follows. */
  lemma {:induction false} FreshPrefix(a: seq<Event>, b: seq<Event>, d: string)
    requires FirstTerminal(Fresh(a), d).Some?
    ensures FirstTerminal(Fresh(a + b), d) == FirstTerminal(Fresh(a), d)
  {
    if b == [] {
      assert a + b == a;
    } else {
      var n := |b| - 1;
      assert (a + b)[..|a + b| - 1] == a + b[..n];
      FreshPrefix(a, b[..n], d);
      var whole := Fresh(a + b);
      var init := Fresh(a + b[..n]);
      if whole != init {
        FirstTerminalConcat(init, [b[n]], d);
      }
    }
  }

  /** Skipping redelivered events does not change which terminal comes first. */
  lemma {:induction false} DedupeHarmless(events: seq<Event>, d: string)
    requires Redelivered(events)
    ensures FirstTerminal(Fresh(events), d) == FirstTerminal(events, d)
    ensures forall e :: e in Fresh(events) <==> e in events
  {
    if events != [] {
      var n := |events| - 1;
      var init, e := events[..n], events[n];
      assert events == init + [e];
      assert e in events && forall f :: f in init ==> f in events;
      DedupeHarmless(init, d);
      if e.id in IdsOf(init) {
        var f :| f in init && f.id == e.id;
        assert f == e;
        assert Fresh(events) == Fresh(init);
        NoneMeansNone(init, d);
      } else {
        FirstTerminalConcat(Fresh(init), [e], d);
      }
    }
  }

  lemma {:induction false} NoneMeansNone(events: seq<Event>, d: string)
    ensures FirstTerminal(events, d) == None <==> forall e :: e in events ==> TerminalOf(e, d) == None
  {
    if events != [] {
      var n := |events| - 1;
      assert events == events[..n] + [events[n]];
      NoneMeansNone(events[..n], d);
    }
  }

  // ---- The stream ----

  datatype Line = Blank | RefusalLine | Garbage | EventLine(event: Event)

  datatype Ending = Eof | Closed | ReadError

  /** How a wait ends. A stream that ends cleanly or is closed is not an answer,
      although it gives exit code 0 too. */
  datatype Outcome = Answered(terminal: Terminal) | Refused | Ended | Failed

  function ExitCode(o: Outcome): int {
    match o
    case Answered(_) => 0
    case Ended => 0
    case Refused => 1
    case Failed => 1
  }

  function AtEnd(ending: Ending): Outcome {
    if ending.ReadError? then Failed else Ended
  }

  function StreamOutcome(seen: set<nat>, lines: seq<Line>, ending: Ending, d: string): Outcome
    decreases |lines|
  {
    if lines == [] then AtEnd(ending)
    else match lines[0]
      case Blank => StreamOutcome(seen, lines[1..], ending, d)
      case RefusalLine => Refused
      case Garbage => StreamOutcome(seen, lines[1..], ending, d)
      case EventLine(e) =>
        if e.id in seen then StreamOutcome(seen, lines[1..], ending, d)
        else if TerminalOf(e, d).Some? then Answered(TerminalOf(e, d).value)
        else StreamOutcome(seen + {e.id}, lines[1..], ending, d)
  }

  /** What an armed wait comes to: the log's terminal if it has one, else the stream's outcome. */
  function WaitOutcome(log: seq<Event>, lines: seq<Line>, ending: Ending, d: string): Outcome {
    var t := FirstTerminal(Fresh(log), d);
    if t.Some? then Answered(t.value) else StreamOutcome({}, lines, ending, d)
  }

  /** arm: None when the subscribe request was written, else the exit code. */
  method BlockedWait(arm: Option<int>, log: seq<Event>, lines: seq<Line>, ending: Ending, d: string)
    returns (code: int, outcome: Option<Outcome>)
    ensures arm.Some? ==> code == arm.value && outcome == None
    ensures arm.None? ==> outcome.Some? && code == ExitCode(outcome.value)
    ensures arm.None? ==> outcome.value == WaitOutcome(log, lines, ending, d)
  {
    if arm.Some? {
      return arm.value, None;
    }
    var term := TerminalInLog(log, d);
    if term.Some? {
      return 0, Some(Answered(term.value));
    }
    var seen: set<nat> := {};
    for i := 0 to |lines|
      invariant StreamOutcome({}, lines, ending, d) == StreamOutcome(seen, lines[i..], ending, d)
    {
      assert lines[i..][1..] == lines[i + 1..];
      match lines[i] {
        case Blank =>
        case Garbage =>
        case RefusalLine =>
          return 1, Some(Refused);
        case EventLine(e) =>
          if e.id in seen {
            continue;
          }
          seen := seen + {e.id};
          var t := TerminalOf(e, d);
          if t.Some? {
            return 0, Some(Answered(t.value));
          }
      }
    }
    if ending.ReadError? {
      return 1, Some(Failed);
    }
    return 0, Some(Ended);
  }

  function EventLines(events: seq<Event>): seq<Line> {
    seq(|events|, i requires 0 <= i < |events| => EventLine(events[i]))
  }

  /** A stream of events answers with its first terminal, and ends without an
      answer exactly when it has none. */
  lemma {:induction false} StreamAnswers(seen: set<nat>, events: seq<Event>, ending: Ending, d: string)
    requires Redelivered(events)
    requires forall e :: e in events && e.id in seen ==> TerminalOf(e, d) == None
    ensures StreamOutcome(seen, EventLines(events), ending, d) ==
      if FirstTerminal(events, d).Some? then Answered(FirstTerminal(events, d).value) else AtEnd(ending)
    decreases |events|
  {
    if events != [] {
      var e, rest := events[0], events[1..];
      assert events == [e] + rest;
      assert e in events && forall f :: f in rest ==> f in events;
      assert EventLines(events)[1..] == EventLines(rest);
      FirstTerminalConcat([e], rest, d);
      assert [e][..0] == [];
      if e.id in seen || TerminalOf(e, d).None? {
        StreamAnswers(if e.id in seen then seen else seen + {e.id}, rest, ending, d);
      }
    }
  }

  // ---- The outcomes, told from the log and the lines ----

  /** The event ends the decision with t: it was resolved with that option, or
      withdrawn for that reason. */
  predicate Terminates(e: Event, d: string, t: Terminal) {
    (e.body.Resolved? && e.body.decision == d && t == Chosen(e.body.option))
    || (e.body.Withdrawn? && e.body.decision == d && t == Dropped(e.body.reason))
  }

  lemma TerminatesIs(e: Event, d: string, t: Terminal)
    ensures Terminates(e, d, t) <==> TerminalOf(e, d) == Some(t)
  {
  }

  /** The i-th line has an event that no earlier line had. */
  predicate NewLineAt(lines: seq<Line>, i: nat) {
    i < |lines| && lines[i].EventLine? && forall j :: 0 <= j < i && lines[j].EventLine? ==> lines[j].event.id != lines[i].event.id
  }

  predicate AnswersAt(lines: seq<Line>, d: string, i: nat, t: Terminal) {
    NewLineAt(lines, i) && Terminates(lines[i].event, d, t)
  }

  ghost predicate StopsAt(lines: seq<Line>, d: string, i: nat) {
    i < |lines| && (lines[i].RefusalLine? || exists t :: AnswersAt(lines, d, i, t))
  }

  /** The first line that ends the wait is the i-th. */
  ghost predicate FirstStop(lines: seq<Line>, d: string, i: nat) {
    StopsAt(lines, d, i) && forall j: nat :: j < i ==> !StopsAt(lines, d, j)
  }

  /** The outcome that a stream must have. */
  ghost predicate StreamEnds(lines: seq<Line>, ending: Ending, d: string, o: Outcome) {
    if exists i: nat :: StopsAt(lines, d, i) then
      exists i: nat :: FirstStop(lines, d, i)
        && if lines[i].RefusalLine? then o == Refused else o.Answered? && AnswersAt(lines, d, i, o.terminal)
    else o == if ending.ReadError? then Failed else Ended
  }

  lemma SeenAfter(done: seq<Line>, line: Line)
    ensures line.EventLine? ==> SeenIn(done + [line]) == SeenIn(done) + {line.event.id}
    ensures !line.EventLine? ==> SeenIn(done + [line]) == SeenIn(done)
  {
    var all := done + [line];
    assert all[|done|] == line;
    forall id ensures id in SeenIn(all) <==> id in SeenIn(done) || (line.EventLine? && id == line.event.id) {
      if id in SeenIn(done) {
        var i :| 0 <= i < |done| && done[i].EventLine? && done[i].event.id == id;
        assert all[i] == done[i];
      }
      if id in SeenIn(all) {
        var i :| 0 <= i < |all| && all[i].EventLine? && all[i].event.id == id;
        assert i < |done| ==> all[i] == done[i];
      }
    }
  }

  function SeenIn(lines: seq<Line>): set<nat> {
    set i | 0 <= i < |lines| && lines[i].EventLine? :: lines[i].event.id
  }

  lemma NewIsUnseen(lines: seq<Line>, i: nat)
    requires i < |lines| && lines[i].EventLine?
    ensures NewLineAt(lines, i) <==> lines[i].event.id !in SeenIn(lines[..i])
  {
    if lines[i].event.id in SeenIn(lines[..i]) {
      var j :| 0 <= j < i && lines[..i][j].EventLine? && lines[..i][j].event.id == lines[i].event.id;
      assert lines[j] == lines[..i][j];
    }
    if lines[i].event.id !in SeenIn(lines[..i]) {
      forall j | 0 <= j < i && lines[j].EventLine? ensures lines[j].event.id != lines[i].event.id {
        assert lines[..i][j] == lines[j];
      }
    }
  }

  lemma StopsWhen(lines: seq<Line>, d: string, i: nat)
    requires i < |lines|
    ensures StopsAt(lines, d, i) <==>
      lines[i].RefusalLine?
      || (lines[i].EventLine? && lines[i].event.id !in SeenIn(lines[..i]) && TerminalOf(lines[i].event, d).Some?)
  {
    if lines[i].EventLine? {
      NewIsUnseen(lines, i);
      if TerminalOf(lines[i].event, d).Some? {
        TerminatesIs(lines[i].event, d, TerminalOf(lines[i].event, d).value);
        assert NewLineAt(lines, i) ==> AnswersAt(lines, d, i, TerminalOf(lines[i].event, d).value);
      }
      if t :| AnswersAt(lines, d, i, t) {
        TerminatesIs(lines[i].event, d, t);
      }
    }
  }

  lemma {:induction false} StreamFrom(lines: seq<Line>, ending: Ending, d: string, n: nat)
    requires n <= |lines| && forall j: nat :: j < n ==> !StopsAt(lines, d, j)
    ensures StreamEnds(lines, ending, d, StreamOutcome(SeenIn(lines[..n]), lines[n..], ending, d))
    decreases |lines| - n
  {
    if n < |lines| {
      StopsWhen(lines, d, n);
      assert lines[n..][1..] == lines[n + 1..] && lines[n..][0] == lines[n];
      if StopsAt(lines, d, n) {
        assert FirstStop(lines, d, n);
        if lines[n].EventLine? {
          NewIsUnseen(lines, n);
          TerminatesIs(lines[n].event, d, TerminalOf(lines[n].event, d).value);
        }
      } else {
        assert lines[..n + 1] == lines[..n] + [lines[n]];
        SeenAfter(lines[..n], lines[n]);
        if lines[n].EventLine? && lines[n].event.id in SeenIn(lines[..n]) {
          assert SeenIn(lines[..n + 1]) == SeenIn(lines[..n]);
        }
        StreamFrom(lines, ending, d, n + 1);
      }
    }
  }

  /** Every armed wait: it answers with the first event of the log, each counted once,
      that resolves or withdraws the decision; when there is none, the first refusal or
      such event of the stream decides, and a stream without either just ends. */
  lemma WaitEnds(log: seq<Event>, lines: seq<Line>, ending: Ending, d: string)
    ensures var o := WaitOutcome(log, lines, ending, d);
      && (if exists i: nat :: StopsAt(EventLines(log), d, i) then StreamEnds(EventLines(log), ending, d, o)
          else StreamEnds(lines, ending, d, o))
      && (ExitCode(o) == if o.Refused? || o.Failed? then 1 else 0)
  {
    assert SeenIn(lines[..0]) == {} && lines[0..] == lines;
    StreamFrom(lines, ending, d, 0);
    LogIsAStream(log, ending, d);
  }

  /** The log scan is the stream of its events. */
  lemma LogIsAStream(log: seq<Event>, ending: Ending, d: string)
    ensures var t, all := FirstTerminal(Fresh(log), d), EventLines(log);
      && (t.Some? <==> exists i: nat :: StopsAt(all, d, i))
      && (t.Some? ==> StreamEnds(all, ending, d, Answered(t.value)))
  {
    ScanIsStream(log, ending, d);
    assert EventLines(log)[0..] == EventLines(log) && SeenIn(EventLines(log)[..0]) == {};
    StreamFrom(EventLines(log), ending, d, 0);
  }

  lemma {:induction false} ScanIsStream(log: seq<Event>, ending: Ending, d: string)
    ensures StreamOutcome({}, EventLines(log), ending, d) ==
      var t := FirstTerminal(Fresh(log), d); if t.Some? then Answered(t.value) else AtEnd(ending)
  {
    assert EventLines(log)[0..] == EventLines(log);
    assert IdsOf(log[..0]) == {};
    ScanFrom(log, ending, d, 0);
  }

  lemma {:induction false} ScanFrom(log: seq<Event>, ending: Ending, d: string, n: nat)
    requires n <= |log| && FirstTerminal(Fresh(log[..n]), d) == None
    ensures StreamOutcome(IdsOf(log[..n]), EventLines(log)[n..], ending, d) ==
      var t := FirstTerminal(Fresh(log), d); if t.Some? then Answered(t.value) else AtEnd(ending)
    decreases |log| - n
  {
    if n == |log| {
      assert log[..n] == log;
    } else {
      FreshStep(log, n, d);
      assert EventLines(log)[n..][1..] == EventLines(log)[n + 1..] && EventLines(log)[n..][0] == EventLine(log[n]);
      if FirstTerminal(Fresh(log[..n + 1]), d).None? {
        if log[n].id in IdsOf(log[..n]) {
          assert IdsOf(log[..n + 1]) == IdsOf(log[..n]);
        }
        ScanFrom(log, ending, d, n + 1);
      }
    }
  }
}
