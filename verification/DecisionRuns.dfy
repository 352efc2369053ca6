/** Writers, the event log and any number of decision waiters, step by step. */
module DecisionRuns {
  import opened DecisionWait
  import opened Results

  datatype Phase = Idle | Armed | Reading | Done(outcome: Outcome)

  /** One waiter. `registered` is the length of the log when the daemon began to
      queue events for it, `scanned` its length when the waiter read it; `pos` is
      how much of the stream the waiter has taken. */
  datatype Waiter = Waiter(decision: string, phase: Phase, registered: Option<nat>, scanned: Option<nat>,
                           stream: seq<Event>, pos: nat)

  datatype System = System(log: seq<Event>, waiters: seq<Waiter>)

  datatype Step =
    | Write(event: Event)              // an event is appended and fanned out
    | Arm(w: nat)                      // the waiter writes its subscribe request
    | Register(w: nat)                 // the daemon starts queueing for it
    | Scan(w: nat)                     // the waiter scans the log
    | Read(w: nat)                     // the waiter takes the next event
    | Redeliver(w: nat, i: nat)        // an event of the stream is delivered again
    | Stop(w: nat, outcome: Outcome)   // refusal, end of stream or read error

  predicate IsDecision(e: Event) {
    !e.body.Unrelated?
  }

  function Decisions(events: seq<Event>): seq<Event> {
    if events == [] then []
    else
      var e := events[|events| - 1];
      Decisions(events[..|events| - 1]) + if IsDecision(e) then [e] else []
  }

  function Offer(w: Waiter, e: Event): Waiter {
    if w.registered.Some? && IsDecision(e) then w.(stream := w.stream + [e]) else w
  }

  function OfferAll(ws: seq<Waiter>, e: Event): (r: seq<Waiter>)
    ensures |r| == |ws|
  {
    seq(|ws|, i requires 0 <= i < |ws| => Offer(ws[i], e))
  }

  predicate Enabled(s: System, step: Step) {
    match step
    case Write(e) => e.id !in IdsOf(s.log)
    case Arm(w) => w < |s.waiters| && s.waiters[w].phase.Idle?
    case Register(w) => w < |s.waiters| && !s.waiters[w].phase.Idle? && s.waiters[w].registered.None?
    case Scan(w) => w < |s.waiters| && s.waiters[w].phase.Armed?
    case Read(w) => w < |s.waiters| && s.waiters[w].phase.Reading? && s.waiters[w].pos < |s.waiters[w].stream|
    case Redeliver(w, i) => w < |s.waiters| && i < |s.waiters[w].stream|
    case Stop(w, o) => w < |s.waiters| && s.waiters[w].phase.Reading? && !o.Answered?
  }

  function ScanLog(log: seq<Event>, w: Waiter): Waiter {
    var t := FirstTerminal(Fresh(log), w.decision);
    w.(scanned := Some(|log|), phase := if t.Some? then Done(Answered(t.value)) else Reading)
  }

  function TakeNext(w: Waiter): Waiter
    requires w.pos < |w.stream|
  {
    var e := w.stream[w.pos];
    var t := TerminalOf(e, w.decision);
    w.(pos := w.pos + 1,
       phase := if e.id !in IdsOf(w.stream[..w.pos]) && t.Some? then Done(Answered(t.value)) else w.phase)
  }

  function Next(s: System, step: Step): System
    requires Enabled(s, step)
  {
    match step
    case Write(e) => System(s.log + [e], OfferAll(s.waiters, e))
    case Arm(w) => s.(waiters := s.waiters[w := s.waiters[w].(phase := Armed)])
    case Register(w) => s.(waiters := s.waiters[w := s.waiters[w].(registered := Some(|s.log|))])
    case Scan(w) => s.(waiters := s.waiters[w := ScanLog(s.log, s.waiters[w])])
    case Read(w) => s.(waiters := s.waiters[w := TakeNext(s.waiters[w])])
    case Redeliver(w, i) =>
      var x := s.waiters[w];
      s.(waiters := s.waiters[w := x.(stream := x.stream + [x.stream[i]])])
    case Stop(w, o) => s.(waiters := s.waiters[w := s.waiters[w].(phase := Done(o))])
  }

  predicate ValidRun(s: System, steps: seq<Step>)
    decreases |steps|
  {
    steps == [] || (Enabled(s, steps[0]) && ValidRun(Next(s, steps[0]), steps[1..]))
  }

  function Run(s: System, steps: seq<Step>): System
    requires ValidRun(s, steps)
    decreases |steps|
  {
    if steps == [] then s else Run(Next(s, steps[0]), steps[1..])
  }

  predicate Initial(s: System) {
    && (forall i, j :: 0 <= i < j < |s.log| ==> s.log[i].id != s.log[j].id)
    && (forall i :: 0 <= i < |s.waiters| ==> s.waiters[i] == Waiter(s.waiters[i].decision, Idle, None, None, [], 0))
  }

  // ---- The invariant ----

  ghost predicate DistinctIds(log: seq<Event>) {
    forall i, j :: 0 <= i < j < |log| ==> log[i].id != log[j].id
  }

  /** What a waiter holds, in terms of the log alone. */
  ghost predicate Tracks(log: seq<Event>, w: Waiter) {
    && w.pos <= |w.stream|
    && (w.phase.Idle? || w.phase.Armed? ==> w.pos == 0)
    && (w.registered.None? ==> w.stream == [])
    && (w.registered.Some? ==> w.registered.value <= |log| && Fresh(w.stream) == Decisions(log[w.registered.value..]))
    && (forall e :: e in w.stream ==> e in log)
    && (w.scanned.Some? <==> w.phase.Reading? || w.phase.Done?)
    && (w.scanned.Some? ==> w.scanned.value <= |log|)
    && (w.phase.Reading? ==>
          FirstTerminal(log[..w.scanned.value], w.decision) == None && FirstTerminal(w.stream[..w.pos], w.decision) == None)
    && (w.phase.Done? && w.phase.outcome.Answered? ==> AnswerFrom(log, w, w.phase.outcome.terminal))
  }

  /** An answer is the first terminal of what the waiter scanned or, when that had
      none, of what was logged after it was registered. */
  ghost predicate AnswerFrom(log: seq<Event>, w: Waiter, t: Terminal)
    requires w.scanned.Some? && w.scanned.value <= |log|
    requires w.registered.Some? ==> w.registered.value <= |log|
  {
    var before := FirstTerminal(log[..w.scanned.value], w.decision);
    before == Some(t)
    || (before == None && w.registered.Some? && FirstTerminal(log[w.registered.value..], w.decision) == Some(t))
  }

  ghost predicate Good(s: System) {
    DistinctIds(s.log) && forall i :: 0 <= i < |s.waiters| ==> Tracks(s.log, s.waiters[i])
  }

  // ---- Facts ----

  lemma DistinctMeansRedelivered(log: seq<Event>)
    requires DistinctIds(log)
    ensures Redelivered(log)
  {
  }

  lemma LastIsNew(log: seq<Event>)
    requires DistinctIds(log) && log != []
    ensures log[|log| - 1].id !in IdsOf(log[..|log| - 1])
  {
    forall e | e in log[..|log| - 1] ensures e.id != log[|log| - 1].id {
      var i :| 0 <= i < |log| - 1 && log[i] == e;
    }
  }

  lemma {:induction false} DistinctIsFresh(log: seq<Event>)
    requires DistinctIds(log)
    ensures Fresh(log) == log
  {
    if log != [] {
      LastIsNew(log);
      var n := |log| - 1;
      DistinctIsFresh(log[..n]);
      assert log == log[..n] + [log[n]];
    }
  }

  lemma {:induction false} DecisionsKeepTerminal(events: seq<Event>, d: string)
    ensures FirstTerminal(Decisions(events), d) == FirstTerminal(events, d)
  {
    if events != [] {
      var n := |events| - 1;
      DecisionsKeepTerminal(events[..n], d);
      if IsDecision(events[n]) {
        FirstTerminalConcat(Decisions(events[..n]), [events[n]], d);
        assert [events[n]][..0] == [];
      } else {
        assert Decisions(events) == Decisions(events[..n]);
      }
    }
  }

  /** The stream so far has the same first terminal as the log since registration. */
  lemma StreamMirrorsLog(log: seq<Event>, w: Waiter)
    requires DistinctIds(log) && Tracks(log, w) && w.registered.Some?
    ensures FirstTerminal(w.stream, w.decision) == FirstTerminal(log[w.registered.value..], w.decision)
    ensures Redelivered(w.stream)
  {
    DistinctMeansRedelivered(log);
    DedupeHarmless(w.stream, w.decision);
    DecisionsKeepTerminal(log[w.registered.value..], w.decision);
  }

  // ---- Every step keeps it ----

  lemma DecisionsSnoc(log: seq<Event>, r: nat, e: Event)
    requires r <= |log|
    ensures (log + [e])[r..] == log[r..] + [e]
    ensures Decisions(log[r..] + [e]) == Decisions(log[r..]) + if IsDecision(e) then [e] else []
  {
    assert (log[r..] + [e])[..|log[r..] + [e]| - 1] == log[r..];
  }

  lemma FreshSnoc(stream: seq<Event>, e: Event)
    ensures Fresh(stream + [e]) == Fresh(stream) + if e.id in IdsOf(stream) then [] else [e]
  {
    assert (stream + [e])[..|stream + [e]| - 1] == stream;
  }

  lemma OfferKeeps(log: seq<Event>, w: Waiter, e: Event)
    requires DistinctIds(log) && Tracks(log, w) && e.id !in IdsOf(log)
    ensures Tracks(log + [e], Offer(w, e))
  {
    var w' := Offer(w, e);
    if w.registered.Some? {
      var r := w.registered.value;
      DecisionsSnoc(log, r, e);
      FreshSnoc(w.stream, e);
      assert e.id !in IdsOf(w.stream);
      FirstTerminalConcat(log[r..], [e], w.decision);
    }
    if w.scanned.Some? {
      assert (log + [e])[..w.scanned.value] == log[..w.scanned.value];
    }
    assert w'.stream[..w.pos] == w.stream[..w.pos];
  }

  lemma RegisterKeeps(log: seq<Event>, w: Waiter)
    requires Tracks(log, w) && w.registered.None?
    ensures Tracks(log, w.(registered := Some(|log|)))
  {
  }

  lemma ScanKeeps(log: seq<Event>, w: Waiter)
    requires DistinctIds(log) && Tracks(log, w) && w.phase.Armed?
    ensures Tracks(log, ScanLog(log, w))
  {
    DistinctIsFresh(log);
    assert log[..|log|] == log;
  }

  lemma ReadKeeps(log: seq<Event>, w: Waiter)
    requires DistinctIds(log) && Tracks(log, w) && w.phase.Reading? && w.pos < |w.stream|
    ensures Tracks(log, TakeNext(w))
  {
    var e, d := w.stream[w.pos], w.decision;
    var taken, taken' := w.stream[..w.pos], w.stream[..w.pos + 1];
    StreamMirrorsLog(log, w);
    assert taken' == taken + [e];
    FirstTerminalConcat(taken, [e], d);
    assert [e][..0] == [];
    assert w.stream == taken' + w.stream[w.pos + 1..];
    FirstTerminalConcat(taken', w.stream[w.pos + 1..], d);
    if e.id in IdsOf(taken) {
      var f :| f in taken && f.id == e.id;
      assert f in w.stream && e in w.stream;
      NoneMeansNone(taken, d);
    }
  }

  lemma RedeliverKeeps(log: seq<Event>, w: Waiter, i: nat)
    requires Tracks(log, w) && i < |w.stream|
    ensures Tracks(log, w.(stream := w.stream + [w.stream[i]]))
  {
    FreshSnoc(w.stream, w.stream[i]);
    assert w.stream[i].id in IdsOf(w.stream);
    assert (w.stream + [w.stream[i]])[..w.pos] == w.stream[..w.pos];
  }

  lemma StepKeeps(s: System, step: Step)
    requires Good(s) && Enabled(s, step)
    ensures Good(Next(s, step))
  {
    match step
    case Write(e) =>
      var s' := Next(s, step);
      assert DistinctIds(s'.log) by {
        forall i, j | 0 <= i < j < |s'.log| ensures s'.log[i].id != s'.log[j].id {
          assert s.log[i] in s.log;
        }
      }
      forall i | 0 <= i < |s'.waiters| ensures Tracks(s'.log, s'.waiters[i]) {
        OfferKeeps(s.log, s.waiters[i], e);
      }
    case Arm(w) =>
    case Register(w) => RegisterKeeps(s.log, s.waiters[w]);
    case Scan(w) => ScanKeeps(s.log, s.waiters[w]);
    case Read(w) => ReadKeeps(s.log, s.waiters[w]);
    case Redeliver(w, i) => RedeliverKeeps(s.log, s.waiters[w], i);
    case Stop(w, o) =>
  }

  lemma {:induction false} RunKeeps(s: System, steps: seq<Step>)
    requires Good(s) && ValidRun(s, steps)
    ensures Good(Run(s, steps))
    decreases |steps|
  {
    if steps != [] {
      StepKeeps(s, steps[0]);
      RunKeeps(Next(s, steps[0]), steps[1..]);
    }
  }

  lemma InitialGood(s: System)
    requires Initial(s)
    ensures Good(s)
  {
  }

  // ---- When a request counts as armed at once ----

  /** The assumption behind "arm, then scan": the daemon queues events for the
      waiter from before the waiter scans the log. */
  predicate ArmedInTime(s: System, step: Step) {
    step.Scan? && step.w < |s.waiters| ==> s.waiters[step.w].registered.Some?
  }

  predicate AllArmedInTime(s: System, steps: seq<Step>)
    requires ValidRun(s, steps)
    decreases |steps|
  {
    steps == [] || (ArmedInTime(s, steps[0]) && AllArmedInTime(Next(s, steps[0]), steps[1..]))
  }

  predicate InTime(w: Waiter) {
    w.scanned.Some? ==> w.registered.Some? && w.registered.value <= w.scanned.value
  }

  lemma {:induction false} InTimeKept(s: System, steps: seq<Step>)
    requires Good(s) && ValidRun(s, steps) && AllArmedInTime(s, steps)
    requires forall i :: 0 <= i < |s.waiters| ==> InTime(s.waiters[i])
    ensures forall i :: 0 <= i < |Run(s, steps).waiters| ==> InTime(Run(s, steps).waiters[i])
    decreases |steps|
  {
    if steps != [] {
      StepKeeps(s, steps[0]);
      assert InTimeStep(s, steps[0]) by {
        InTimeAfter(s, steps[0]);
      }
      InTimeKept(Next(s, steps[0]), steps[1..]);
    }
  }

  ghost predicate InTimeStep(s: System, step: Step)
    requires Enabled(s, step)
  {
    forall i :: 0 <= i < |Next(s, step).waiters| ==> InTime(Next(s, step).waiters[i])
  }

  lemma InTimeAfter(s: System, step: Step)
    requires Good(s) && Enabled(s, step) && ArmedInTime(s, step)
    requires forall i :: 0 <= i < |s.waiters| ==> InTime(s.waiters[i])
    ensures InTimeStep(s, step)
  {
    var s' := Next(s, step);
    forall i | 0 <= i < |s'.waiters| ensures InTime(s'.waiters[i]) {
      assert InTime(s.waiters[i]) && Tracks(s.log, s.waiters[i]);
    }
  }

  /** An answer is the first terminal of the log exactly when nothing contradicts
      it between the waiter's scan and its registration. */
  lemma AnswerIsFirstExactly(log: seq<Event>, w: Waiter, t: Terminal)
    requires DistinctIds(log) && Tracks(log, w) && w.phase == Done(Answered(t))
    ensures FirstTerminal(log, w.decision) == Some(t) <==>
      (FirstTerminal(log[..w.scanned.value], w.decision) == None && w.registered.value > w.scanned.value ==>
        FirstTerminal(log[w.scanned.value..w.registered.value], w.decision) in {None, Some(t)})
  {
    var k, d := w.scanned.value, w.decision;
    FirstTerminalAt(log, k, d);
    if FirstTerminal(log[..k], d) == None {
      var r := w.registered.value;
      if r > k {
        FirstTerminalAt(log[k..], r - k, d);
        assert log[k..][..r - k] == log[k..r] && log[k..][r - k..] == log[r..];
      } else {
        FirstTerminalAt(log, r, d);
        FirstTerminalAt(log[..k], r, d);
        assert log[..k][..r] == log[..r];
      }
    }
  }

  lemma FirstTerminalAt(log: seq<Event>, k: nat, d: string)
    requires k <= |log|
    ensures FirstTerminal(log, d) == if FirstTerminal(log[..k], d).Some? then FirstTerminal(log[..k], d) else FirstTerminal(log[k..], d)
  {
    assert log == log[..k] + log[k..];
    FirstTerminalConcat(log[..k], log[k..], d);
  }

  /** Every answer, over every run, is the first terminal of its decision in the
      log, so all answered waiters of one decision agree. */
  lemma AnswersAreFirst(s: System, steps: seq<Step>, i: nat, t: Terminal)
    requires Initial(s) && ValidRun(s, steps) && AllArmedInTime(s, steps)
    requires i < |Run(s, steps).waiters| && Run(s, steps).waiters[i].phase == Done(Answered(t))
    ensures FirstTerminal(Run(s, steps).log, Run(s, steps).waiters[i].decision) == Some(t)
  {
    InitialGood(s);
    RunKeeps(s, steps);
    InTimeKept(s, steps);
    AnswerIsFirstExactly(Run(s, steps).log, Run(s, steps).waiters[i], t);
  }

  lemma WaitersAgree(s: System, steps: seq<Step>, i: nat, j: nat, t: Terminal, u: Terminal)
    requires Initial(s) && ValidRun(s, steps) && AllArmedInTime(s, steps)
    requires i < |Run(s, steps).waiters| && Run(s, steps).waiters[i].phase == Done(Answered(t))
    requires j < |Run(s, steps).waiters| && Run(s, steps).waiters[j].phase == Done(Answered(u))
    requires Run(s, steps).waiters[i].decision == Run(s, steps).waiters[j].decision
    ensures t == u
  {
    AnswersAreFirst(s, steps, i, t);
    AnswersAreFirst(s, steps, j, u);
  }

  // ---- Wake-ups ----

  /** What a blocked waiter has not yet read: the first terminal logged since it
      was registered, if any. */
  lemma UnreadTerminal(log: seq<Event>, w: Waiter)
    requires DistinctIds(log) && Tracks(log, w) && w.phase.Reading? && w.registered.Some?
    ensures FirstTerminal(w.stream[w.pos..], w.decision) == FirstTerminal(log[w.registered.value..], w.decision)
  {
    StreamMirrorsLog(log, w);
    assert w.stream == w.stream[..w.pos] + w.stream[w.pos..];
    FirstTerminalConcat(w.stream[..w.pos], w.stream[w.pos..], w.decision);
  }

  /** A blocked, registered waiter is stranded, with a terminal in the log and none
      left to read, exactly when every terminal was logged after its scan and
      before its registration. */
  lemma StrandedExactly(log: seq<Event>, w: Waiter)
    requires DistinctIds(log) && Tracks(log, w) && w.phase.Reading? && w.registered.Some?
    ensures FirstTerminal(log, w.decision).Some? && FirstTerminal(w.stream[w.pos..], w.decision).None? <==>
      && w.registered.value > w.scanned.value
      && FirstTerminal(log[w.scanned.value..w.registered.value], w.decision).Some?
      && FirstTerminal(log[w.registered.value..], w.decision).None?
  {
    UnreadTerminal(log, w);
    var r, k, d := w.registered.value, w.scanned.value, w.decision;
    if r > k {
      assert log == log[..k] + log[k..r] + log[r..];
      FirstTerminalConcat(log[..k] + log[k..r], log[r..], d);
      FirstTerminalConcat(log[..k], log[k..r], d);
    } else {
      assert log == log[..r] + log[r..] && log[..k] == log[..r] + log[r..k];
      FirstTerminalConcat(log[..r], log[r..], d);
      FirstTerminalConcat(log[..r], log[r..k], d);
    }
  }

  /** No lost wake-up: over every run, a waiter that is blocked while its decision
      has a terminal in the log still has that terminal ahead of it in its
      stream, and reading the stream on returns it. */
  lemma NoLostWakeUp(s: System, steps: seq<Step>, i: nat, t: Terminal, ending: Ending)
    requires Initial(s) && ValidRun(s, steps) && AllArmedInTime(s, steps)
    requires i < |Run(s, steps).waiters| && Run(s, steps).waiters[i].phase.Reading?
    requires FirstTerminal(Run(s, steps).log, Run(s, steps).waiters[i].decision) == Some(t)
    ensures var w := Run(s, steps).waiters[i];
      && w.pos <= |w.stream|
      && FirstTerminal(w.stream[w.pos..], w.decision) == Some(t)
      && StreamOutcome(IdsOf(w.stream[..w.pos]), EventLines(w.stream[w.pos..]), ending, w.decision) == Answered(t)
  {
    InitialGood(s);
    RunKeeps(s, steps);
    InTimeKept(s, steps);
    WakesUp(Run(s, steps).log, Run(s, steps).waiters[i], t, ending);
  }

  lemma WakesUp(log: seq<Event>, w: Waiter, t: Terminal, ending: Ending)
    requires DistinctIds(log) && Tracks(log, w) && w.phase.Reading? && InTime(w)
    requires FirstTerminal(log, w.decision) == Some(t)
    ensures FirstTerminal(w.stream[w.pos..], w.decision) == Some(t)
    ensures StreamOutcome(IdsOf(w.stream[..w.pos]), EventLines(w.stream[w.pos..]), ending, w.decision) == Answered(t)
  {
    var r, k, d := w.registered.value, w.scanned.value, w.decision;
    UnreadTerminal(log, w);
    StreamMirrorsLog(log, w);
    assert log == log[..r] + log[r..] && log[..k] == log[..r] + log[r..k];
    FirstTerminalConcat(log[..r], log[r..], d);
    FirstTerminalConcat(log[..r], log[r..k], d);
    NoneMeansNone(w.stream[..w.pos], d);
    ReadPartQuiet(w);
    StreamAnswers(IdsOf(w.stream[..w.pos]), w.stream[w.pos..], ending, d);
  }

  lemma ReadPartQuiet(w: Waiter)
    requires w.pos <= |w.stream| && Redelivered(w.stream)
    requires forall e :: e in w.stream[..w.pos] ==> TerminalOf(e, w.decision) == None
    ensures Redelivered(w.stream[w.pos..])
    ensures forall e :: e in w.stream[w.pos..] && e.id in IdsOf(w.stream[..w.pos]) ==> TerminalOf(e, w.decision) == None
  {
    assert forall e :: e in w.stream[w.pos..] ==> e in w.stream;
    assert forall e :: e in w.stream[..w.pos] ==> e in w.stream;
  }

  /** The waiter found nothing in its scan, and nothing was logged since it was
      registered: whatever the log holds for it fell between the two. */
  ghost predicate Stuck(s: System, w: nat) {
    w < |s.waiters| && var x := s.waiters[w];
      && x.registered.Some? && x.registered.value <= |s.log| && x.scanned.Some? && x.scanned.value <= |s.log|
      && FirstTerminal(s.log[..x.scanned.value], x.decision) == None
      && FirstTerminal(s.log[x.registered.value..], x.decision) == None
  }

  predicate NoTerminal(steps: seq<Step>, d: string) {
    forall i :: 0 <= i < |steps| && steps[i].Write? ==> TerminalOf(steps[i].event, d) == None
  }

  lemma StuckStep(s: System, w: nat, step: Step)
    requires Stuck(s, w) && Enabled(s, step) && !s.waiters[w].phase.Idle? && !s.waiters[w].phase.Armed?
    requires step.Write? ==> TerminalOf(step.event, s.waiters[w].decision) == None
    ensures Stuck(Next(s, step), w) && Next(s, step).waiters[w].decision == s.waiters[w].decision
    ensures !Next(s, step).waiters[w].phase.Idle? && !Next(s, step).waiters[w].phase.Armed?
  {
    if step.Write? {
      var x := s.waiters[w];
      DecisionsSnoc(s.log, x.registered.value, step.event);
      FirstTerminalConcat(s.log[x.registered.value..], [step.event], x.decision);
      assert [step.event][..0] == [];
      assert (s.log + [step.event])[..x.scanned.value] == s.log[..x.scanned.value];
    }
  }

  /** A stuck waiter gets no answer until its decision ends a second time. */
  lemma {:induction false} StuckStays(s: System, w: nat, steps: seq<Step>)
    requires Good(s) && Stuck(s, w) && ValidRun(s, steps) && NoTerminal(steps, s.waiters[w].decision)
    requires !s.waiters[w].phase.Idle? && !s.waiters[w].phase.Armed?
    ensures w < |Run(s, steps).waiters| && !(Run(s, steps).waiters[w].phase.Done? && Run(s, steps).waiters[w].phase.outcome.Answered?)
    decreases |steps|
  {
    if steps == [] {
      assert Tracks(s.log, s.waiters[w]);
    } else {
      StepKeeps(s, steps[0]);
      StuckStep(s, w, steps[0]);
      assert forall i :: 0 <= i < |steps[1..]| ==> steps[1..][i] == steps[i + 1];
      StuckStays(Next(s, steps[0]), w, steps[1..]);
    }
  }

  /** The subscribe request is not acknowledged, so nothing makes the daemon
      register the waiter before the scan. If a terminal falls between the two,
      the waiter is never answered, although the log holds the answer, whatever
      else happens short of a second terminal for that decision. */
  lemma UnacknowledgedArmStrands(e: Event, d: string, rest: seq<Step>)
    requires TerminalOf(e, d).Some? && NoTerminal(rest, d)
    requires ValidRun(System([], [Waiter(d, Idle, None, None, [], 0)]), [Arm(0), Scan(0), Write(e), Register(0)] + rest)
    ensures var s := System([], [Waiter(d, Idle, None, None, [], 0)]);
      var end := Run(s, [Arm(0), Scan(0), Write(e), Register(0)] + rest);
      && Initial(s) && e in end.log && |end.waiters| == 1
      && !(end.waiters[0].phase.Done? && end.waiters[0].phase.outcome.Answered?)
  {
    var s := System([], [Waiter(d, Idle, None, None, [], 0)]);
    var s4 := System([e], [Waiter(d, Reading, Some(1), Some(0), [], 0)]);
    StrandedAfterFour(e, d, rest);
    InitialGood(s);
    StrandedAfterFour(e, d, []);
    RunKeeps(s, [Arm(0), Scan(0), Write(e), Register(0)] + []);
    assert Stuck(s4, 0);
    StuckStays(s4, 0, rest);
    LogOnlyGrows(s4, rest);
  }

  lemma StrandedAfterFour(e: Event, d: string, rest: seq<Step>)
    ensures var s := System([], [Waiter(d, Idle, None, None, [], 0)]);
      var s4 := System([e], [Waiter(d, Reading, Some(1), Some(0), [], 0)]);
      && (ValidRun(s, [Arm(0), Scan(0), Write(e), Register(0)] + rest) <==> ValidRun(s4, rest))
      && (ValidRun(s4, rest) ==> Run(s, [Arm(0), Scan(0), Write(e), Register(0)] + rest) == Run(s4, rest))
  {
    var s := System([], [Waiter(d, Idle, None, None, [], 0)]);
    var s1 := Next(s, Arm(0));
    var s2 := Next(s1, Scan(0));
    assert s2 == System([], [Waiter(d, Reading, None, Some(0), [], 0)]);
    var s3 := Next(s2, Write(e));
    assert s3 == System([e], [Waiter(d, Reading, None, Some(0), [], 0)]);
    assert Next(s3, Register(0)) == System([e], [Waiter(d, Reading, Some(1), Some(0), [], 0)]);
    RunCons(s3, Register(0), rest);
    RunCons(s2, Write(e), [Register(0)] + rest);
    RunCons(s1, Scan(0), [Write(e)] + ([Register(0)] + rest));
    RunCons(s, Arm(0), [Scan(0)] + ([Write(e)] + ([Register(0)] + rest)));
    assert [Arm(0), Scan(0), Write(e), Register(0)] + rest == [Arm(0)] + ([Scan(0)] + ([Write(e)] + ([Register(0)] + rest)));
  }

  lemma {:induction false} LogOnlyGrows(s: System, steps: seq<Step>)
    requires ValidRun(s, steps)
    ensures s.log <= Run(s, steps).log && |Run(s, steps).waiters| == |s.waiters|
    decreases |steps|
  {
    if steps != [] {
      LogOnlyGrows(Next(s, steps[0]), steps[1..]);
    }
  }

  lemma RunCons(s: System, step: Step, rest: seq<Step>)
    ensures ValidRun(s, [step] + rest) <==> Enabled(s, step) && ValidRun(Next(s, step), rest)
    ensures ValidRun(s, [step] + rest) ==> Run(s, [step] + rest) == Run(Next(s, step), rest)
  {
    assert ([step] + rest)[1..] == rest;
  }
}
