/** The subscribe-stream watcher of `harmonik run` (viaWatchGroupCompletion): it
    reads daemon events until it can report how the submitted work ended. */
module Watcher {
  import opened Results

  /** One line of the stream. Ignored stands for a blank line, a line or payload
      that does not decode, a heartbeat, and every event type not listed. */
  datatype Event =
    | Refusal
    | GroupCompleted(queue: string, group: int, status: string)
    | RunStarted(run: string, bead: Option<string>)
    | RunEnded(run: string, failed: bool)
    | QueuePaused(queue: string)
    | Ignored

  /** What is watched. `beads` is empty in submit mode and lists the appended beads
      in append mode; `notifyFails` says whether the notification write errors. */
  datatype Watch = Watch(queue: string, group: int, beads: seq<string>, notifyFails: bool)

  const COMPLETE_SUCCESS := "complete-success"

  datatype State = State(pending: set<string>, runs: map<string, string>, failed: bool)

  datatype Outcome = Go(state: State) | Exit(code: int)

  function Start(w: Watch): State {
    State(set b | b in w.beads, map[], false)
  }

  function Code(ok: bool): int {
    if ok then 0 else 1
  }

  function OnGroupCompleted(w: Watch, st: State, status: string): int {
    if w.notifyFails then 1
    else if w.beads != [] then
      if st.failed then 1
      else if st.pending == {} then 0
      else Code(status == COMPLETE_SUCCESS)
    else Code(status == COMPLETE_SUCCESS)
  }

  function OnRunEnded(st: State, run: string, failed: bool): Outcome
    requires run in st.runs
  {
    var st' := State(st.pending - {st.runs[run]}, st.runs - {run}, st.failed || failed);
    if st'.pending == {} then Exit(Code(!st'.failed)) else Go(st')
  }

  function Step(w: Watch, st: State, e: Event): Outcome {
    match e
    case Refusal => Exit(1)
    case GroupCompleted(queue, group, status) =>
      if queue != w.queue || group != w.group then Go(st) else Exit(OnGroupCompleted(w, st, status))
    case RunStarted(run, bead) =>
      if w.beads != [] && bead.Some? && bead.value in st.pending then Go(st.(runs := st.runs[run := bead.value])) else Go(st)
    case RunEnded(run, failed) =>
      if w.beads != [] && run in st.runs then OnRunEnded(st, run, failed) else Go(st)
    case QueuePaused(queue) => if queue == w.queue then Exit(1) else Go(st)
    case Ignored => Go(st)
  }

  /** The exit code for the rest of a stream; a stream that just ends gives 1. */
  function ExitCode(w: Watch, st: State, events: seq<Event>): int
    decreases |events|
  {
    if events == [] then 1
    else match Step(w, st, events[0])
      case Exit(code) => code
      case Go(st') => ExitCode(w, st', events[1..])
  }

  function Watched(w: Watch, events: seq<Event>): int {
    ExitCode(w, Start(w), events)
  }

  method WatchGroupCompletion(w: Watch, stream: seq<Event>) returns (code: int)
    ensures code == Watched(w, stream)
  {
    var pendingBeads: set<string> := {};
    for i := 0 to |w.beads|
      invariant pendingBeads == set b | b in w.beads[..i]
    {
      assert w.beads[..i + 1] == w.beads[..i] + [w.beads[i]];
      pendingBeads := pendingBeads + {w.beads[i]};
    }
    assert w.beads[..|w.beads|] == w.beads;
    var runToBead: map<string, string> := map[];
    var anyBeadFailed := false;
    for i := 0 to |stream|
      invariant Watched(w, stream) == ExitCode(w, State(pendingBeads, runToBead, anyBeadFailed), stream[i..])
    {
      assert stream[i..][1..] == stream[i + 1..];
      match stream[i] {
        case Refusal =>
          return 1;
        case GroupCompleted(queue, group, status) =>
          if queue != w.queue || group != w.group {
            continue;
          }
          if w.notifyFails {
            return 1;
          }
          if |w.beads| > 0 {
            if anyBeadFailed {
              return 1;
            }
            if pendingBeads == {} {
              return 0;
            }
          }
          if status == COMPLETE_SUCCESS {
            return 0;
          }
          return 1;
        case RunStarted(run, bead) =>
          if |w.beads| == 0 || bead.None? {
            continue;
          }
          if bead.value in pendingBeads {
            runToBead := runToBead[run := bead.value];
          }
        case RunEnded(run, failed) =>
          if |w.beads| == 0 || run !in runToBead {
            continue;
          }
          var bead := runToBead[run];
          runToBead := runToBead - {run};
          pendingBeads := pendingBeads - {bead};
          if failed {
            anyBeadFailed := true;
          }
          if pendingBeads == {} {
            if anyBeadFailed {
              return 1;
            }
            return 0;
          }
        case QueuePaused(queue) =>
          if queue == w.queue {
            return 1;
          }
        case Ignored =>
      }
    }
    return 1;
  }

  // ---- Other runs never matter ----

  predicate ForeignStart(w: Watch, e: Event) {
    e.RunStarted? && (e.bead.None? || e.bead.value !in w.beads)
  }

  /** The stream without the starts of foreign beads and without the run ends
      whose run is not tracked when they arrive. */
  function Relevant(w: Watch, st: State, events: seq<Event>): seq<Event>
    decreases |events|
  {
    if events == [] then []
    else
      var e := events[0];
      if ForeignStart(w, e) || (e.RunEnded? && e.run !in st.runs) then Relevant(w, st, events[1..])
      else
        match Step(w, st, e)
        case Exit(_) => events
        case Go(st') => [e] + Relevant(w, st', events[1..])
  }

  lemma {:induction false} IrrelevantEventsDeleted(w: Watch, st: State, events: seq<Event>)
    requires forall b :: b in st.pending ==> b in w.beads
    ensures ExitCode(w, st, Relevant(w, st, events)) == ExitCode(w, st, events)
    decreases |events|
  {
    if events != [] {
      var e := events[0];
      match Step(w, st, e)
      case Exit(_) =>
      case Go(st') =>
        IrrelevantEventsDeleted(w, st', events[1..]);
        if !(ForeignStart(w, e) || (e.RunEnded? && e.run !in st.runs)) {
          var kept := Relevant(w, st, events);
          assert kept[1..] == Relevant(w, st', events[1..]);
        }
    }
  }

  /** Non-interference: the exit code is that of the relevant events alone. */
  lemma NonInterference(w: Watch, events: seq<Event>)
    ensures Watched(w, Relevant(w, Start(w), events)) == Watched(w, events)
  {
    IrrelevantEventsDeleted(w, Start(w), events);
  }

  /** Run ids that a stream starts for a watched bead. */
  function OwnRuns(w: Watch, events: seq<Event>): set<string> {
    set e | e in events && e.RunStarted? && !ForeignStart(w, e) :: e.run
  }

  /** Events of other work: starts of foreign beads, and ends of runs outside `own`. */
  predicate Foreign(w: Watch, own: set<string>, e: Event) {
    ForeignStart(w, e) || (e.RunEnded? && e.run !in own)
  }

  function Strip(w: Watch, own: set<string>, events: seq<Event>): seq<Event> {
    if events == [] then []
    else (if Foreign(w, own, events[0]) then [] else [events[0]]) + Strip(w, own, events[1..])
  }

  lemma {:induction false} StrippedStream(w: Watch, own: set<string>, st: State, events: seq<Event>)
    requires forall b :: b in st.pending ==> b in w.beads
    requires st.runs.Keys <= own && OwnRuns(w, events) <= own
    ensures ExitCode(w, st, Strip(w, own, events)) == ExitCode(w, st, events)
    decreases |events|
  {
    if events != [] {
      var e := events[0];
      assert e in events;
      assert e.RunStarted? && !ForeignStart(w, e) ==> e.run in OwnRuns(w, events);
      match Step(w, st, e)
      case Exit(_) =>
        assert !Foreign(w, own, e);
      case Go(st') =>
        assert OwnRuns(w, events[1..]) <= OwnRuns(w, events);
        StrippedStream(w, own, st', events[1..]);
        if !Foreign(w, own, e) {
          assert Strip(w, own, events)[1..] == Strip(w, own, events[1..]);
        } else {
          assert Strip(w, own, events) == Strip(w, own, events[1..]);
          assert st' == st;
        }
    }
  }

  /** However the work of others is interleaved with ours, two streams that agree
      once it is stripped give one exit code. */
  lemma OthersInvisible(w: Watch, s: seq<Event>, t: seq<Event>)
    requires Strip(w, OwnRuns(w, s), s) == Strip(w, OwnRuns(w, t), t)
    ensures Watched(w, s) == Watched(w, t)
  {
    StrippedStream(w, OwnRuns(w, s), Start(w), s);
    StrippedStream(w, OwnRuns(w, t), Start(w), t);
  }

  // ---- What exit 0 means in append mode ----

  /** The state after a prefix that has not ended the watch. */
  function After(w: Watch, events: seq<Event>): Option<State> {
    if events == [] then Some(Start(w))
    else
      var before := After(w, events[..|events| - 1]);
      if before.None? then None
      else match Step(w, before.value, events[|events| - 1])
        case Exit(_) => None
        case Go(st) => Some(st)
  }

  lemma {:induction false} AfterThenRest(w: Watch, p: seq<Event>, rest: seq<Event>)
    requires After(w, p).Some?
    ensures Watched(w, p + rest) == ExitCode(w, After(w, p).value, rest)
  {
    if p == [] {
      assert p + rest == rest;
    } else {
      var n := |p| - 1;
      assert p[..n] + ([p[n]] + rest) == p + rest;
      AfterThenRest(w, p[..n], [p[n]] + rest);
      assert ([p[n]] + rest)[1..] == rest;
    }
  }

  /** Where a watch ends: every earlier prefix goes on, and the event at k decides. */
  lemma {:induction false} Decided(w: Watch, st: State, events: seq<Event>, p: seq<Event>) returns (k: nat)
    requires After(w, p) == Some(st)
    requires ExitCode(w, st, events) == 0
    ensures k < |events| && After(w, p + events[..k]).Some?
    ensures Step(w, After(w, p + events[..k]).value, events[k]) == Exit(0)
    decreases |events|
  {
    match Step(w, st, events[0])
    case Exit(_) =>
      k := 0;
      assert p + events[..0] == p;
    case Go(st') =>
      var p' := p + [events[0]];
      assert p'[..|p'| - 1] == p;
      k := Decided(w, st', events[1..], p');
      assert p' + events[1..][..k] == p + events[..k + 1];
      k := k + 1;
  }

  /** Bead b has a run that starts at i and, with no end in between, ends at j. */
  ghost predicate RunsToEnd(p: seq<Event>, b: string, i: nat, j: nat) {
    && i < j < |p| && p[i].RunStarted? && p[i].bead == Some(b)
    && p[j].RunEnded? && p[j].run == p[i].run
    && NoEndBetween(p, p[i].run, i, j)
  }

  ghost predicate NoEndBetween(p: seq<Event>, run: string, i: nat, j: nat)
    requires j <= |p|
  {
    forall m :: i < m < j ==> !(p[m].RunEnded? && p[m].run == run)
  }

  ghost predicate EveryBeadCompleted(w: Watch, p: seq<Event>) {
    forall b :: b in w.beads ==> exists i: nat, j: nat :: RunsToEnd(p, b, i, j) && !p[j].failed
  }

  /** A run that was tracked when it ended has failed. */
  ghost predicate TrackedRunFailed(w: Watch, p: seq<Event>) {
    exists j :: 0 <= j < |p| && FailsTracked(w, p, j)
  }

  ghost predicate FailsTracked(w: Watch, p: seq<Event>, j: nat)
    requires j < |p|
  {
    p[j].RunEnded? && p[j].failed && After(w, p[..j]).Some? && p[j].run in After(w, p[..j]).value.runs
  }

  /** Every tracked run is a watched bead's, started and not ended since. */
  ghost predicate RunsAreOurs(w: Watch, p: seq<Event>, st: State) {
    forall r :: r in st.runs ==> st.runs[r] in w.beads && exists i: nat :: StartedAt(p, r, st.runs[r], i)
  }

  ghost predicate StartedAt(p: seq<Event>, r: string, b: string, i: nat) {
    i < |p| && p[i] == RunStarted(r, Some(b)) && NoEndBetween(p, r, i, |p|)
  }

  ghost predicate DoneBeadsRan(w: Watch, p: seq<Event>, st: State) {
    forall b :: b in w.beads && b !in st.pending ==>
      exists i: nat, j: nat :: RunsToEnd(p, b, i, j) && (p[j].failed ==> st.failed)
  }

  ghost predicate Invariant(w: Watch, p: seq<Event>, st: State) {
    && (forall b :: b in st.pending ==> b in w.beads)
    && (w.beads != [] ==> st.pending != {})
    && RunsAreOurs(w, p, st)
    && DoneBeadsRan(w, p, st)
    && (st.failed <==> TrackedRunFailed(w, p))
  }

  lemma PrefixFacts(w: Watch, p: seq<Event>, e: Event)
    ensures forall b, i: nat, j: nat :: RunsToEnd(p, b, i, j) ==> RunsToEnd(p + [e], b, i, j) && (p + [e])[j] == p[j]
    ensures forall r, b, i: nat :: StartedAt(p, r, b, i) && !(e.RunEnded? && e.run == r) ==> StartedAt(p + [e], r, b, i)
    ensures forall r, b, i: nat :: StartedAt(p, r, b, i) && e.RunEnded? && e.run == r ==> RunsToEnd(p + [e], b, i, |p|)
    ensures TrackedRunFailed(w, p + [e]) <==> TrackedRunFailed(w, p) || FailsTracked(w, p + [e], |p|)
  {
    var p' := p + [e];
    assert forall j :: 0 <= j < |p| ==> p'[..j] == p[..j];
    assert forall j :: 0 <= j < |p| ==> (FailsTracked(w, p', j) <==> FailsTracked(w, p, j));
    if TrackedRunFailed(w, p) {
      var j :| 0 <= j < |p| && FailsTracked(w, p, j);
      assert FailsTracked(w, p', j);
    }
  }

  lemma RunStartedKeeps(w: Watch, p: seq<Event>, st: State, e: Event)
    requires Invariant(w, p, st) && e.RunStarted? && Step(w, st, e).Go?
    requires After(w, p) == Some(st)
    ensures Invariant(w, p + [e], Step(w, st, e).state)
  {
    var p', st' := p + [e], Step(w, st, e).state;
    PrefixFacts(w, p, e);
    forall r | r in st'.runs ensures st'.runs[r] in w.beads && exists i: nat :: StartedAt(p', r, st'.runs[r], i) {
      if r in st.runs && st'.runs[r] == st.runs[r] {
        var i: nat :| StartedAt(p, r, st.runs[r], i);
        assert StartedAt(p', r, st'.runs[r], i);
      } else {
        assert StartedAt(p', r, st'.runs[r], |p|);
      }
    }
    DoneBeadsStay(w, p, st, e, st');
  }

  lemma DoneBeadsStay(w: Watch, p: seq<Event>, st: State, e: Event, st': State)
    requires DoneBeadsRan(w, p, st) && st'.pending == st.pending && st'.failed == st.failed
    ensures DoneBeadsRan(w, p + [e], st')
  {
    PrefixFacts(w, p, e);
    forall b | b in w.beads && b !in st'.pending
      ensures exists i: nat, j: nat :: RunsToEnd(p + [e], b, i, j) && ((p + [e])[j].failed ==> st'.failed)
    {
      var i: nat, j: nat :| RunsToEnd(p, b, i, j) && (p[j].failed ==> st.failed);
      assert RunsToEnd(p + [e], b, i, j);
    }
  }

  /** The state a tracked run's end leaves, whether or not the watch then exits. */
  lemma RunEndedKeeps(w: Watch, p: seq<Event>, st: State, e: Event, st': State)
    requires Invariant(w, p, st) && After(w, p) == Some(st)
    requires e.RunEnded? && e.run in st.runs
    requires st' == State(st.pending - {st.runs[e.run]}, st.runs - {e.run}, st.failed || e.failed)
    ensures RunsAreOurs(w, p + [e], st')
    ensures DoneBeadsRan(w, p + [e], st')
    ensures st'.failed <==> TrackedRunFailed(w, p + [e])
  {
    var p' := p + [e];
    PrefixFacts(w, p, e);
    assert p'[..|p|] == p;
    assert FailsTracked(w, p', |p|) <==> e.failed;
    forall r | r in st'.runs ensures st'.runs[r] in w.beads && exists i: nat :: StartedAt(p', r, st'.runs[r], i) {
      var i: nat :| StartedAt(p, r, st.runs[r], i);
      assert StartedAt(p', r, st'.runs[r], i);
    }
    forall b | b in w.beads && b !in st'.pending
      ensures exists i: nat, j: nat :: RunsToEnd(p', b, i, j) && (p'[j].failed ==> st'.failed)
    {
      if b !in st.pending {
        var i: nat, j: nat :| RunsToEnd(p, b, i, j) && (p[j].failed ==> st.failed);
        assert RunsToEnd(p', b, i, j);
      } else {
        var i: nat :| StartedAt(p, e.run, b, i);
        assert RunsToEnd(p', b, i, |p|);
      }
    }
  }

  lemma QuietKeeps(w: Watch, p: seq<Event>, st: State, e: Event)
    requires Invariant(w, p, st) && After(w, p) == Some(st)
    requires Step(w, st, e) == Go(st) && (e.RunEnded? ==> e.run !in st.runs)
    ensures Invariant(w, p + [e], st)
  {
    var p' := p + [e];
    PrefixFacts(w, p, e);
    assert p'[..|p|] == p;
    DoneBeadsStay(w, p, st, e, st);
    forall r | r in st.runs ensures exists i: nat :: StartedAt(p', r, st.runs[r], i) {
      var i: nat :| StartedAt(p, r, st.runs[r], i);
      assert StartedAt(p', r, st.runs[r], i);
    }
  }

  /** What holds at every loop head; in particular the pending set is never empty
      there, so the branch that tests it on a completed group is never taken. */
  lemma {:induction false} InvariantHolds(w: Watch, p: seq<Event>)
    requires w.beads != [] && After(w, p).Some?
    ensures Invariant(w, p, After(w, p).value)
  {
    if p == [] {
      assert w.beads[0] in Start(w).pending;
    } else {
      var n := |p| - 1;
      var init, e := p[..n], p[n];
      InvariantHolds(w, init);
      var st := After(w, init).value;
      assert p == init + [e];
      if e.RunStarted? {
        RunStartedKeeps(w, init, st, e);
      } else if e.RunEnded? && e.run in st.runs {
        RunEndedKeeps(w, init, st, e, After(w, p).value);
      } else {
        QuietKeeps(w, init, st, e);
      }
    }
  }

  lemma PendingNeverEmpty(w: Watch, p: seq<Event>)
    requires w.beads != [] && After(w, p).Some?
    ensures After(w, p).value.pending != {}
  {
    InvariantHolds(w, p);
  }

  predicate OurGroupSucceeded(w: Watch, e: Event) {
    e == GroupCompleted(w.queue, w.group, "complete-success")
  }

  lemma ExitZeroStep(w: Watch, p: seq<Event>, e: Event)
    requires w.beads != [] && After(w, p).Some? && Step(w, After(w, p).value, e) == Exit(0)
    ensures EveryBeadCompleted(w, p + [e]) || OurGroupSucceeded(w, e)
    ensures !TrackedRunFailed(w, p + [e])
  {
    InvariantHolds(w, p);
    var st, p' := After(w, p).value, p + [e];
    PrefixFacts(w, p, e);
    if e.RunEnded? {
      var st' := State(st.pending - {st.runs[e.run]}, st.runs - {e.run}, st.failed || e.failed);
      RunEndedKeeps(w, p, st, e, st');
      forall b | b in w.beads ensures exists i: nat, j: nat :: RunsToEnd(p', b, i, j) && !p'[j].failed {
        assert b !in st'.pending;
        var i: nat, j: nat :| RunsToEnd(p', b, i, j) && (p'[j].failed ==> st'.failed);
      }
    }
  }

  /** In append mode exit 0 means that at some event the watch stopped with no
      tracked run failed, and either every watched bead had a run that started and
      then completed, or our group ended complete-success. */
  lemma ExitZeroMeans(w: Watch, events: seq<Event>) returns (k: nat)
    requires w.beads != [] && Watched(w, events) == 0
    ensures k < |events|
    ensures EveryBeadCompleted(w, events[..k + 1]) || OurGroupSucceeded(w, events[k])
    ensures !TrackedRunFailed(w, events[..k + 1])
  {
    k := Decided(w, Start(w), events, []);
    assert [] + events[..k] == events[..k];
    assert events[..k] + [events[k]] == events[..k + 1];
    ExitZeroStep(w, events[..k], events[k]);
  }

  lemma {:induction false} FailedNeverZero(w: Watch, st: State, events: seq<Event>)
    requires w.beads != [] && st.failed
    ensures ExitCode(w, st, events) == 1
    decreases |events|
  {
    if events != [] {
      match Step(w, st, events[0])
      case Exit(_) =>
      case Go(st') => FailedNeverZero(w, st', events[1..]);
    }
  }

  /** Once a tracked run has failed, no continuation of the stream gives 0. */
  lemma FailureIsFinal(w: Watch, p: seq<Event>, rest: seq<Event>)
    requires w.beads != [] && TrackedRunFailed(w, p)
    ensures Watched(w, p + rest) != 0
  {
    var j :| 0 <= j < |p| && FailsTracked(w, p, j);
    var st := After(w, p[..j]).value;
    var tail := (p + rest)[j..];
    assert p[..j] + tail == p + rest;
    AfterThenRest(w, p[..j], tail);
    assert tail[0] == p[j];
    match Step(w, st, tail[0])
    case Exit(_) =>
    case Go(st') => FailedNeverZero(w, st', tail[1..]);
  }

  // ---- Work that completes is reported ----

  /** Nothing of ours goes wrong: no refusal, no failed end of a run started for a
      watched bead, no pause of our queue, and our group ends, if it does, in a
      success that can be notified. The work of others may fail, pause and end. */
  predicate Quiet(w: Watch, own: set<string>, e: Event) {
    match e
    case Refusal => false
    case GroupCompleted(queue, group, status) =>
      queue != w.queue || group != w.group || (status == COMPLETE_SUCCESS && !w.notifyFails)
    case RunStarted(_, _) => true
    case RunEnded(run, failed) => failed ==> run !in own
    case QueuePaused(queue) => queue != w.queue
    case Ignored => true
  }

  /** One run id is never started for two watched beads. */
  ghost predicate RunsHaveOneBead(w: Watch, events: seq<Event>) {
    forall i, j ::
      0 <= i < |events| && 0 <= j < |events| && StartOfOneRun(w, events[i], events[j]) ==> events[i].bead == events[j].bead
  }

  predicate StartOfOneRun(w: Watch, e: Event, f: Event) {
    e.RunStarted? && f.RunStarted? && e.run == f.run && !ForeignStart(w, e) && !ForeignStart(w, f)
  }

  lemma {:induction false} PendingOurs(w: Watch, p: seq<Event>)
    requires After(w, p).Some?
    ensures forall b :: b in After(w, p).value.pending ==> b in w.beads
  {
    if p != [] {
      PendingOurs(w, p[..|p| - 1]);
    }
  }

  /** While b is pending every run started for it is tracked and has not ended. */
  lemma {:induction false} PendingRunsOpen(w: Watch, p: seq<Event>, b: string, i: nat)
    requires w.beads != [] && After(w, p).Some? && b in After(w, p).value.pending
    requires RunsHaveOneBead(w, p) && i < |p| && p[i].RunStarted? && p[i].bead == Some(b) && b in w.beads
    ensures p[i].run in After(w, p).value.runs && After(w, p).value.runs[p[i].run] == b
    ensures NoEndBetween(p, p[i].run, i, |p|)
  {
    var n := |p| - 1;
    var init := p[..n];
    assert p == init + [p[n]];
    PendingOurs(w, init);
    if i < n {
      assert forall k :: 0 <= k < n ==> init[k] == p[k];
      PendingRunsOpen(w, init, b, i);
      assert StartOfOneRun(w, p[i], p[n]) ==> p[i].bead == p[n].bead;
    }
  }

  lemma {:induction false} QuietGoesOnOrZero(w: Watch, own: set<string>, p: seq<Event>, rest: seq<Event>)
    requires w.beads != [] && After(w, p).Some? && !After(w, p).value.failed
    requires After(w, p).value.runs.Keys <= own && OwnRuns(w, rest) <= own
    requires forall b :: b in After(w, p).value.pending ==> b in w.beads
    requires forall e :: e in rest ==> Quiet(w, own, e)
    ensures Watched(w, p + rest) == 0 || (After(w, p + rest).Some? && !After(w, p + rest).value.failed)
    decreases |rest|
  {
    if rest == [] {
      assert p + rest == p;
    } else {
      var st, e := After(w, p).value, rest[0];
      assert e in rest;
      assert e.RunStarted? && !ForeignStart(w, e) ==> e.run in OwnRuns(w, rest);
      AfterThenRest(w, p, rest);
      QuietStep(w, own, st, e);
      match Step(w, st, e)
      case Exit(_) =>
      case Go(st') =>
        var p' := p + [e];
        assert p'[..|p'| - 1] == p && p' + rest[1..] == p + rest;
        assert OwnRuns(w, rest[1..]) <= OwnRuns(w, rest);
        QuietGoesOnOrZero(w, own, p', rest[1..]);
    }
  }

  lemma QuietStep(w: Watch, own: set<string>, st: State, e: Event)
    requires w.beads != [] && !st.failed && st.runs.Keys <= own && Quiet(w, own, e)
    requires forall b :: b in st.pending ==> b in w.beads
    requires e.RunStarted? && !ForeignStart(w, e) ==> e.run in own
    ensures match Step(w, st, e)
      case Exit(code) => code == 0
      case Go(st') => !st'.failed && st'.runs.Keys <= own && forall b :: b in st'.pending ==> b in w.beads
  {
  }

  lemma SomePending(w: Watch, p: seq<Event>) returns (b: string)
    requires w.beads != [] && After(w, p).Some?
    ensures b in After(w, p).value.pending && b in w.beads
  {
    InvariantHolds(w, p);
    b :| b in After(w, p).value.pending;
  }

  lemma PendingBeadUnfinished(w: Watch, p: seq<Event>, b: string, i: nat, j: nat)
    requires w.beads != [] && After(w, p).Some? && b in After(w, p).value.pending && b in w.beads && RunsHaveOneBead(w, p)
    ensures !RunsToEnd(p, b, i, j)
  {
    if RunsToEnd(p, b, i, j) {
      PendingRunsOpen(w, p, b, i);
    }
  }

  lemma UnfinishedBead(w: Watch, p: seq<Event>)
    requires w.beads != [] && After(w, p).Some? && RunsHaveOneBead(w, p)
    ensures exists b :: b in w.beads && forall i: nat, j: nat :: !RunsToEnd(p, b, i, j)
  {
    var b := SomePending(w, p);
    forall i: nat, j: nat ensures !RunsToEnd(p, b, i, j) {
      PendingBeadUnfinished(w, p, b, i, j);
    }
  }

  /** If nothing of ours goes wrong and every watched bead has a run that starts and
      then ends, the watch exits 0, whatever the rest of the daemon does. */
  lemma CompletionIsSeen(w: Watch, events: seq<Event>)
    requires w.beads != [] && RunsHaveOneBead(w, events)
    requires forall e :: e in events ==> Quiet(w, OwnRuns(w, events), e)
    requires forall b :: b in w.beads ==> exists i: nat, j: nat :: RunsToEnd(events, b, i, j)
    ensures Watched(w, events) == 0
  {
    assert [] + events == events;
    QuietGoesOnOrZero(w, OwnRuns(w, events), [], events);
    if Watched(w, events) != 0 {
      UnfinishedBead(w, events);
    }
  }

  /** One run id for two watched beads is where completion goes unseen: the second
      start takes the first bead's run away, and that bead stays pending for good. */
  lemma SharedRunIdHides(queue: string)
    ensures var w := Watch(queue, 0, ["a", "b"], false);
      var events := [RunStarted("r", Some("a")), RunStarted("r", Some("b")), RunEnded("r", false)];
      && RunsToEnd(events, "a", 0, 2) && RunsToEnd(events, "b", 1, 2)
      && (forall e :: e in events ==> Quiet(w, OwnRuns(w, events), e))
      && Watched(w, events) == 1
  {
    var w := Watch(queue, 0, ["a", "b"], false);
    var first, second, ended := RunStarted("r", Some("a")), RunStarted("r", Some("b")), RunEnded("r", false);
    var events := [first, second, ended];
    assert "a" in w.beads && "b" in w.beads;
    var s0 := Start(w);
    var s1 := State(s0.pending, map["r" := "a"], false);
    var s2 := State(s0.pending, map["r" := "b"], false);
    assert "a" in s2.pending - {"b"};
    assert events[1..] == [second, ended] && [second, ended][1..] == [ended] && [ended][1..] == [];
    assert Step(w, s0, first) == Go(s1) && Step(w, s1, second) == Go(s2);
    var s3 := State(s0.pending - {"b"}, map[], false);
    assert Step(w, s2, ended) == Go(s3);
    assert ExitCode(w, s3, []) == 1;
    assert ExitCode(w, s2, [ended]) == 1;
    assert ExitCode(w, s1, [second, ended]) == 1;
  }

  // ---- Submit mode ----

  predicate Decisive(w: Watch, e: Event) {
    || e.Refusal?
    || (e.GroupCompleted? && e.queue == w.queue && e.group == w.group)
    || (e.QueuePaused? && e.queue == w.queue)
  }

  predicate FirstDecisiveSucceeds(w: Watch, events: seq<Event>, k: nat)
    requires k < |events|
  {
    OurGroupSucceeded(w, events[k]) && forall j :: 0 <= j < k ==> !Decisive(w, events[j])
  }

  /** In submit mode exit 0 means exactly that the first refusal, pause of our
      queue or completion of our group is a complete-success that was notified. */
  lemma {:induction false} SubmitModeExactly(w: Watch, st: State, events: seq<Event>)
    requires w.beads == []
    ensures ExitCode(w, st, events) == 0 <==>
      !w.notifyFails && exists k :: 0 <= k < |events| && FirstDecisiveSucceeds(w, events, k)
    decreases |events|
  {
    if events != [] {
      var rest := events[1..];
      if Decisive(w, events[0]) {
        assert OurGroupSucceeded(w, events[0]) ==> FirstDecisiveSucceeds(w, events, 0);
      } else {
        SubmitModeExactly(w, st, rest);
        if k :| 0 <= k < |rest| && FirstDecisiveSucceeds(w, rest, k) {
          assert FirstDecisiveSucceeds(w, events, k + 1);
        }
        if k :| 0 <= k < |events| && FirstDecisiveSucceeds(w, events, k) {
          assert FirstDecisiveSucceeds(w, rest, k - 1) by {
            forall j | 0 <= j < k - 1 ensures !Decisive(w, rest[j]) {
              assert rest[j] == events[j + 1];
            }
          }
        }
      }
    }
  }

  // ---- Append mode, told from the stream ----

  /** The beads that have finished after each number of events: a bead finishes when a
      run that is open for it ends. */
  ghost function FinishedBy(w: Watch, p: seq<Event>): (fs: seq<set<string>>)
    ensures |fs| == |p| + 1
  {
    if p == [] then [{}]
    else
      var n := |p| - 1;
      var fs := FinishedBy(w, p[..n]);
      fs + [fs[n] + if p[n].RunEnded? then set b | b in w.beads && OpenFor(w, p[..n], fs, p[n].run, b) else {}]
  }

  /** The event starts run r for another watched bead, not finished, and so takes the
      run away from b. */
  predicate Takes(w: Watch, e: Event, finished: set<string>, r: string, b: string) {
    e.RunStarted? && e.run == r && e.bead.Some? && e.bead.value != b && e.bead.value in w.beads && e.bead.value !in finished
  }

  /** Run r was started at i for the watched bead b, which had not finished, and by the
      end of p has neither ended nor been taken away. */
  ghost predicate Open(w: Watch, p: seq<Event>, fs: seq<set<string>>, r: string, b: string, i: nat)
    requires |fs| == |p| + 1
  {
    && i < |p| && p[i] == RunStarted(r, Some(b)) && b in w.beads && b !in fs[i]
    && forall m :: i < m < |p| ==> !(p[m].RunEnded? && p[m].run == r) && !Takes(w, p[m], fs[m], r, b)
  }

  ghost predicate OpenFor(w: Watch, p: seq<Event>, fs: seq<set<string>>, r: string, b: string)
    requires |fs| == |p| + 1
  {
    exists i: nat :: Open(w, p, fs, r, b, i)
  }

  ghost predicate OpenNow(w: Watch, p: seq<Event>, r: string, b: string) {
    OpenFor(w, p, FinishedBy(w, p), r, b)
  }

  ghost predicate Finished(w: Watch, p: seq<Event>, b: string) {
    b in FinishedBy(w, p)[|p|]
  }

  ghost predicate OpenFailed(w: Watch, p: seq<Event>) {
    exists b, j: nat :: j < |p| && p[j].RunEnded? && p[j].failed && OpenNow(w, p[..j], p[j].run, b)
  }

  ghost predicate AllFinished(w: Watch, p: seq<Event>) {
    forall b :: b in w.beads ==> Finished(w, p, b)
  }

  lemma FinishedSnoc(w: Watch, p: seq<Event>, e: Event, b: string)
    ensures Finished(w, p + [e], b) <==> Finished(w, p, b) || (e.RunEnded? && b in w.beads && OpenNow(w, p, e.run, b))
    ensures FinishedBy(w, p + [e])[..|p| + 1] == FinishedBy(w, p)
  {
    assert (p + [e])[..|p|] == p;
  }

  lemma OpenSnoc(w: Watch, p: seq<Event>, e: Event, r: string, b: string)
    ensures OpenNow(w, p + [e], r, b) <==>
      || (OpenNow(w, p, r, b) && !(e.RunEnded? && e.run == r) && !Takes(w, e, FinishedBy(w, p)[|p|], r, b))
      || (e == RunStarted(r, Some(b)) && b in w.beads && !Finished(w, p, b))
  {
    var p', fs, fs' := p + [e], FinishedBy(w, p), FinishedBy(w, p + [e]);
    FinishedSnoc(w, p, e, b);
    assert forall k :: 0 <= k <= |p| ==> fs'[k] == fs'[..|p| + 1][k];
    if OpenNow(w, p, r, b) && !(e.RunEnded? && e.run == r) && !Takes(w, e, fs[|p|], r, b) {
      var i: nat :| Open(w, p, fs, r, b, i);
      assert Open(w, p', fs', r, b, i);
    }
    if e == RunStarted(r, Some(b)) && b in w.beads && !Finished(w, p, b) {
      assert Open(w, p', fs', r, b, |p|);
    }
    if OpenNow(w, p', r, b) {
      var i: nat :| Open(w, p', fs', r, b, i);
      if i < |p| {
        assert p'[|p|] == e;
        assert Open(w, p, fs, r, b, i) by {
          assert forall m :: i < m < |p| ==> p'[m] == p[m];
        }
      }
    }
  }

  /** The watcher's state is what the stream says: a bead is pending until one of its
      runs finishes, a run is tracked while it is open, and the flag is set once an
      open run has failed. */
  ghost predicate Board(w: Watch, p: seq<Event>, st: State) {
    && (forall b :: b in st.pending <==> b in w.beads && !Finished(w, p, b))
    && (forall r, b :: OpenNow(w, p, r, b) <==> r in st.runs && st.runs[r] == b)
    && (forall r :: r in st.runs ==> st.runs[r] in w.beads)
    && (st.failed <==> OpenFailed(w, p))
  }

  lemma OpenFailedSnoc(w: Watch, p: seq<Event>, e: Event)
    ensures OpenFailed(w, p + [e]) <==>
      OpenFailed(w, p) || (e.RunEnded? && e.failed && exists b :: OpenNow(w, p, e.run, b))
  {
    var p' := p + [e];
    assert p'[..|p|] == p && p'[|p|] == e;
    if OpenFailed(w, p) {
      var b, j: nat :| j < |p| && p[j].RunEnded? && p[j].failed && OpenNow(w, p[..j], p[j].run, b);
      assert p'[j] == p[j] && p'[..j] == p[..j];
      assert OpenNow(w, p'[..j], p'[j].run, b);
    }
    if e.RunEnded? && e.failed && exists b :: OpenNow(w, p, e.run, b) {
      var b :| OpenNow(w, p, e.run, b);
      assert OpenNow(w, p'[..|p|], p'[|p|].run, b);
    }
    if OpenFailed(w, p') {
      var b, j: nat :| j < |p'| && p'[j].RunEnded? && p'[j].failed && OpenNow(w, p'[..j], p'[j].run, b);
      if j < |p| {
        assert p'[j] == p[j] && p'[..j] == p[..j];
        assert OpenNow(w, p[..j], p[j].run, b);
      }
    }
  }

  /** The state that a start leaves, whether for a watched bead or not. */
  lemma StartKeepsBoard(w: Watch, p: seq<Event>, st: State, e: Event)
    requires w.beads != [] && Board(w, p, st) && e.RunStarted?
    ensures Step(w, st, e).Go? && Board(w, p + [e], Step(w, st, e).state)
  {
    var p', st' := p + [e], Step(w, st, e).state;
    forall b ensures Finished(w, p', b) <==> Finished(w, p, b) {
      FinishedSnoc(w, p, e, b);
    }
    OpenFailedSnoc(w, p, e);
    forall r, b ensures OpenNow(w, p', r, b) <==> r in st'.runs && st'.runs[r] == b {
      OpenSnoc(w, p, e, r, b);
      assert e.bead.Some? ==> (e.bead.value in FinishedBy(w, p)[|p|] <==> Finished(w, p, e.bead.value));
    }
  }

  lemma EndKeepsBoard(w: Watch, p: seq<Event>, st: State, e: Event)
    requires Board(w, p, st) && e.RunEnded? && e.run in st.runs
    ensures Board(w, p + [e], State(st.pending - {st.runs[e.run]}, st.runs - {e.run}, st.failed || e.failed))
  {
    var p', st' := p + [e], State(st.pending - {st.runs[e.run]}, st.runs - {e.run}, st.failed || e.failed);
    assert OpenNow(w, p, e.run, st.runs[e.run]);
    forall b ensures Finished(w, p', b) <==> Finished(w, p, b) || b == st.runs[e.run] {
      FinishedSnoc(w, p, e, b);
    }
    OpenFailedSnoc(w, p, e);
    forall r, b ensures OpenNow(w, p', r, b) <==> r in st'.runs && st'.runs[r] == b {
      OpenSnoc(w, p, e, r, b);
    }
  }

  lemma OtherKeepsBoard(w: Watch, p: seq<Event>, st: State, e: Event)
    requires Board(w, p, st) && !e.RunStarted? && (e.RunEnded? ==> e.run !in st.runs)
    ensures Board(w, p + [e], st)
  {
    var p' := p + [e];
    forall b ensures Finished(w, p', b) <==> Finished(w, p, b) {
      FinishedSnoc(w, p, e, b);
    }
    OpenFailedSnoc(w, p, e);
    forall r, b ensures OpenNow(w, p', r, b) <==> OpenNow(w, p, r, b) {
      OpenSnoc(w, p, e, r, b);
    }
  }

  /** The event at k makes the watch report success: our group ends complete-success
      and is notified, or a run ends that leaves no bead unfinished; nothing before k
      was decisive or left none unfinished, and no open run has failed by then. */
  ghost predicate SucceedsAt(w: Watch, p: seq<Event>, k: nat)
    requires k < |p|
  {
    && (forall j :: 0 <= j < k ==> !Decisive(w, p[j])) && !AllFinished(w, p[..k]) && !OpenFailed(w, p[..k + 1])
    && ((OurGroupSucceeded(w, p[k]) && !w.notifyFails) || (!Decisive(w, p[k]) && AllFinished(w, p[..k + 1])))
  }

  /** Nothing in p has ended the watch. */
  ghost predicate StillWatching(w: Watch, p: seq<Event>) {
    (forall j :: 0 <= j < |p| ==> !Decisive(w, p[j])) && forall k :: 0 <= k <= |p| ==> !AllFinished(w, p[..k])
  }

  lemma StillSnoc(w: Watch, p: seq<Event>, e: Event)
    ensures StillWatching(w, p + [e]) <==> StillWatching(w, p) && !Decisive(w, e) && !AllFinished(w, p + [e])
  {
    var p' := p + [e];
    assert forall k :: 0 <= k <= |p| ==> p'[..k] == p[..k];
    assert p'[..|p'|] == p' && p'[|p|] == e;
    if StillWatching(w, p') {
      forall k | 0 <= k <= |p| ensures !AllFinished(w, p[..k]) {
        assert p'[..k] == p[..k];
      }
      forall j | 0 <= j < |p| ensures !Decisive(w, p[j]) {
        assert p'[j] == p[j];
      }
    }
  }

  /** One event, from a state that the stream so far describes. */
  lemma StepOnBoard(w: Watch, p: seq<Event>, st: State, e: Event)
    requires w.beads != [] && Board(w, p, st) && StillWatching(w, p)
    ensures match Step(w, st, e)
      case Go(st') => Board(w, p + [e], st') && StillWatching(w, p + [e])
      case Exit(code) => !StillWatching(w, p + [e]) && (code == 0 <==> SucceedsAt(w, p + [e], |p|))
  {
    var p' := p + [e];
    assert p[..|p|] == p && p'[..|p|] == p && p'[..|p| + 1] == p' && p'[|p|] == e;
    StillSnoc(w, p, e);
    if e.RunStarted? {
      StartKeepsBoard(w, p, st, e);
      PendingUnfinished(w, p', Step(w, st, e).state);
      PendingUnfinished(w, p, st);
    } else if e.RunEnded? && e.run in st.runs {
      EndKeepsBoard(w, p, st, e);
      PendingUnfinished(w, p', State(st.pending - {st.runs[e.run]}, st.runs - {e.run}, st.failed || e.failed));
    } else {
      OtherKeepsBoard(w, p, st, e);
      PendingUnfinished(w, p, st);
      PendingUnfinished(w, p', st);
    }
  }

  lemma PendingUnfinished(w: Watch, p: seq<Event>, st: State)
    requires Board(w, p, st)
    ensures st.pending == {} <==> AllFinished(w, p)
  {
    if st.pending != {} {
      var b :| b in st.pending;
    }
  }

  lemma {:induction false} ZeroFrom(w: Watch, p: seq<Event>, st: State, rest: seq<Event>)
    requires w.beads != [] && Board(w, p, st) && StillWatching(w, p)
    ensures ExitCode(w, st, rest) == 0 <==> exists k :: |p| <= k < |p + rest| && SucceedsAt(w, p + rest, k)
    decreases |rest|
  {
    if rest != [] {
      var e, p' := rest[0], p + [rest[0]];
      assert p' + rest[1..] == p + rest;
      StepOnBoard(w, p, st, e);
      SucceedsLocal(w, p', p + rest, |p|);
      match Step(w, st, e)
      case Go(st') =>
        ZeroFrom(w, p', st', rest[1..]);
        assert p'[..|p| + 1] == p' && !AllFinished(w, p');
      case Exit(code) =>
        if k :| |p| < k < |p + rest| && SucceedsAt(w, p + rest, k) {
          LaterNever(w, p, e, p + rest, k);
        }
    }
  }

  /** Whether the event at k decides for success depends on nothing after it. */
  lemma SucceedsLocal(w: Watch, p: seq<Event>, q: seq<Event>, k: nat)
    requires k < |p| && p <= q
    ensures SucceedsAt(w, p, k) <==> SucceedsAt(w, q, k)
  {
    assert p[..k] == q[..k] && p[..k + 1] == q[..k + 1];
    assert forall j :: 0 <= j <= k ==> p[j] == q[j];
  }

  lemma {:induction false} FinishedStays(w: Watch, p: seq<Event>, q: seq<Event>, b: string)
    requires p <= q && Finished(w, p, b)
    ensures Finished(w, q, b)
    decreases |q|
  {
    if p != q {
      var n := |q| - 1;
      assert q == q[..n] + [q[n]];
      FinishedStays(w, p, q[..n], b);
      FinishedSnoc(w, q[..n], q[n], b);
    }
  }

  lemma LaterNever(w: Watch, p: seq<Event>, e: Event, q: seq<Event>, k: nat)
    requires p + [e] <= q && |p| < k < |q| && StillWatching(w, p) && !StillWatching(w, p + [e])
    ensures !SucceedsAt(w, q, k)
  {
    StillSnoc(w, p, e);
    assert q[|p|] == e;
    if AllFinished(w, p + [e]) {
      forall b | b in w.beads ensures Finished(w, q[..k], b) {
        FinishedStays(w, p + [e], q[..k], b);
      }
    }
  }

  lemma StartBoard(w: Watch)
    requires w.beads != []
    ensures Board(w, [], Start(w)) && StillWatching(w, [])
  {
    var b := w.beads[0];
    assert !Finished(w, [], b);
  }

  /** In append mode, for every stream: exit 0 is given if and only if some event makes
      the watch report success. Any refusal, pause of our queue or other end of our
      group before that gives 1. */
  lemma AppendModeExactly(w: Watch, events: seq<Event>)
    requires w.beads != []
    ensures Watched(w, events) == 0 <==> exists k :: 0 <= k < |events| && SucceedsAt(w, events, k)
  {
    StartBoard(w);
    ZeroFrom(w, [], Start(w), events);
    assert [] + events == events;
  }
}
