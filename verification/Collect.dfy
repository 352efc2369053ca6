/** `harmonik eval collect`: folding the event log into one state per run, and adding
    a record for each graded run that the output does not have yet. */
module Collect {
  import opened Order
  import opened Results

  /** A decoded payload; Other is any other event type, or a payload that does not
      decode. */
  datatype Body =
    | RunStarted(bead: string, startedAt: string)
    | RunEnded(endedAt: string)         // run_completed and run_failed
    | HarnessSelected(agent: string)
    | PhaseComplete(seconds: int)
    | NodeDispatched(node: string)
    | OutcomeEmitted(node: string)
    | Checkpoint(commit: string)
    | Other

  /** A line of the log; Skipped is a blank or malformed one. */
  datatype Entry = Skipped | Event(run: Option<string>, wall: int, body: Body)

  datatype RunState = RunState(bead: string, startedAt: string, endedAt: string, wall: Option<int>,
                               harness: string, seconds: int, graded: bool, judged: bool, commit: string)

  function NewState(): RunState {
    RunState("", "", "", None, "", 0, false, false, "")
  }

  function Applied(s: RunState, wall: int, body: Body): RunState {
    match body
    case RunStarted(bead, startedAt) => s.(bead := bead, startedAt := startedAt)
    case RunEnded(endedAt) => s.(endedAt := endedAt, wall := Some(wall))
    case HarnessSelected(agent) => if agent != "" then s.(harness := agent) else s
    case PhaseComplete(seconds) => s.(seconds := seconds)
    case NodeDispatched(node) => if node == "grade" then s.(graded := true) else s
    case OutcomeEmitted(node) => if node == "judge" then s.(judged := true) else s
    case Checkpoint(commit) => if commit != "" then s.(commit := commit) else s
    case Other => s
  }

  predicate About(e: Entry, id: string) {
    e.Event? && e.run == Some(id)
  }

  /** The state of one run, from the whole log. */
  function StateOf(log: seq<Entry>, id: string): RunState {
    if log == [] then NewState()
    else
      var before, e := StateOf(log[..|log| - 1], id), log[|log| - 1];
      if About(e, id) then Applied(before, e.wall, e.body) else before
  }

  /** The runs that a filter lets through; the empty filter lets all through. */
  function RunsIn(log: seq<Entry>, filter: string): set<string> {
    set i | 0 <= i < |log| && log[i].Event? && log[i].run.Some? && (filter == "" || log[i].run.value == filter) :: log[i].run.value
  }

  /** The per-run record that the log reader updates in place. */
  class EvalRunState {
    var bead: string
    var startedAt: string
    var endedAt: string
    var wall: Option<int>
    var harness: string
    var seconds: int
    var graded: bool
    var judged: bool
    var commit: string

    constructor ()
      ensures View() == NewState()
    {
      bead, startedAt, endedAt, wall, harness, seconds, graded, judged, commit := "", "", "", None, "", 0, false, false, "";
    }

    function View(): RunState
      reads this
    {
      RunState(bead, startedAt, endedAt, wall, harness, seconds, graded, judged, commit)
    }

    method Apply(at: int, body: Body)
      modifies this
      ensures View() == Applied(old(View()), at, body)
    {
      match body {
        case RunStarted(b, s) => bead, startedAt := b, s;
        case RunEnded(e) => endedAt, wall := e, Some(at);
        case HarnessSelected(agent) =>
          if agent != "" {
            harness := agent;
          }
        case PhaseComplete(n) => seconds := n;
        case NodeDispatched(node) =>
          if node == "grade" {
            graded := true;
          }
        case OutcomeEmitted(node) =>
          if node == "judge" {
            judged := true;
          }
        case Checkpoint(c) =>
          if c != "" {
            commit := c;
          }
        case Other =>
      }
    }
  }

  ghost predicate Separate(states: map<string, EvalRunState>) {
    forall a, b :: a in states && b in states && a != b ==> states[a] != states[b]
  }

  method ReadEvents(log: seq<Entry>, filter: string) returns (states: map<string, EvalRunState>)
    ensures states.Keys == RunsIn(log, filter)
    ensures forall id :: id in states ==> states[id].View() == StateOf(log, id)
    ensures Separate(states) && forall id :: id in states ==> fresh(states[id])
  {
    states := map[];
    for i := 0 to |log|
      invariant states.Keys == RunsIn(log[..i], filter)
      invariant forall id :: id in states ==> states[id].View() == StateOf(log[..i], id)
      invariant Separate(states) && forall id :: id in states ==> fresh(states[id])
    {
      RunsInStep(log, i, filter);
      StateStep(log, i);
      var env := log[i];
      if env.Skipped? || env.run.None? {
        continue;
      }
      var runId := env.run.value;
      if filter != "" && runId != filter {
        continue;
      }
      if runId !in states {
        NoEventsYet(log[..i], runId, filter);
        var st := new EvalRunState();
        states := states[runId := st];
      }
      states[runId].Apply(env.wall, env.body);
    }
    assert log[..|log|] == log;
  }

  lemma RunsInStep(log: seq<Entry>, i: nat, filter: string)
    requires i < |log|
    ensures var e := log[i];
      RunsIn(log[..i + 1], filter) == RunsIn(log[..i], filter)
        + (if e.Event? && e.run.Some? && (filter == "" || e.run.value == filter) then {e.run.value} else {})
  {
    var a, b := log[..i], log[..i + 1];
    assert b == a + [log[i]];
    forall id ensures id in RunsIn(b, filter) <==>
      id in RunsIn(a, filter) || (log[i].Event? && log[i].run == Some(id) && (filter == "" || id == filter))
    {
      if id in RunsIn(a, filter) {
        var k :| 0 <= k < i && a[k].Event? && a[k].run == Some(id);
        assert b[k] == a[k];
      }
      if id in RunsIn(b, filter) {
        var k :| 0 <= k < i + 1 && b[k].Event? && b[k].run == Some(id);
        assert k < i ==> a[k] == b[k];
      }
      assert b[i] == log[i];
    }
  }

  lemma StateStep(log: seq<Entry>, i: nat)
    requires i < |log|
    ensures forall id :: StateOf(log[..i + 1], id) == Stepped(StateOf(log[..i], id), log[i], id)
  {
    assert log[..i + 1][..i] == log[..i];
  }

  function Stepped(s: RunState, e: Entry, id: string): RunState {
    if About(e, id) then Applied(s, e.wall, e.body) else s
  }

  lemma {:induction false} NoEventsYet(log: seq<Entry>, id: string, filter: string)
    requires id !in RunsIn(log, filter) && (filter == "" || id == filter)
    ensures StateOf(log, id) == NewState()
  {
    if log != [] {
      var n := |log| - 1;
      RunsInStep(log, n, filter);
      assert log[..n + 1] == log;
      NoEventsYet(log[..n], id, filter);
    }
  }

  // ---- The output ----

  /** The parts of a record that come from the log; labels and model names are looked
      up elsewhere. */
  datatype Record = Record(run: string, bead: string, harness: string, pass: bool, startedAt: string, endedAt: string,
                           seconds: int, commit: string, wall: Option<int>)

  /** A line of the output file; Foreign is blank, malformed or without a run id. */
  datatype OutLine = Foreign | Written(record: Record)

  function BuildRecord(id: string, s: RunState): Record {
    Record(id, s.bead, s.harness, s.judged, s.startedAt, s.endedAt, s.seconds, s.commit, s.wall)
  }

  function ExistingIds(output: seq<OutLine>): set<string> {
    set i | 0 <= i < |output| && output[i].Written? && output[i].record.run != "" :: output[i].record.run
  }

  method ReadExistingRunIDs(output: seq<OutLine>) returns (ids: set<string>)
    ensures ids == ExistingIds(output)
  {
    ids := {};
    for i := 0 to |output|
      invariant ids == ExistingIds(output[..i])
    {
      ExistingStep(output[..i], output[i]);
      assert output[..i + 1] == output[..i] + [output[i]];
      if output[i].Foreign? || output[i].record.run == "" {
        continue;
      }
      ids := ids + {output[i].record.run};
    }
    assert output[..|output|] == output;
  }

  lemma ExistingStep(output: seq<OutLine>, line: OutLine)
    ensures ExistingIds(output + [line]) ==
      ExistingIds(output) + (if line.Written? && line.record.run != "" then {line.record.run} else {})
  {
    var more := output + [line];
    forall id ensures id in ExistingIds(more) <==> id in ExistingIds(output) || (id != "" && line.Written? && line.record.run == id) {
      if id in ExistingIds(output) {
        var k :| 0 <= k < |output| && output[k].Written? && output[k].record.run == id && id != "";
        assert more[k] == output[k];
      }
      if id in ExistingIds(more) {
        var k :| 0 <= k < |more| && more[k].Written? && more[k].record.run == id && id != "";
        assert k < |output| ==> output[k] == more[k];
      }
      assert more[|output|] == line;
    }
  }

  /** The lines that are written for a sorted list of runs. */
  function NewLines(ids: seq<string>, log: seq<Entry>, existing: set<string>): seq<OutLine> {
    if ids == [] then []
    else
      var before, id := NewLines(ids[..|ids| - 1], log, existing), ids[|ids| - 1];
      if StateOf(log, id).graded && id !in existing then before + [Written(BuildRecord(id, StateOf(log, id)))] else before
  }

  /** Everything that one collect run adds. */
  function Collected(log: seq<Entry>, filter: string, output: seq<OutLine>): seq<OutLine> {
    NewLines(Sorted(RunsIn(log, filter)), log, ExistingIds(output))
  }

  method WriteRecords(states: map<string, EvalRunState>, ghost log: seq<Entry>, existing: set<string>, output: seq<OutLine>)
    returns (output': seq<OutLine>, written: nat, skipped: nat)
    requires forall id :: id in states ==> states[id].View() == StateOf(log, id)
    ensures output' == output + NewLines(Sorted(states.Keys), log, existing)
    ensures written == |NewLines(Sorted(states.Keys), log, existing)|
    ensures skipped == |set id | id in states && StateOf(log, id).graded && id in existing|
  {
    var runIds := Sorted(states.Keys);
    output', written, skipped := output, 0, 0;
    for i := 0 to |runIds|
      invariant Tally(runIds[..i], log, existing, output, output', written, skipped)
    {
      assert runIds[i] in runIds;
      var line, dup := WriteRecord(runIds[i], states[runIds[i]], existing);
      TallyStep(runIds, i, log, existing, output, output', written, skipped);
      if dup {
        skipped := skipped + 1;
      }
      if line.Some? {
        output' := output' + [line.value];
        written := written + 1;
      }
    }
    assert runIds[..|runIds|] == runIds;
    DupsAre(states.Keys, runIds, log, existing);
  }

  /** What the output and the two counters say of the runs that are done. */
  ghost predicate Tally(done: seq<string>, log: seq<Entry>, existing: set<string>,
                        output: seq<OutLine>, output': seq<OutLine>, written: nat, skipped: nat) {
    var lines := NewLines(done, log, existing);
    output' == output + lines && written == |lines| && skipped == |Dups(done, log, existing)|
  }

  lemma TallyStep(ids: seq<string>, i: nat, log: seq<Entry>, existing: set<string>,
                  output: seq<OutLine>, output': seq<OutLine>, written: nat, skipped: nat)
    requires Ascending(ids) && i < |ids| && Tally(ids[..i], log, existing, output, output', written, skipped)
    ensures var id := ids[i]; var s := StateOf(log, id);
      if !s.graded then Tally(ids[..i + 1], log, existing, output, output', written, skipped)
      else if id in existing then Tally(ids[..i + 1], log, existing, output, output', written, skipped + 1)
      else Tally(ids[..i + 1], log, existing, output, output' + [Written(BuildRecord(id, s))], written + 1, skipped)
  {
    LinesStep(ids, log, existing, i);
    Appends(output, NewLines(ids[..i], log, existing), Written(BuildRecord(ids[i], StateOf(log, ids[i]))));
  }

  /** The line for one run: none for a run that is not graded or already there. */
  method WriteRecord(runId: string, st: EvalRunState, existing: set<string>) returns (line: Option<OutLine>, dup: bool)
    ensures line == if st.View().graded && runId !in existing then Some(Written(BuildRecord(runId, st.View()))) else None
    ensures dup == (st.View().graded && runId in existing)
  {
    if !st.graded {
      return None, false;
    }
    if runId in existing {
      return None, true;
    }
    return Some(Written(BuildRecord(runId, st.View()))), false;
  }

  lemma Appends(a: seq<OutLine>, b: seq<OutLine>, line: OutLine)
    ensures a + b + [line] == a + (b + [line])
  {
  }

  function Dups(ids: seq<string>, log: seq<Entry>, existing: set<string>): set<string> {
    set id | id in ids && StateOf(log, id).graded && id in existing
  }

  lemma LinesStep(ids: seq<string>, log: seq<Entry>, existing: set<string>, i: nat)
    requires Ascending(ids) && i < |ids|
    ensures var id := ids[i]; var graded := StateOf(log, id).graded;
      && NewLines(ids[..i + 1], log, existing) == NewLines(ids[..i], log, existing)
           + (if graded && id !in existing then [Written(BuildRecord(id, StateOf(log, id)))] else [])
      && Dups(ids[..i + 1], log, existing) == Dups(ids[..i], log, existing) + (if graded && id in existing then {id} else {})
      && id !in Dups(ids[..i], log, existing)
  {
    assert ids[..i + 1][..i] == ids[..i];
    assert ids[..i + 1] == ids[..i] + [ids[i]];
    forall k | 0 <= k < i ensures ids[k] != ids[i] {
      LessAsymmetric(ids[k], ids[i]);
    }
  }

  lemma DupsAre(ids: set<string>, runIds: seq<string>, log: seq<Entry>, existing: set<string>)
    requires forall x :: x in runIds <==> x in ids
    ensures Dups(runIds, log, existing) == set id | id in ids && StateOf(log, id).graded && id in existing
  {
  }

  /** One collect run whose writes all succeed. */
  method RunEvalCollect(log: seq<Entry>, filter: string, output: seq<OutLine>) returns (output': seq<OutLine>, written: nat, skipped: nat)
    ensures output' == output + Collected(log, filter, output)
    ensures written == |output'| - |output|
    ensures skipped == |set id | id in RunsIn(log, filter) && StateOf(log, id).graded && id in ExistingIds(output)|
  {
    var states := ReadEvents(log, filter);
    var existing := ReadExistingRunIDs(output);
    output', written, skipped := WriteRecords(states, log, existing, output);
  }

  // ---- Histories ----

  /** The log grows, or a collect run adds its lines; a run that is cut short has
      added only the first `cut` of them. */
  datatype Step = Grow(entries: seq<Entry>) | Run(filter: string, cut: Option<nat>)

  datatype State = State(log: seq<Entry>, output: seq<OutLine>)

  function Added(s: State, filter: string, cut: Option<nat>): seq<OutLine> {
    var lines := Collected(s.log, filter, s.output);
    if cut.Some? && cut.value < |lines| then lines[..cut.value] else lines
  }

  function Next(s: State, step: Step): State {
    match step
    case Grow(entries) => s.(log := s.log + entries)
    case Run(filter, cut) => s.(output := s.output + Added(s, filter, cut))
  }

  function After(s: State, steps: seq<Step>): State {
    if steps == [] then s else Next(After(s, steps[..|steps| - 1]), steps[|steps| - 1])
  }

  /** No non-empty run id comes twice. */
  ghost predicate OnceEach(output: seq<OutLine>) {
    forall i, j :: 0 <= i < j < |output| && output[i].Written? && output[j].Written? && output[i].record.run != "" ==>
      output[i].record.run != output[j].record.run
  }

  predicate OtherRun(line: OutLine, id: string) {
    line.Written? && line.record.run != id
  }

  lemma {:induction false} NewLineIs(ids: seq<string>, log: seq<Entry>, existing: set<string>, k: nat)
    requires Ascending(ids) && k < |NewLines(ids, log, existing)|
    ensures var line := NewLines(ids, log, existing)[k];
      && line.Written? && line.record.run in ids && line.record.run !in existing
      && StateOf(log, line.record.run).graded && line.record == BuildRecord(line.record.run, StateOf(log, line.record.run))
    ensures forall j :: 0 <= j < k ==> OtherRun(NewLines(ids, log, existing)[j], NewLines(ids, log, existing)[k].record.run)
  {
    var n := |ids| - 1;
    var before := NewLines(ids[..n], log, existing);
    assert forall x :: x in ids[..n] ==> x in ids;
    if k < |before| {
      NewLineIs(ids[..n], log, existing, k);
    } else {
      assert ids[n] in ids;
      forall j | 0 <= j < k ensures OtherRun(before[j], ids[n]) {
        NewLineIs(ids[..n], log, existing, j);
        var i :| 0 <= i < n && ids[..n][i] == before[j].record.run;
        LessAsymmetric(ids[i], ids[n]);
      }
    }
  }

  lemma {:induction false} NewLineFor(ids: seq<string>, log: seq<Entry>, existing: set<string>, id: string)
    requires id in ids && StateOf(log, id).graded && id !in existing
    ensures exists k :: 0 <= k < |NewLines(ids, log, existing)| && NewLines(ids, log, existing)[k] == Written(BuildRecord(id, StateOf(log, id)))
  {
    var n := |ids| - 1;
    var all, before := NewLines(ids, log, existing), NewLines(ids[..n], log, existing);
    if ids[n] == id {
      assert all[|before|] == Written(BuildRecord(id, StateOf(log, id)));
    } else {
      var i :| 0 <= i < |ids| && ids[i] == id;
      assert ids[..n][i] == id;
      NewLineFor(ids[..n], log, existing, id);
      var k :| 0 <= k < |before| && before[k] == Written(BuildRecord(id, StateOf(log, id)));
      assert all[k] == before[k];
    }
  }

  lemma OnceEachStep(s: State, filter: string, cut: Option<nat>)
    requires OnceEach(s.output)
    ensures OnceEach(s.output + Added(s, filter, cut))
  {
    var ids, existing := Sorted(RunsIn(s.log, filter)), ExistingIds(s.output);
    var lines, added := NewLines(ids, s.log, existing), Added(s, filter, cut);
    var after := s.output + added;
    forall i, j | 0 <= i < j < |after| && after[i].Written? && after[j].Written? && after[i].record.run != ""
      ensures after[i].record.run != after[j].record.run
    {
      if j >= |s.output| {
        assert after[j] == lines[j - |s.output|];
        NewLineIs(ids, s.log, existing, j - |s.output|);
        if i >= |s.output| {
          assert after[i] == lines[i - |s.output|];
        } else {
          assert s.output[i].record.run in existing;
        }
      }
    }
  }

  /** Over any history of log growth and collect runs, with any filters and however
      cut short, no non-empty run id comes twice in the output. */
  lemma {:induction false} NeverTwice(log: seq<Entry>, steps: seq<Step>)
    ensures OnceEach(After(State(log, []), steps).output)
  {
    if steps != [] {
      var n := |steps| - 1;
      NeverTwice(log, steps[..n]);
      if steps[n].Run? {
        OnceEachStep(After(State(log, []), steps[..n]), steps[n].filter, steps[n].cut);
      }
    }
  }

  predicate Says(log: seq<Entry>, id: string, body: Body) {
    exists i :: 0 <= i < |log| && About(log[i], id) && log[i].body == body
  }

  predicate GradeDispatched(log: seq<Entry>, id: string) {
    Says(log, id, NodeDispatched("grade"))
  }

  predicate JudgeSpoke(log: seq<Entry>, id: string) {
    Says(log, id, OutcomeEmitted("judge"))
  }

  lemma SaysSnoc(log: seq<Entry>, e: Entry, id: string, body: Body)
    ensures Says(log + [e], id, body) <==> Says(log, id, body) || (About(e, id) && e.body == body)
  {
    var all := log + [e];
    if Says(log, id, body) {
      var i :| 0 <= i < |log| && About(log[i], id) && log[i].body == body;
      assert all[i] == log[i];
    }
    assert all[|log|] == e;
  }

  lemma {:induction false} StateSays(log: seq<Entry>, id: string)
    ensures StateOf(log, id).graded <==> GradeDispatched(log, id)
    ensures StateOf(log, id).judged <==> JudgeSpoke(log, id)
  {
    if log != [] {
      var n := |log| - 1;
      StateSays(log[..n], id);
      assert log == log[..n] + [log[n]];
      SaysSnoc(log[..n], log[n], id, NodeDispatched("grade"));
      SaysSnoc(log[..n], log[n], id, OutcomeEmitted("judge"));
    }
  }

  function RunIds(output: seq<OutLine>): set<string> {
    set i | 0 <= i < |output| && output[i].Written? :: output[i].record.run
  }

  /** After an unfiltered run, the ids in the output are the old ones and exactly the
      runs for which the log has a dispatched grade node. */
  lemma UnfilteredIsComplete(s: State, id: string)
    ensures id in RunIds(Next(s, Run("", None)).output) <==> id in RunIds(s.output) || GradeDispatched(s.log, id)
  {
    var ids, existing := Sorted(RunsIn(s.log, "")), ExistingIds(s.output);
    var lines := NewLines(ids, s.log, existing);
    var after := s.output + lines;
    assert Next(s, Run("", None)).output == after;
    StateSays(s.log, id);
    if id in RunIds(s.output) {
      var k :| 0 <= k < |s.output| && s.output[k].Written? && s.output[k].record.run == id;
      assert after[k] == s.output[k];
    }
    if GradeDispatched(s.log, id) && id !in RunIds(s.output) {
      var i :| 0 <= i < |s.log| && About(s.log[i], id) && s.log[i].body == NodeDispatched("grade");
      assert id in ids && id !in existing;
      NewLineFor(ids, s.log, existing, id);
      var k :| 0 <= k < |lines| && lines[k] == Written(BuildRecord(id, StateOf(s.log, id)));
      assert after[|s.output| + k].record.run == id;
    }
    if id in RunIds(after) {
      var k :| 0 <= k < |after| && after[k].Written? && after[k].record.run == id;
      if k >= |s.output| {
        NewLineIs(ids, s.log, existing, k - |s.output|);
      }
    }
  }

  /** The empty run id is the exception: it never counts as existing, so every
      unfiltered run adds it once more when its grade node was dispatched. */
  lemma EmptyIdRepeats(s: State)
    requires GradeDispatched(s.log, "")
    ensures "" in RunIds(Next(s, Run("", None)).output[|s.output|..])
  {
    var ids, existing := Sorted(RunsIn(s.log, "")), ExistingIds(s.output);
    var lines := NewLines(ids, s.log, existing);
    StateSays(s.log, "");
    var i :| 0 <= i < |s.log| && About(s.log[i], "") && s.log[i].body == NodeDispatched("grade");
    assert "" in ids;
    NewLineFor(ids, s.log, existing, "");
    var k :| 0 <= k < |lines| && lines[k] == Written(BuildRecord("", StateOf(s.log, "")));
    assert Next(s, Run("", None)).output[|s.output|..] == lines;
  }

  // ---- A record is what the log said when it was first collected ----

  ghost predicate FromPrefix(log: seq<Entry>, r: Record, n: nat) {
    n <= |log| && r == BuildRecord(r.run, StateOf(log[..n], r.run)) && GradeDispatched(log[..n], r.run)
  }

  ghost predicate AllFromPrefixes(s: State) {
    forall k :: 0 <= k < |s.output| ==> s.output[k].Written? && exists n: nat :: FromPrefix(s.log, s.output[k].record, n)
  }

  lemma PrefixStep(s: State, step: Step)
    requires AllFromPrefixes(s)
    ensures AllFromPrefixes(Next(s, step))
  {
    var s' := Next(s, step);
    forall k | 0 <= k < |s'.output| ensures s'.output[k].Written? && exists n: nat :: FromPrefix(s'.log, s'.output[k].record, n) {
      if k < |s.output| {
        var n: nat :| FromPrefix(s.log, s.output[k].record, n);
        assert s'.log[..n] == s.log[..n];
        assert FromPrefix(s'.log, s.output[k].record, n);
      } else {
        var ids, existing := Sorted(RunsIn(s.log, step.filter)), ExistingIds(s.output);
        assert s'.output[k] == NewLines(ids, s.log, existing)[k - |s.output|];
        NewLineIs(ids, s.log, existing, k - |s.output|);
        StateSays(s.log, s'.output[k].record.run);
        assert s.log[..|s.log|] == s.log;
        assert FromPrefix(s'.log, s'.output[k].record, |s.log|);
      }
    }
  }

  /** Over any history, every record is what some prefix of the log said of its run,
      a prefix in which the grade node was already dispatched. */
  lemma {:induction false} RecordsAreSnapshots(log: seq<Entry>, steps: seq<Step>)
    ensures AllFromPrefixes(After(State(log, []), steps))
  {
    if steps != [] {
      RecordsAreSnapshots(log, steps[..|steps| - 1]);
      PrefixStep(After(State(log, []), steps[..|steps| - 1]), steps[|steps| - 1]);
    }
  }

  // ---- A verdict is final when it is first collected ----

  function RecordsOf(output: seq<OutLine>, id: string): seq<Record> {
    if output == [] then []
    else
      var before, line := RecordsOf(output[..|output| - 1], id), output[|output| - 1];
      if line.Written? && line.record.run == id then before + [line.record] else before
  }

  lemma {:induction false} RecordsOfBoth(a: seq<OutLine>, b: seq<OutLine>, id: string)
    ensures RecordsOf(a + b, id) == RecordsOf(a, id) + RecordsOf(b, id)
  {
    if b == [] {
      assert a + b == a;
    } else {
      var n := |b| - 1;
      RecordsOfBoth(a, b[..n], id);
      assert (a + b)[..|a + b| - 1] == a + b[..n];
    }
  }

  lemma {:induction false} RecordsOfNone(lines: seq<OutLine>, id: string)
    requires forall k :: 0 <= k < |lines| ==> OtherRun(lines[k], id)
    ensures RecordsOf(lines, id) == []
  {
    if lines != [] {
      var n := |lines| - 1;
      assert forall k :: 0 <= k < n ==> lines[..n][k] == lines[k];
      RecordsOfNone(lines[..n], id);
    }
  }

  lemma {:induction false} RecordsOfNewLines(ids: seq<string>, log: seq<Entry>, existing: set<string>, id: string)
    requires Ascending(ids) && id in ids && StateOf(log, id).graded && id !in existing
    ensures RecordsOf(NewLines(ids, log, existing), id) == [BuildRecord(id, StateOf(log, id))]
  {
    var n := |ids| - 1;
    var before := NewLines(ids[..n], log, existing);
    if ids[n] == id {
      forall k | 0 <= k < |before| ensures OtherRun(before[k], id) {
        assert NewLines(ids, log, existing)[k] == before[k];
        NewLineIs(ids, log, existing, |before|);
      }
      RecordsOfNone(before, id);
      assert NewLines(ids, log, existing) == before + [Written(BuildRecord(id, StateOf(log, id)))];
      assert (before + [Written(BuildRecord(id, StateOf(log, id)))])[..|before|] == before;
    } else {
      var i :| 0 <= i < |ids| && ids[i] == id;
      assert ids[..n][i] == id;
      RecordsOfNewLines(ids[..n], log, existing, id);
      var all := NewLines(ids, log, existing);
      if all != before {
        assert all[..|before|] == before;
      }
    }
  }

  lemma AddedAreNew(s: State, filter: string, cut: Option<nat>, id: string)
    requires id in ExistingIds(s.output)
    ensures RecordsOf(Added(s, filter, cut), id) == []
  {
    var ids, existing := Sorted(RunsIn(s.log, filter)), ExistingIds(s.output);
    var added := Added(s, filter, cut);
    forall k | 0 <= k < |added| ensures OtherRun(added[k], id) {
      assert added[k] == NewLines(ids, s.log, existing)[k];
      NewLineIs(ids, s.log, existing, k);
    }
    RecordsOfNone(added, id);
  }

  /** Once a run is in the output, nothing that happens later touches its records or
      adds one. */
  lemma {:induction false} RecordsStay(s: State, id: string, steps: seq<Step>)
    requires id in ExistingIds(s.output)
    ensures id in ExistingIds(After(s, steps).output)
    ensures RecordsOf(After(s, steps).output, id) == RecordsOf(s.output, id)
  {
    if steps != [] {
      var n := |steps| - 1;
      RecordsStay(s, id, steps[..n]);
      var before := After(s, steps[..n]);
      if steps[n].Run? {
        var added := Added(before, steps[n].filter, steps[n].cut);
        AddedAreNew(before, steps[n].filter, steps[n].cut, id);
        RecordsOfBoth(before.output, added, id);
        var k :| 0 <= k < |before.output| && before.output[k].Written? && before.output[k].record.run == id && id != "";
        assert (before.output + added)[k] == before.output[k];
      }
    }
  }

  /** The full collect run writes these ids. */
  predicate Collects(s: State, filter: string, id: string) {
    (filter == "" || id == filter) && GradeDispatched(s.log, id) && id !in ExistingIds(s.output)
  }

  lemma CollectedIds(s: State, filter: string, id: string)
    ensures id in RunIds(Collected(s.log, filter, s.output)) <==> Collects(s, filter, id)
  {
    var ids, existing := Sorted(RunsIn(s.log, filter)), ExistingIds(s.output);
    var lines := Collected(s.log, filter, s.output);
    StateSays(s.log, id);
    if Collects(s, filter, id) {
      var i :| 0 <= i < |s.log| && About(s.log[i], id) && s.log[i].body == NodeDispatched("grade");
      assert id in ids;
      NewLineFor(ids, s.log, existing, id);
      var k :| 0 <= k < |lines| && lines[k] == Written(BuildRecord(id, StateOf(s.log, id)));
      assert lines[k].record.run == id;
    }
    if id in RunIds(lines) {
      var k :| 0 <= k < |lines| && lines[k].Written? && lines[k].record.run == id;
      NewLineIs(ids, s.log, existing, k);
    }
  }

  lemma NoRecordYet(output: seq<OutLine>, id: string)
    requires id != "" && id !in ExistingIds(output)
    ensures RecordsOf(output, id) == []
  {
    if output != [] {
      var n := |output| - 1;
      ExistingStep(output[..n], output[n]);
      assert output[..n] + [output[n]] == output;
      NoRecordYet(output[..n], id);
    }
  }

  /** The verdict of the moment is the verdict for good: whatever follows the collect
      run that first writes a run, further events and further collect runs with any
      filter, the output holds that one record of it. A run whose judge had not
      spoken stays failed. */
  lemma FirstVerdictIsForGood(s: State, filter: string, id: string, steps: seq<Step>)
    requires id != "" && Collects(s, filter, id)
    ensures RecordsOf(After(Next(s, Run(filter, None)), steps).output, id) == [BuildRecord(id, StateOf(s.log, id))]
    ensures BuildRecord(id, StateOf(s.log, id)).pass == JudgeSpoke(s.log, id)
  {
    var ids, existing := Sorted(RunsIn(s.log, filter)), ExistingIds(s.output);
    var lines, s' := Collected(s.log, filter, s.output), Next(s, Run(filter, None));
    StateSays(s.log, id);
    var i :| 0 <= i < |s.log| && About(s.log[i], id) && s.log[i].body == NodeDispatched("grade");
    assert id in ids;
    RecordsOfNewLines(ids, s.log, existing, id);
    NoRecordYet(s.output, id);
    RecordsOfBoth(s.output, lines, id);
    CollectedIds(s, filter, id);
    var k :| 0 <= k < |lines| && lines[k].Written? && lines[k].record.run == id;
    assert s'.output[|s.output| + k].record.run == id;
    RecordsStay(s', id, steps);
  }

  predicate Tells(line: OutLine, log: seq<Entry>) {
    line.Written? && line.record.pass == JudgeSpoke(log, line.record.run)
  }

  /** After the steps that follow a collect run, each line that it wrote says what the
      log then says of its run. */
  ghost predicate StillRight(s: State, filter: string, steps: seq<Step>) {
    var end, from, count := After(Next(s, Run(filter, None)), steps), |s.output|, |Collected(s.log, filter, s.output)|;
    && from + count <= |end.output|
    && forall k :: from <= k < from + count ==> Tells(end.output[k], end.log)
  }

  lemma {:induction false} OnlyGrows(s: State, steps: seq<Step>)
    ensures s.log <= After(s, steps).log && s.output <= After(s, steps).output
  {
    if steps != [] {
      OnlyGrows(s, steps[..|steps| - 1]);
    }
  }

  lemma JudgeStays(log: seq<Entry>, more: seq<Entry>, id: string)
    requires log <= more && JudgeSpoke(log, id)
    ensures JudgeSpoke(more, id)
  {
    var i :| 0 <= i < |log| && About(log[i], id) && log[i].body == OutcomeEmitted("judge");
    assert more[i] == log[i];
  }

  /** For one continuation: the verdicts are still right exactly when no run that the
      collect run wrote has had its judge speak since for the first time. */
  lemma StillRightExactly(s: State, filter: string, steps: seq<Step>)
    ensures StillRight(s, filter, steps) <==>
      forall id :: Collects(s, filter, id) && JudgeSpoke(After(Next(s, Run(filter, None)), steps).log, id) ==> JudgeSpoke(s.log, id)
  {
    var ids, existing := Sorted(RunsIn(s.log, filter)), ExistingIds(s.output);
    var lines, s' := Collected(s.log, filter, s.output), Next(s, Run(filter, None));
    var end := After(s', steps);
    OnlyGrows(s', steps);
    forall k | 0 <= k < |lines|
      ensures lines[k] == end.output[|s.output| + k] && lines[k].Written? && Collects(s, filter, lines[k].record.run)
      ensures lines[k].record.pass == JudgeSpoke(s.log, lines[k].record.run)
    {
      assert s'.output[|s.output| + k] == lines[k];
      NewLineIs(ids, s.log, existing, k);
      StateSays(s.log, lines[k].record.run);
      assert lines[k].record.run in RunIds(lines);
      CollectedIds(s, filter, lines[k].record.run);
    }
    if StillRight(s, filter, steps) {
      forall id | Collects(s, filter, id) && JudgeSpoke(end.log, id) ensures JudgeSpoke(s.log, id) {
        CollectedIds(s, filter, id);
        var k :| 0 <= k < |lines| && lines[k].Written? && lines[k].record.run == id;
        assert Tells(end.output[|s.output| + k], end.log);
      }
    }
    if forall id :: Collects(s, filter, id) && JudgeSpoke(end.log, id) ==> JudgeSpoke(s.log, id) {
      forall k | |s.output| <= k < |s.output| + |lines| ensures Tells(end.output[k], end.log) {
        var id := lines[k - |s.output|].record.run;
        assert end.output[k] == lines[k - |s.output|];
        if JudgeSpoke(s.log, id) {
          JudgeStays(s.log, end.log, id);
        }
      }
    }
  }

  /** So a collect run can be sure of its verdicts, whatever happens next, exactly
      when every graded run that it is about to write has been judged. */
  lemma VerdictIsFinalExactly(s: State, filter: string)
    ensures (forall steps :: StillRight(s, filter, steps)) <==> (forall id :: Collects(s, filter, id) ==> JudgeSpoke(s.log, id))
  {
    if forall id :: Collects(s, filter, id) ==> JudgeSpoke(s.log, id) {
      forall steps ensures StillRight(s, filter, steps) {
        StillRightExactly(s, filter, steps);
      }
    }
    if forall steps :: StillRight(s, filter, steps) {
      forall id | Collects(s, filter, id) ensures JudgeSpoke(s.log, id) {
        var later := [Event(Some(id), 0, OutcomeEmitted("judge"))];
        var s' := Next(s, Run(filter, None));
        StillRightExactly(s, filter, [Grow(later)]);
        AfterOne(s', Grow(later));
        assert (s'.log + later)[|s'.log|] == later[0];
        assert JudgeSpoke(After(s', [Grow(later)]).log, id);
      }
    }
  }

  lemma AfterOne(s: State, step: Step)
    ensures After(s, [step]) == Next(s, step)
  {
    assert After(s, []) == s;
    assert [step][..0] == [];
  }

  /** A history that leaves a wrong verdict: collected between the dispatch of its grade
      node and its judge's outcome, the run "r" is failed for every later reader,
      although the judge speaks and the output is collected again. */
  lemma CollectedTooEarly(steps: seq<Step>)
    ensures var graded, judged := Event(Some("r"), 0, NodeDispatched("grade")), Event(Some("r"), 0, OutcomeEmitted("judge"));
      var early := State([graded], []);
      var end := After(Next(early, Run("", None)), [Grow([judged])] + steps);
      && JudgeSpoke(end.log, "r")
      && RecordsOf(end.output, "r") == [Record("r", "", "", false, "", "", 0, "", None)]
  {
    var graded, judged := Event(Some("r"), 0, NodeDispatched("grade")), Event(Some("r"), 0, OutcomeEmitted("judge"));
    var early := State([graded], []);
    var next := Next(early, Run("", None));
    assert About(early.log[0], "r");
    FirstVerdictIsForGood(early, "", "r", [Grow([judged])] + steps);
    assert early.log[..0] == [];
    assert StateOf(early.log, "r") == NewState().(graded := true);
    AfterMore(next, [Grow([judged])], steps);
    AfterOne(next, Grow([judged]));
    OnlyGrows(Next(next, Grow([judged])), steps);
    assert (early.log + [judged])[1] == judged;
    JudgeStays(early.log + [judged], After(next, [Grow([judged])] + steps).log, "r");
  }

  lemma {:induction false} AfterMore(s: State, a: seq<Step>, b: seq<Step>)
    ensures After(s, a + b) == After(After(s, a), b)
  {
    if b == [] {
      assert a + b == a;
    } else {
      AfterMore(s, a, b[..|b| - 1]);
      assert (a + b)[..|a + b| - 1] == a + b[..|b| - 1];
    }
  }

  // ---- The fields of a record ----

  datatype Field = Start | End | Agent | Phase | Commit

  /** The event sets the field. */
  predicate Sets(f: Field, body: Body) {
    match f
    case Start => body.RunStarted?
    case End => body.RunEnded?
    case Agent => body.HarnessSelected? && body.agent != ""
    case Phase => body.PhaseComplete?
    case Commit => body.Checkpoint? && body.commit != ""
  }

  /** The last event of the run that sets the field. */
  predicate LastSets(log: seq<Entry>, id: string, f: Field, i: nat) {
    && i < |log| && About(log[i], id) && Sets(f, log[i].body)
    && forall j :: i < j < |log| && About(log[j], id) ==> !Sets(f, log[j].body)
  }

  predicate NeverSet(log: seq<Entry>, id: string, f: Field) {
    forall j :: 0 <= j < |log| && About(log[j], id) ==> !Sets(f, log[j].body)
  }

  /** The record says of the field what the event does. */
  predicate SaysAs(r: Record, f: Field, e: Entry)
    requires e.Event? && Sets(f, e.body)
  {
    match f
    case Start => r.bead == e.body.bead && r.startedAt == e.body.startedAt
    case End => r.endedAt == e.body.endedAt && r.wall == Some(e.wall)
    case Agent => r.harness == e.body.agent
    case Phase => r.seconds == e.body.seconds
    case Commit => r.commit == e.body.commit
  }

  predicate SaysNothing(r: Record, f: Field) {
    match f
    case Start => r.bead == "" && r.startedAt == ""
    case End => r.endedAt == "" && r.wall == None
    case Agent => r.harness == ""
    case Phase => r.seconds == 0
    case Commit => r.commit == ""
  }

  predicate SameField(r: Record, q: Record, f: Field) {
    match f
    case Start => r.bead == q.bead && r.startedAt == q.startedAt
    case End => r.endedAt == q.endedAt && r.wall == q.wall
    case Agent => r.harness == q.harness
    case Phase => r.seconds == q.seconds
    case Commit => r.commit == q.commit
  }

  lemma AppliedSays(s: RunState, id: string, e: Entry, f: Field)
    requires e.Event?
    ensures var r := BuildRecord(id, Applied(s, e.wall, e.body));
      if Sets(f, e.body) then SaysAs(r, f, e) else SameField(r, BuildRecord(id, s), f)
  {
  }

  /** Every field of a record is that of the run's last event that sets it, or empty. */
  ghost predicate TellsLast(r: Record, log: seq<Entry>, id: string, f: Field) {
    && (forall i: nat :: LastSets(log, id, f, i) ==> SaysAs(r, f, log[i]))
    && (NeverSet(log, id, f) ==> SaysNothing(r, f))
  }

  lemma TellsSnoc(q: Record, r: Record, log: seq<Entry>, e: Entry, id: string, f: Field)
    requires TellsLast(q, log, id, f)
    requires if About(e, id) && Sets(f, e.body) then SaysAs(r, f, e) else SameField(r, q, f)
    ensures TellsLast(r, log + [e], id, f)
  {
    var all := log + [e];
    assert all[|log|] == e;
    forall i: nat | LastSets(all, id, f, i) ensures SaysAs(r, f, all[i]) {
      if i < |log| {
        LastSetsShorter(log, e, id, f, i);
      }
    }
    if NeverSet(all, id, f) {
      NeverSetShorter(log, e, id, f);
    }
  }

  lemma LastSetsShorter(log: seq<Entry>, e: Entry, id: string, f: Field, i: nat)
    requires i < |log| && LastSets(log + [e], id, f, i)
    ensures LastSets(log, id, f, i) && (log + [e])[i] == log[i] && !(About(e, id) && Sets(f, e.body))
  {
    assert (log + [e])[|log|] == e;
    assert forall j :: 0 <= j < |log| ==> (log + [e])[j] == log[j];
  }

  lemma NeverSetShorter(log: seq<Entry>, e: Entry, id: string, f: Field)
    requires NeverSet(log + [e], id, f)
    ensures NeverSet(log, id, f) && !(About(e, id) && Sets(f, e.body))
  {
    assert (log + [e])[|log|] == e;
    assert forall j :: 0 <= j < |log| ==> (log + [e])[j] == log[j];
  }

  lemma {:induction false} RecordSaysLast(log: seq<Entry>, id: string, f: Field)
    ensures TellsLast(BuildRecord(id, StateOf(log, id)), log, id, f) && BuildRecord(id, StateOf(log, id)).run == id
  {
    if log != [] {
      var n := |log| - 1;
      var before := StateOf(log[..n], id);
      RecordSaysLast(log[..n], id, f);
      assert log == log[..n] + [log[n]];
      if About(log[n], id) {
        AppliedSays(before, id, log[n], f);
      }
      TellsSnoc(BuildRecord(id, before), BuildRecord(id, StateOf(log, id)), log[..n], log[n], id, f);
    }
  }

  ghost predicate RunsAscend(lines: seq<OutLine>) {
    forall i, j :: 0 <= i < j < |lines| && lines[i].Written? && lines[j].Written? ==> Less(lines[i].record.run, lines[j].record.run)
  }

  /** A collect run writes its records in ascending order of run id. */
  lemma {:induction false} LinesAscend(ids: seq<string>, log: seq<Entry>, existing: set<string>)
    requires Ascending(ids)
    ensures RunsAscend(NewLines(ids, log, existing))
  {
    if ids != [] {
      var n := |ids| - 1;
      var before, all := NewLines(ids[..n], log, existing), NewLines(ids, log, existing);
      LinesAscend(ids[..n], log, existing);
      forall i | 0 <= i < |before| ensures before[i].Written? && Less(before[i].record.run, ids[n]) {
        NewLineIs(ids[..n], log, existing, i);
        var k :| 0 <= k < n && ids[..n][k] == before[i].record.run;
        assert ids[k] == before[i].record.run;
      }
    }
  }

  /** So over any history the record of a run stays what its last events said when it
      was first collected. */
  lemma FirstFieldsAreForGood(s: State, filter: string, id: string, steps: seq<Step>, f: Field)
    requires id != "" && Collects(s, filter, id)
    ensures var records := RecordsOf(After(Next(s, Run(filter, None)), steps).output, id);
      |records| == 1 && records[0].run == id && TellsLast(records[0], s.log, id, f)
  {
    FirstVerdictIsForGood(s, filter, id, steps);
    RecordSaysLast(s.log, id, f);
  }
}
