/** The resumable pilot loader (scripts/load-pilot.py): its driver, and all runs of it
    that may be killed, or may give up, between any two effects. */
module Loader {
  import opened Results
  import opened Ledger

  datatype Task = Task(mnem: string, title: string)

  /** The epic and the beads of a data file. */
  datatype Data = Data(epic: Task, beads: seq<Task>)

  /** A bead as the issue store has it; the mnemonic and the parent are those it was
      created for. */
  datatype Bead = Bead(id: string, mnem: string, parent: Option<string>, draft: bool)

  /** The issue store and the ledger's rows after its header. */
  datatype World = World(beads: seq<Bead>, ledger: seq<Row>)

  // ---- Validation ----

  /** No mnemonic twice, the epic's included. */
  predicate Distinct(data: Data) {
    && (forall i :: 0 <= i < |data.beads| ==> data.beads[i].mnem != data.epic.mnem)
    && (forall i, j :: 0 <= i < j < |data.beads| ==> data.beads[i].mnem != data.beads[j].mnem)
  }

  method Validate(data: Data) returns (ok: bool)
    ensures ok <==> Distinct(data)
  {
    var seen := {data.epic.mnem};
    for i := 0 to |data.beads|
      invariant seen == {data.epic.mnem} + set k | 0 <= k < i :: data.beads[k].mnem
      invariant forall k :: 0 <= k < i ==> data.beads[k].mnem != data.epic.mnem
      invariant forall k, l :: 0 <= k < l < i ==> data.beads[k].mnem != data.beads[l].mnem
    {
      if data.beads[i].mnem in seen {
        return false;
      }
      seen := seen + {data.beads[i].mnem};
    }
    ok := true;
  }

  // ---- One run, in small steps ----

  function Tasks(data: Data): seq<Task> {
    [data.epic] + data.beads
  }

  /** `own` is the run's map, `done` is how many entries are dealt with. A bead made
      but not in the ledger is held as `id`. */
  datatype Phase =
    | Idle
    | Working(data: Data, own: map<string, string>, done: nat)
    | Made(data: Data, own: map<string, string>, done: nat, id: string)
    | Drafted(data: Data, own: map<string, string>, done: nat, id: string)

  /** `lost` counts, per mnemonic, the kills between its create and its append. */
  datatype State = State(world: World, phase: Phase, lost: map<string, nat>)

  /** Begin starts a run on a data file; Go is the next effect, with the id that the
      issue store would give a new bead; Stop is a kill, a crash, a non-zero exit of
      the tool, or a rejected id. */
  datatype Step = Begin(data: Data) | Go(id: string) | Stop

  function Used(beads: seq<Bead>): set<string> {
    set i | 0 <= i < |beads| :: beads[i].id
  }

  function SetDraft(beads: seq<Bead>, id: string): (r: seq<Bead>)
    ensures |r| == |beads|
    ensures forall i :: 0 <= i < |beads| ==> r[i] == if beads[i].id == id then beads[i].(draft := true) else beads[i]
  {
    seq(|beads|, i requires 0 <= i < |beads| => if beads[i].id == id then beads[i].(draft := true) else beads[i])
  }

  function Lost(lost: map<string, nat>, mnem: string): nat {
    if mnem in lost then lost[mnem] else 0
  }

  function ParentFor(data: Data, own: map<string, string>, task: Task): Option<string> {
    if task.mnem == data.epic.mnem then None
    else Some(if data.epic.mnem in own then own[data.epic.mnem] else "DRY-EPIC")
  }

  function Next(s: State, step: Step): State {
    match step
    case Begin(data) =>
      var own := MapOf(CsvRows(File(s.world.ledger)));
      if !s.phase.Idle? || !Distinct(data) || own.Err? then s
      else s.(phase := Working(data, own.value, 0))
    case Stop =>
      if s.phase.Made? || s.phase.Drafted? then
        var mnem := if s.phase.done < |Tasks(s.phase.data)| then Tasks(s.phase.data)[s.phase.done].mnem else "";
        s.(phase := Idle, lost := s.lost[mnem := Lost(s.lost, mnem) + 1])
      else s.(phase := Idle)
    case Go(id) =>
      match s.phase
      case Idle => s
      case Working(data, own, done) =>
        if done >= |Tasks(data)| then s.(phase := Idle)
        else
          var task := Tasks(data)[done];
          if task.mnem in own then s.(phase := Working(data, own, done + 1))
          else if id in Used(s.world.beads) || !Plain(id) then s
          else s.(world := s.world.(beads := s.world.beads + [Bead(id, task.mnem, ParentFor(data, own, task), false)]),
                  phase := Made(data, own, done, id))
      case Made(data, own, done, made) =>
        s.(world := s.world.(beads := SetDraft(s.world.beads, made)), phase := Drafted(data, own, done, made))
      case Drafted(data, own, done, made) =>
        if done >= |Tasks(data)| then s
        else
          var task := Tasks(data)[done];
          s.(world := s.world.(ledger := s.world.ledger + [Row(task.mnem, made, task.title)]),
             phase := Working(data, own[task.mnem := made], done + 1))
  }

  function Run(s: State, steps: seq<Step>): State {
    if steps == [] then s else Next(Run(s, steps[..|steps| - 1]), steps[|steps| - 1])
  }

  function Initial(): State {
    State(World([], []), Idle, map[])
  }

  // ---- The invariant ----

  function Count(beads: seq<Bead>, mnem: string): nat {
    if beads == [] then 0
    else Count(beads[..|beads| - 1], mnem) + if beads[|beads| - 1].mnem == mnem then 1 else 0
  }

  ghost predicate OneRowEach(ledger: seq<Row>) {
    forall i, j :: 0 <= i < j < |ledger| ==> ledger[i].mnem != ledger[j].mnem
  }

  predicate Recorded(ledger: seq<Row>, mnem: string) {
    exists i :: 0 <= i < |ledger| && ledger[i].mnem == mnem
  }

  /** The bead of a row exists, was created for it and is draft. */
  ghost predicate DraftBead(beads: seq<Bead>, id: string, mnem: string) {
    exists i :: 0 <= i < |beads| && beads[i].id == id && beads[i].mnem == mnem && beads[i].draft
  }

  /** The mnemonic of a bead that is made but not recorded. */
  function Held(phase: Phase): Option<string> {
    if (phase.Made? || phase.Drafted?) && phase.done < |Tasks(phase.data)| then Some(Tasks(phase.data)[phase.done].mnem) else None
  }

  ghost predicate Conserved(s: State) {
    forall m :: Count(s.world.beads, m) ==
      (if Recorded(s.world.ledger, m) then 1 else 0) + Lost(s.lost, m) + (if Held(s.phase) == Some(m) then 1 else 0)
  }

  ghost predicate KeyedData(data: Data) {
    forall i :: 0 <= i < |Tasks(data)| ==> Plain(Tasks(data)[i].mnem) && Tasks(data)[i].mnem != HEADER_KEY
  }

  ghost predicate GoodPhase(world: World, phase: Phase) {
    match phase
    case Idle => true
    case Working(data, own, done) =>
      Distinct(data) && KeyedData(data) && own == LedgerMap(world.ledger) && AllDone(data, own, done)
    case Made(data, own, done, id) =>
      && Distinct(data) && KeyedData(data) && own == LedgerMap(world.ledger) && AllDone(data, own, done)
      && done < |Tasks(data)| && Tasks(data)[done].mnem !in own && Plain(id)
      && (exists i :: 0 <= i < |world.beads| && world.beads[i].id == id && world.beads[i].mnem == Tasks(data)[done].mnem)
    case Drafted(data, own, done, id) =>
      && Distinct(data) && KeyedData(data) && own == LedgerMap(world.ledger) && AllDone(data, own, done)
      && done < |Tasks(data)| && Tasks(data)[done].mnem !in own && Plain(id)
      && DraftBead(world.beads, id, Tasks(data)[done].mnem)
  }

  /** The first `done` tasks are in the map. */
  ghost predicate AllDone(data: Data, own: map<string, string>, done: nat) {
    done <= |Tasks(data)| && forall k :: 0 <= k < done ==> Tasks(data)[k].mnem in own
  }

  /** A child's parent is a recorded bead. */
  ghost predicate ParentsRecorded(world: World) {
    forall i :: 0 <= i < |world.beads| && world.beads[i].parent.Some? ==> HasId(world.ledger, world.beads[i].parent.value)
  }

  ghost predicate Inv(s: State) {
    && OneRowEach(s.world.ledger)
    && (forall k :: 0 <= k < |s.world.ledger| ==> Keyed(s.world.ledger[k]) && DraftBead(s.world.beads, s.world.ledger[k].id, s.world.ledger[k].mnem))
    && Conserved(s)
    && GoodPhase(s.world, s.phase)
    && ParentsRecorded(s.world)
  }

  lemma {:induction false} LedgerMapKeys(ledger: seq<Row>, m: string)
    ensures m in LedgerMap(ledger) <==> Recorded(ledger, m)
    ensures m in LedgerMap(ledger) ==> exists k :: 0 <= k < |ledger| && ledger[k].mnem == m && ledger[k].id == LedgerMap(ledger)[m]
  {
    if ledger != [] {
      var n := |ledger| - 1;
      LedgerMapKeys(ledger[..n], m);
      if Recorded(ledger, m) && ledger[n].mnem != m {
        var i :| 0 <= i < |ledger| && ledger[i].mnem == m;
        assert ledger[..n][i].mnem == m;
      }
      if Recorded(ledger[..n], m) {
        var i :| 0 <= i < n && ledger[..n][i].mnem == m;
        assert ledger[i].mnem == m;
      }
    }
  }

  lemma RecordedSnoc(ledger: seq<Row>, row: Row, m: string)
    ensures Recorded(ledger + [row], m) <==> Recorded(ledger, m) || row.mnem == m
  {
    var longer := ledger + [row];
    if i :| 0 <= i < |ledger| && ledger[i].mnem == m {
      assert longer[i].mnem == m;
    }
    assert longer[|ledger|] == row;
  }

  lemma CountSnoc(beads: seq<Bead>, bead: Bead, m: string)
    ensures Count(beads + [bead], m) == Count(beads, m) + if bead.mnem == m then 1 else 0
  {
    assert (beads + [bead])[..|beads|] == beads;
  }

  lemma {:induction false} CountDraft(beads: seq<Bead>, id: string, m: string)
    ensures Count(SetDraft(beads, id), m) == Count(beads, m)
  {
    if beads != [] {
      CountDraft(beads[..|beads| - 1], id, m);
      assert SetDraft(beads, id)[..|beads| - 1] == SetDraft(beads[..|beads| - 1], id);
    }
  }

  lemma DraftBeadKept(beads: seq<Bead>, more: seq<Bead>, made: string, id: string, mnem: string)
    requires DraftBead(beads, id, mnem)
    ensures DraftBead(beads + more, id, mnem) && DraftBead(SetDraft(beads, made), id, mnem)
  {
    var i :| 0 <= i < |beads| && beads[i].id == id && beads[i].mnem == mnem && beads[i].draft;
    assert (beads + more)[i] == beads[i];
    assert SetDraft(beads, made)[i].draft;
  }

  lemma RowsHaveBeads(ledger: seq<Row>, beads: seq<Bead>, more: seq<Bead>, made: string)
    requires forall k :: 0 <= k < |ledger| ==> DraftBead(beads, ledger[k].id, ledger[k].mnem)
    ensures forall k :: 0 <= k < |ledger| ==>
      DraftBead(beads + more, ledger[k].id, ledger[k].mnem) && DraftBead(SetDraft(beads, made), ledger[k].id, ledger[k].mnem)
  {
    forall k | 0 <= k < |ledger|
      ensures DraftBead(beads + more, ledger[k].id, ledger[k].mnem) && DraftBead(SetDraft(beads, made), ledger[k].id, ledger[k].mnem)
    {
      DraftBeadKept(beads, more, made, ledger[k].id, ledger[k].mnem);
    }
  }

  ghost predicate KeyedStep(step: Step) {
    step.Begin? ==> KeyedData(step.data)
  }

  lemma InvBegin(s: State, data: Data)
    requires Inv(s) && KeyedData(data)
    ensures Inv(Next(s, Begin(data)))
  {
    ReadBackExactly(s.world.ledger);
  }

  lemma InvStop(s: State)
    requires Inv(s)
    ensures Inv(Next(s, Stop))
  {
  }

  lemma InvMake(s: State, id: string)
    requires Inv(s) && s.phase.Working?
    ensures Inv(Next(s, Go(id)))
  {
    var Working(data, own, done) := s.phase;
    if done < |Tasks(data)| && Tasks(data)[done].mnem !in own && id !in Used(s.world.beads) && Plain(id) {
      var task := Tasks(data)[done];
      ParentRecorded(s, data, own, done);
      InvMade(s, data, own, done, Bead(id, task.mnem, ParentFor(data, own, task), false));
    }
  }

  lemma InvMade(s: State, data: Data, own: map<string, string>, done: nat, bead: Bead)
    requires Inv(s) && s.phase == Working(data, own, done)
    requires done < |Tasks(data)| && Tasks(data)[done].mnem !in own && bead.mnem == Tasks(data)[done].mnem && Plain(bead.id)
    requires bead.parent.Some? ==> HasId(s.world.ledger, bead.parent.value)
    ensures Inv(s.(world := s.world.(beads := s.world.beads + [bead]), phase := Made(data, own, done, bead.id)))
  {
    var beads := s.world.beads;
    var s' := s.(world := s.world.(beads := beads + [bead]), phase := Made(data, own, done, bead.id));
    assert s'.world.beads[|beads|] == bead;
    MadeConserved(s, s', bead);
    RowsHaveBeads(s.world.ledger, beads, [bead], "");
    MadeParents(s.world, bead);
  }

  predicate HasId(ledger: seq<Row>, id: string) {
    exists k :: 0 <= k < |ledger| && ledger[k].id == id
  }

  lemma MadeParents(world: World, bead: Bead)
    requires ParentsRecorded(world) && (bead.parent.Some? ==> HasId(world.ledger, bead.parent.value))
    ensures ParentsRecorded(world.(beads := world.beads + [bead]))
  {
  }

  lemma MadeConserved(s: State, s': State, bead: Bead)
    requires Conserved(s) && Held(s.phase).None? && Held(s'.phase) == Some(bead.mnem)
    requires s'.world.beads == s.world.beads + [bead] && s'.world.ledger == s.world.ledger && s'.lost == s.lost
    ensures Conserved(s')
  {
    forall m
      ensures Count(s'.world.beads, m) ==
        (if Recorded(s'.world.ledger, m) then 1 else 0) + Lost(s'.lost, m) + (if Held(s'.phase) == Some(m) then 1 else 0)
    {
      CountSnoc(s.world.beads, bead, m);
    }
  }

  /** By the time a child is created, the epic is in the map. */
  lemma ParentRecorded(s: State, data: Data, own: map<string, string>, done: nat)
    requires Inv(s) && s.phase == Working(data, own, done) && done < |Tasks(data)|
    ensures var parent := ParentFor(data, own, Tasks(data)[done]);
      parent.Some? ==> HasId(s.world.ledger, parent.value)
  {
    if Tasks(data)[done].mnem != data.epic.mnem {
      assert Tasks(data)[0] == data.epic;
      assert done > 0 && Tasks(data)[0].mnem in own;
      LedgerMapKeys(s.world.ledger, data.epic.mnem);
    }
  }

  lemma InvDraft(s: State, id: string)
    requires Inv(s) && s.phase.Made?
    ensures Inv(Next(s, Go(id)))
  {
    var Made(data, own, done, made) := s.phase;
    var s' := Next(s, Go(id));
    var beads := SetDraft(s.world.beads, made);
    forall m ensures Count(beads, m) == Count(s.world.beads, m) {
      CountDraft(s.world.beads, made, m);
    }
    RowsHaveBeads(s.world.ledger, s.world.beads, [], made);
    var i :| 0 <= i < |s.world.beads| && s.world.beads[i].id == made && s.world.beads[i].mnem == Tasks(data)[done].mnem;
    assert beads[i].draft && beads[i].id == made;
  }

  lemma InvAppend(s: State, id: string)
    requires Inv(s) && s.phase.Drafted?
    ensures Inv(Next(s, Go(id)))
  {
    var Drafted(data, own, done, made) := s.phase;
    var task := Tasks(data)[done];
    var row := Row(task.mnem, made, task.title);
    var s' := s.(world := s.world.(ledger := s.world.ledger + [row]), phase := Working(data, own[task.mnem := made], done + 1));
    NextAppend(s, id);
    assert s'.world.ledger[..|s.world.ledger|] == s.world.ledger;
    LedgerMapKeys(s.world.ledger, task.mnem);
    OneRowMore(s.world.ledger, row);
    AppendedConserved(s, s', row);
    AppendedParents(s.world, row);
  }

  lemma OneRowMore(ledger: seq<Row>, row: Row)
    requires OneRowEach(ledger) && !Recorded(ledger, row.mnem)
    ensures OneRowEach(ledger + [row])
  {
    assert forall k :: 0 <= k < |ledger| ==> (ledger + [row])[k] == ledger[k] && ledger[k].mnem != row.mnem;
  }

  lemma NextAppend(s: State, id: string)
    requires s.phase.Drafted? && s.phase.done < |Tasks(s.phase.data)|
    ensures var Drafted(data, own, done, made) := s.phase; var task := Tasks(data)[done];
      Next(s, Go(id)) == s.(world := s.world.(ledger := s.world.ledger + [Row(task.mnem, made, task.title)]),
                            phase := Working(data, own[task.mnem := made], done + 1))
  {
  }

  lemma AppendedConserved(s: State, s': State, row: Row)
    requires Conserved(s) && Held(s.phase) == Some(row.mnem) && Held(s'.phase).None? && !Recorded(s.world.ledger, row.mnem)
    requires s'.world.ledger == s.world.ledger + [row] && s'.world.beads == s.world.beads && s'.lost == s.lost
    ensures Conserved(s')
  {
    forall m
      ensures Count(s'.world.beads, m) ==
        (if Recorded(s'.world.ledger, m) then 1 else 0) + Lost(s'.lost, m) + (if Held(s'.phase) == Some(m) then 1 else 0)
    {
      RecordedSnoc(s.world.ledger, row, m);
    }
  }

  lemma AppendedParents(world: World, row: Row)
    requires ParentsRecorded(world)
    ensures ParentsRecorded(world.(ledger := world.ledger + [row]))
  {
    var ledger := world.ledger + [row];
    forall i | 0 <= i < |world.beads| && world.beads[i].parent.Some?
      ensures HasId(ledger, world.beads[i].parent.value)
    {
      var k :| 0 <= k < |world.ledger| && world.ledger[k].id == world.beads[i].parent.value;
      assert ledger[k] == world.ledger[k];
    }
  }

  lemma InvNext(s: State, step: Step)
    requires Inv(s) && KeyedStep(step)
    ensures Inv(Next(s, step))
  {
    match step
    case Begin(data) => InvBegin(s, data);
    case Stop => InvStop(s);
    case Go(id) =>
      match s.phase
      case Idle =>
      case Working(_, _, _) => InvMake(s, id);
      case Made(_, _, _, _) => InvDraft(s, id);
      case Drafted(_, _, _, _) => InvAppend(s, id);
  }

  lemma {:induction false} InvHolds(steps: seq<Step>)
    requires forall step :: step in steps ==> KeyedStep(step)
    ensures Inv(Run(Initial(), steps))
  {
    if steps != [] {
      InvHolds(steps[..|steps| - 1]);
      InvNext(Run(Initial(), steps[..|steps| - 1]), steps[|steps| - 1]);
    }
  }

  // ---- What every history of runs keeps ----

  /** However many runs, on whatever data files, killed wherever: the ledger never has
      two rows for one mnemonic; every row's bead exists, was created for that
      mnemonic and is already draft; and every child has a recorded parent. */
  lemma LedgerIsSound(steps: seq<Step>)
    requires forall step :: step in steps ==> KeyedStep(step)
    ensures var world := Run(Initial(), steps).world;
      && OneRowEach(world.ledger)
      && (forall k :: 0 <= k < |world.ledger| ==> DraftBead(world.beads, world.ledger[k].id, world.ledger[k].mnem))
      && ParentsRecorded(world)
  {
    InvHolds(steps);
  }

  /** The beads created for a mnemonic number exactly one if it is recorded, plus the
      kills between its create and its append, plus the one now in hand; never more
      than one plus those kills. */
  lemma BeadsPerMnemonic(steps: seq<Step>, m: string)
    requires forall step :: step in steps ==> KeyedStep(step)
    ensures var s := Run(Initial(), steps);
      && Count(s.world.beads, m) == (if Recorded(s.world.ledger, m) then 1 else 0) + Lost(s.lost, m) + (if Held(s.phase) == Some(m) then 1 else 0)
      && Count(s.world.beads, m) <= 1 + Lost(s.lost, m)
  {
    InvHolds(steps);
    var s := Run(Initial(), steps);
    if Held(s.phase) == Some(m) {
      LedgerMapKeys(s.world.ledger, m);
    }
  }

  /** A run that comes to its end has every mnemonic of its data file recorded. */
  lemma FinishedIsLoaded(steps: seq<Step>, id: string, k: nat)
    requires forall step :: step in steps ==> KeyedStep(step)
    requires var s := Run(Initial(), steps); s.phase.Working? && s.phase.done >= |Tasks(s.phase.data)| && k < |Tasks(s.phase.data)|
    ensures var s := Run(Initial(), steps);
      Next(s, Go(id)).phase.Idle? && Recorded(Next(s, Go(id)).world.ledger, Tasks(s.phase.data)[k].mnem)
  {
    InvHolds(steps);
    var s := Run(Initial(), steps);
    LedgerMapKeys(s.world.ledger, Tasks(s.phase.data)[k].mnem);
  }

  /** A run after a killed one creates nothing for a recorded mnemonic. */
  lemma {:induction false} NeverCreatedAgain(steps: seq<Step>, more: seq<Step>, m: string)
    requires forall step :: step in steps + more ==> KeyedStep(step)
    requires Recorded(Run(Initial(), steps).world.ledger, m)
    ensures Count(Run(Initial(), steps + more).world.beads, m) == Count(Run(Initial(), steps).world.beads, m)
    ensures Recorded(Run(Initial(), steps + more).world.ledger, m)
  {
    if more == [] {
      assert steps + more == steps;
    } else {
      var n := |more| - 1;
      assert (steps + more)[..|steps + more| - 1] == steps + more[..n];
      assert forall step :: step in steps + more[..n] ==> step in steps + more;
      NeverCreatedAgain(steps, more[..n], m);
      var s, step := Run(Initial(), steps + more[..n]), more[n];
      assert step in steps + more;
      InvHolds(steps + more[..n]);
      InvNext(s, step);
      CountStays(s, step, m);
    }
  }

  lemma CountStays(s: State, step: Step, m: string)
    requires Inv(s) && Inv(Next(s, step)) && Recorded(s.world.ledger, m)
    ensures Count(Next(s, step).world.beads, m) == Count(s.world.beads, m) && Recorded(Next(s, step).world.ledger, m)
  {
    RecordedStays(s, step, m);
    LostStays(s, step, m);
    LedgerMapKeys(Next(s, step).world.ledger, m);
  }

  lemma RecordedStays(s: State, step: Step, m: string)
    requires Recorded(s.world.ledger, m)
    ensures Recorded(Next(s, step).world.ledger, m)
  {
    if step.Go? && s.phase.Drafted? && s.phase.done < |Tasks(s.phase.data)| {
      var task := Tasks(s.phase.data)[s.phase.done];
      RecordedSnoc(s.world.ledger, Row(task.mnem, s.phase.id, task.title), m);
    }
  }

  /** No kill loses a bead of a mnemonic that is already recorded. */
  lemma LostStays(s: State, step: Step, m: string)
    requires Inv(s) && Recorded(s.world.ledger, m)
    ensures Lost(Next(s, step).lost, m) == Lost(s.lost, m)
    ensures Held(s.phase) != Some(m)
  {
    LedgerMapKeys(s.world.ledger, m);
  }

  // ---- Parents ----

  /** What later steps leave of a bead: all but its draft flag. */
  lemma {:induction false} BeadStays(s: State, steps: seq<Step>, n: nat)
    requires n < |s.world.beads|
    ensures n < |Run(s, steps).world.beads| && SameButDraft(s.world.beads[n], Run(s, steps).world.beads[n])
    ensures s.world.ledger <= Run(s, steps).world.ledger
  {
    if steps != [] {
      BeadStays(s, steps[..|steps| - 1], n);
    }
  }

  /** Over any history: a bead that a step creates in a run on some data file has, then
      and ever after, no parent if it is that file's epic, and otherwise the epic that
      the ledger records. */
  lemma ChildrenAreUnderTheEpic(steps: seq<Step>, id: string, more: seq<Step>)
    requires forall step :: step in steps ==> KeyedStep(step)
    requires |Next(Run(Initial(), steps), Go(id)).world.beads| > |Run(Initial(), steps).world.beads|
    ensures var s := Run(Initial(), steps); var n, end := |s.world.beads|, Run(Next(s, Go(id)), more).world;
      && s.phase.Working? && n < |end.beads| && end.beads[n].id == id
      && (end.beads[n].parent.None? <==> end.beads[n].mnem == s.phase.data.epic.mnem)
      && (end.beads[n].parent.Some? ==> HasRow(end.ledger, s.phase.data.epic.mnem, end.beads[n].parent.value))
  {
    InvHolds(steps);
    var s := Run(Initial(), steps);
    var s' := Next(s, Go(id));
    BeadStays(s', more, |s.world.beads|);
    EpicIsRecorded(s);
    if s'.world.beads[|s.world.beads|].parent.Some? {
      RowStays(s.world.ledger, Run(s', more).world.ledger, s.phase.data.epic.mnem, s'.world.beads[|s.world.beads|].parent.value);
    }
  }

  predicate HasRow(ledger: seq<Row>, mnem: string, id: string) {
    exists k :: 0 <= k < |ledger| && ledger[k].mnem == mnem && ledger[k].id == id
  }

  lemma RowStays(ledger: seq<Row>, longer: seq<Row>, mnem: string, id: string)
    requires ledger <= longer && HasRow(ledger, mnem, id)
    ensures HasRow(longer, mnem, id)
  {
    var k :| 0 <= k < |ledger| && ledger[k].mnem == mnem && ledger[k].id == id;
    assert longer[k] == ledger[k];
  }

  lemma EpicIsRecorded(s: State)
    requires Inv(s)
    ensures s.phase.Working? && s.phase.done > 0 ==>
      var epic := s.phase.data.epic.mnem; epic in s.phase.own && HasRow(s.world.ledger, epic, s.phase.own[epic])
    ensures s.phase.Working? ==> Tasks(s.phase.data)[0] == s.phase.data.epic
    ensures s.phase.Working? ==> forall k :: 0 < k < |Tasks(s.phase.data)| ==> Tasks(s.phase.data)[k].mnem != s.phase.data.epic.mnem
  {
    if s.phase.Working? && s.phase.done > 0 {
      assert Tasks(s.phase.data)[0].mnem in s.phase.own;
      LedgerMapKeys(s.world.ledger, s.phase.data.epic.mnem);
    }
  }

  // ---- The driver, uninterrupted ----

  lemma {:induction false} RunConcat(s: State, a: seq<Step>, b: seq<Step>)
    ensures Run(s, a + b) == Run(Run(s, a), b)
    decreases |b|
  {
    if b == [] {
      assert a + b == a;
    } else {
      assert (a + b)[..|a + b| - 1] == a + b[..|b| - 1];
      RunConcat(s, a, b[..|b| - 1]);
    }
  }

  lemma RunOne(s: State, step: Step)
    ensures Run(s, [step]) == Next(s, step)
  {
    assert [step][..0] == [];
    assert Run(s, [step][..0]) == s;
  }

  /** Unused ids, in the order in which the issue store will give them. */
  ghost predicate Supply(ids: seq<string>, beads: seq<Bead>) {
    && (forall i :: 0 <= i < |ids| ==> ids[i] !in Used(beads) && Plain(ids[i]))
    && (forall i, j :: 0 <= i < j < |ids| ==> ids[i] != ids[j])
  }

  /** The state after `done` tasks of a run on `data`. */
  function At(data: Data, world: World, own: map<string, string>, done: nat, lost: map<string, nat>): State {
    State(world, Working(data, own, done), lost)
  }

  lemma UsedAfter(beads: seq<Bead>, bead: Bead)
    ensures Used(SetDraft(beads + [bead], bead.id)) == Used(beads) + {bead.id}
  {
    var longer := beads + [bead];
    forall x ensures x in Used(SetDraft(longer, bead.id)) <==> x in Used(beads) || x == bead.id {
      if x in Used(SetDraft(longer, bead.id)) {
        var i :| 0 <= i < |longer| && SetDraft(longer, bead.id)[i].id == x;
        assert longer[i].id == x && (i < |beads| ==> beads[i].id == x);
      }
      if x in Used(beads) {
        var i :| 0 <= i < |beads| && beads[i].id == x;
        assert SetDraft(longer, bead.id)[i].id == x;
      }
      assert SetDraft(longer, bead.id)[|beads|].id == bead.id;
    }
  }

  /** What an uninterrupted run has made of its world, its map and the ids so far. */
  datatype Load = Load(world: World, own: map<string, string>, used: nat)

  /** One task: passed over when it is in the map, else created, set to draft and
      recorded. */
  function LoadTask(data: Data, l: Load, done: nat, ids: seq<string>): (l': Load)
    requires done < |Tasks(data)| && l.used < |ids|
    ensures l.used <= l'.used <= l.used + 1
  {
    var task := Tasks(data)[done];
    if task.mnem in l.own then l
    else
      var id := ids[l.used];
      var bead := Bead(id, task.mnem, ParentFor(data, l.own, task), false);
      Load(World(SetDraft(l.world.beads + [bead], id), l.world.ledger + [Row(task.mnem, id, task.title)]),
           l.own[task.mnem := id], l.used + 1)
  }

  function LoadTasks(data: Data, world: World, own: map<string, string>, ids: seq<string>, n: nat): (l: Load)
    requires n <= |Tasks(data)| <= |ids|
    ensures l.used <= n
  {
    if n == 0 then Load(world, own, 0) else LoadTask(data, LoadTasks(data, world, own, ids, n - 1), n - 1, ids)
  }

  /** Beads that were there before keep all but their draft flag, and each new one has
      the epic's id as its parent, except the epic itself, which has none. */
  ghost predicate UnderTheEpic(data: Data, world: World, world': World, own': map<string, string>) {
    && data.epic.mnem in own' && |world.beads| <= |world'.beads|
    && (forall i :: 0 <= i < |world.beads| ==> SameButDraft(world.beads[i], world'.beads[i]))
    && (forall i :: |world.beads| <= i < |world'.beads| ==>
         world'.beads[i].parent == if world'.beads[i].mnem == data.epic.mnem then None else Some(own'[data.epic.mnem]))
  }

  predicate SameButDraft(a: Bead, b: Bead) {
    a.id == b.id && a.mnem == b.mnem && a.parent == b.parent
  }

  /** The ledger gets one row for each new bead, in order, with its mnemonic, its id and
      the title that the data file gives it. */
  ghost predicate RowsForNew(data: Data, world: World, world': World) {
    && |world'.ledger| - |world.ledger| == |world'.beads| - |world.beads| >= 0
    && world'.ledger[..|world.ledger|] == world.ledger
    && (forall i :: |world.beads| <= i < |world'.beads| ==>
         RowFor(data, world'.beads[i], world'.ledger[i - |world.beads| + |world.ledger|]))
  }

  predicate RowFor(data: Data, bead: Bead, row: Row) {
    row.mnem == bead.mnem && row.id == bead.id && exists k :: 0 <= k < |Tasks(data)| && Tasks(data)[k] == Task(row.mnem, row.title)
  }

  lemma {:induction false} LoadedUnder(data: Data, world: World, own: map<string, string>, ids: seq<string>, n: nat)
    requires 0 < n <= |Tasks(data)| <= |ids|
    ensures var l := LoadTasks(data, world, own, ids, n);
      UnderTheEpic(data, world, l.world, l.own) && RowsForNew(data, world, l.world)
  {
    var before := LoadTasks(data, world, own, ids, n - 1);
    if n > 1 {
      LoadedUnder(data, world, own, ids, n - 1);
    }
    LoadOneUnder(data, world, before, n - 1, ids);
    RowsOneMore(data, world, before, n - 1, ids);
  }

  lemma LoadOneUnder(data: Data, world: World, l: Load, done: nat, ids: seq<string>)
    requires done < |Tasks(data)| && l.used < |ids|
    requires if done == 0 then l.world == world else UnderTheEpic(data, world, l.world, l.own)
    ensures var l' := LoadTask(data, l, done, ids); UnderTheEpic(data, world, l'.world, l'.own)
  {
    var l', task := LoadTask(data, l, done, ids), Tasks(data)[done];
    if task.mnem !in l.own {
      var longer := l.world.beads + [Bead(ids[l.used], task.mnem, ParentFor(data, l.own, task), false)];
      forall i | 0 <= i < |longer| ensures SameButDraft(longer[i], l'.world.beads[i]) {
      }
      forall i | 0 <= i < |world.beads| ensures SameButDraft(world.beads[i], l'.world.beads[i]) {
        assert SameButDraft(longer[i], l'.world.beads[i]);
      }
    }
  }

  lemma RowsOneMore(data: Data, world: World, l: Load, done: nat, ids: seq<string>)
    requires done < |Tasks(data)| && l.used < |ids|
    requires if done == 0 then l.world == world else RowsForNew(data, world, l.world)
    ensures var l' := LoadTask(data, l, done, ids); RowsForNew(data, world, l'.world)
  {
    var l', task := LoadTask(data, l, done, ids), Tasks(data)[done];
    if task.mnem !in l.own {
      var longer := l.world.beads + [Bead(ids[l.used], task.mnem, ParentFor(data, l.own, task), false)];
      assert l'.world.beads == SetDraft(longer, ids[l.used]);
      forall i | |world.beads| <= i < |l'.world.beads|
        ensures RowFor(data, l'.world.beads[i], l'.world.ledger[i - |world.beads| + |world.ledger|])
      {
        assert SameButDraft(longer[i], l'.world.beads[i]);
        if i < |l.world.beads| {
          assert RowFor(data, l.world.beads[i], l.world.ledger[i - |world.beads| + |world.ledger|]);
        } else {
          assert Tasks(data)[done] == Task(task.mnem, task.title);
        }
      }
    }
  }

  /** The epic, then the beads in file order. `ids` are what the issue store gives. */
  method LoadBeads(data: Data, world: World, own: map<string, string>, ids: seq<string>)
    returns (world': World, own': map<string, string>, created: nat, skipped: nat)
    requires |ids| >= |Tasks(data)|
    ensures var l := LoadTasks(data, world, own, ids, |Tasks(data)|); world' == l.world && own' == l.own
    ensures created + skipped == |data.beads|
    ensures created == |world'.beads| - |world.beads| - if data.epic.mnem in own then 0 else 1
    ensures UnderTheEpic(data, world, world', own') && RowsForNew(data, world, world')
  {
    LoadedUnder(data, world, own, ids, |Tasks(data)|);
    created, skipped := 0, 0;
    var l := LoadTask(data, Load(world, own, 0), 0, ids);
    for i := 0 to |data.beads|
      invariant created + skipped == i
      invariant created == |l.world.beads| - |world.beads| - if data.epic.mnem in own then 0 else 1
      invariant l == LoadTasks(data, world, own, ids, i + 1)
    {
      var b := data.beads[i];
      assert Tasks(data)[i + 1] == b;
      if b.mnem in l.own {
        skipped := skipped + 1;
        continue;
      }
      var bid := ids[l.used];
      var beads := l.world.beads + [Bead(bid, b.mnem, ParentFor(data, l.own, b), false)];
      beads := SetDraft(beads, bid);
      l := Load(World(beads, l.world.ledger + [Row(b.mnem, bid, b.title)]), l.own[b.mnem := bid], l.used + 1);
      created := created + 1;
    }
    return l.world, l.own, created, skipped;
  }

  lemma MachineTask(data: Data, l: Load, done: nat, ids: seq<string>, lost: map<string, nat>) returns (steps: seq<Step>)
    requires done < |Tasks(data)| && l.used < |ids|
    requires ids[l.used] !in Used(l.world.beads) && Plain(ids[l.used])
    ensures var l' := LoadTask(data, l, done, ids);
      Run(At(data, l.world, l.own, done, lost), steps) == At(data, l'.world, l'.own, done + 1, lost)
    ensures forall step :: step in steps ==> step.Go?
  {
    if Tasks(data)[done].mnem in l.own {
      steps := [Go("")];
      RunOne(At(data, l.world, l.own, done, lost), Go(""));
    } else {
      steps := [Go(ids[l.used]), Go(ids[l.used]), Go(ids[l.used])];
      MachineCreates(data, l, done, ids, lost);
    }
  }

  lemma MachineCreates(data: Data, l: Load, done: nat, ids: seq<string>, lost: map<string, nat>)
    requires done < |Tasks(data)| && l.used < |ids| && Tasks(data)[done].mnem !in l.own
    requires ids[l.used] !in Used(l.world.beads) && Plain(ids[l.used])
    ensures var l', step := LoadTask(data, l, done, ids), Go(ids[l.used]);
      Run(At(data, l.world, l.own, done, lost), [step, step, step]) == At(data, l'.world, l'.own, done + 1, lost)
  {
    RunThree(At(data, l.world, l.own, done, lost), Go(ids[l.used]));
  }

  lemma RunThree(s: State, step: Step)
    ensures Run(s, [step, step, step]) == Next(Next(Next(s, step), step), step)
  {
    assert [step, step, step] == [step] + [step] + [step];
    RunConcat(s, [step] + [step], [step]);
    RunConcat(s, [step], [step]);
    RunOne(s, step);
    RunOne(Next(s, step), step);
    RunOne(Next(Next(s, step), step), step);
  }

  lemma SupplyLeft(data: Data, l: Load, done: nat, ids: seq<string>)
    requires done < |Tasks(data)| && l.used < |ids|
    requires forall i, j :: 0 <= i < j < |ids| ==> ids[i] != ids[j]
    requires forall k :: l.used <= k < |ids| ==> ids[k] !in Used(l.world.beads)
    ensures var l' := LoadTask(data, l, done, ids); forall k :: l'.used <= k < |ids| ==> ids[k] !in Used(l'.world.beads)
  {
    var task := Tasks(data)[done];
    if task.mnem !in l.own {
      UsedAfter(l.world.beads, Bead(ids[l.used], task.mnem, ParentFor(data, l.own, task), false));
    }
  }

  lemma {:induction false} SupplyStill(data: Data, world: World, own: map<string, string>, ids: seq<string>, n: nat)
    requires Supply(ids, world.beads) && n <= |Tasks(data)| <= |ids|
    ensures var l := LoadTasks(data, world, own, ids, n); forall k :: l.used <= k < |ids| ==> ids[k] !in Used(l.world.beads)
  {
    if n > 0 {
      SupplyStill(data, world, own, ids, n - 1);
      SupplyLeft(data, LoadTasks(data, world, own, ids, n - 1), n - 1, ids);
    }
  }

  /** These steps, none of them a stop, load the first n tasks. */
  ghost predicate Loads(data: Data, world: World, own: map<string, string>, ids: seq<string>, n: nat, lost: map<string, nat>, steps: seq<Step>)
    requires n <= |Tasks(data)| <= |ids|
  {
    var l := LoadTasks(data, world, own, ids, n);
    && Run(At(data, world, own, 0, lost), steps) == At(data, l.world, l.own, n, lost)
    && forall step :: step in steps ==> step.Go?
  }

  /** The driver does what the machine above does when no step is a stop. */
  lemma {:induction false} MachineLoads(data: Data, world: World, own: map<string, string>, ids: seq<string>, n: nat, lost: map<string, nat>)
    returns (steps: seq<Step>)
    requires Supply(ids, world.beads) && n <= |Tasks(data)| <= |ids|
    ensures Loads(data, world, own, ids, n, lost, steps)
  {
    if n == 0 {
      steps := [];
    } else {
      var before := MachineLoads(data, world, own, ids, n - 1, lost);
      steps := MachineMore(data, world, own, ids, n - 1, lost, before);
    }
  }

  lemma MachineMore(data: Data, world: World, own: map<string, string>, ids: seq<string>, n: nat, lost: map<string, nat>, before: seq<Step>)
    returns (steps: seq<Step>)
    requires Supply(ids, world.beads) && n < |Tasks(data)| <= |ids| && Loads(data, world, own, ids, n, lost, before)
    ensures Loads(data, world, own, ids, n + 1, lost, steps)
  {
    var l := LoadTasks(data, world, own, ids, n);
    SupplyStill(data, world, own, ids, n);
    var more := MachineTask(data, l, n, ids, lost);
    steps := Composed(At(data, world, own, 0, lost), before, At(data, l.world, l.own, n, lost), more);
  }

  lemma Composed(start: State, a: seq<Step>, mid: State, b: seq<Step>) returns (steps: seq<Step>)
    requires (forall step :: step in a ==> step.Go?) && (forall step :: step in b ==> step.Go?) && Run(start, a) == mid
    ensures Run(start, steps) == Run(mid, b) && forall step :: step in steps ==> step.Go?
  {
    steps := a + b;
    RunConcat(start, a, b);
  }
}
