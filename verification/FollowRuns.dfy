/** The follow client against the daemon's event log, over every interleaving of
    appends, heartbeats, deliveries, drops and reconnects. */
module FollowRuns {
  import opened Follow
  import opened Results

  /** A live subscription: matching events not yet written to it, and objects
      written but not yet read by the client. */
  datatype Link = Offline | Online(unsent: seq<Event>, wire: seq<Item>)

  datatype System = System(log: seq<Event>, link: Link, client: Client)

  datatype Step =
    | Append(event: Event)     // an event joins the log and reaches a live subscription
    | Subscribe                // the client dials and asks for everything since its cursor
    | Send                     // the daemon writes the next unsent event
    | Beat(last: nat)          // the daemon writes a heartbeat that names an event id
    | Refuse                   // the daemon writes a refusal
    | Deliver                  // the client handles the next object
    | Drop                     // the connection closes between two objects
    | Tear                     // the connection closes inside an object
    | Signal                   // the client is interrupted

  function LastId(log: seq<Event>): nat {
    if log == [] then 0 else log[|log| - 1].id
  }

  /** Events of the log that a subscription since `lo` delivers, in log order. */
  function Matching(log: seq<Event>, lo: nat): seq<Event> {
    if log == [] then []
    else
      var e := log[|log| - 1];
      Matching(log[..|log| - 1], lo) + if e.matches && e.id > lo then [e] else []
  }

  /** Well-formed matching events of the log with lo < id <= hi, in log order. */
  function Expected(log: seq<Event>, lo: nat, hi: nat): seq<Event> {
    if log == [] then []
    else
      var e := log[|log| - 1];
      Expected(log[..|log| - 1], lo, hi) + if e.matches && e.decodes && lo < e.id <= hi then [e] else []
  }

  predicate Enabled(s: System, step: Step) {
    match step
    case Append(e) => e.id > LastId(s.log)
    case Subscribe => s.link.Offline? && s.client.exit.None?
    case Send => s.link.Online? && s.link.unsent != []
    case Beat(last) => s.link.Online? && last <= LastId(s.log)
    case Refuse => s.link.Online?
    case Deliver => s.link.Online? && s.link.wire != [] && s.client.exit.None?
    case Drop => s.link.Online?
    case Tear => s.link.Online? && s.client.exit.None?
    case Signal => s.client.exit.None?
  }

  function Next(s: System, step: Step): System
    requires Enabled(s, step)
  {
    match step
    case Append(e) =>
      s.(log := s.log + [e],
         link := if s.link.Online? && e.matches then s.link.(unsent := s.link.unsent + [e]) else s.link)
    case Subscribe =>
      // Without a cursor the request carries no since_event_id and nothing is replayed.
      s.(link := Online(if s.client.lastSeen == 0 then [] else Matching(s.log, s.client.lastSeen), []))
    case Send => s.(link := Online(s.link.unsent[1..], s.link.wire + [Message(s.link.unsent[0])]))
    case Beat(last) => Beaten(s, last)
    case Refuse => s.(link := s.link.(wire := s.link.wire + [Refused]))
    case Deliver => s.(link := s.link.(wire := s.link.wire[1..]), client := Handle(s.client, s.link.wire[0]))
    case Drop => s.(link := Offline)
    case Tear => s.(link := Offline, client := s.client.(exit := Some(1)))
    case Signal => s.(link := Offline, client := s.client.(exit := Some(0)))
  }

  function Beaten(s: System, last: nat): System
    requires s.link.Online?
  {
    s.(link := s.link.(wire := s.link.wire + [Heartbeat(last)]))
  }

  predicate ValidRun(s: System, steps: seq<Step>)
    decreases |steps|
  {
    steps == [] || (Enabled(s, steps[0]) && ValidRun(Next(s, steps[0]), steps[1..]))
  }

  function Run(s: System, steps: seq<Step>): System
    requires ValidRun(s, steps)
    decreases |steps|
  {
    if steps == [] then s else Run(Next(s, steps[0]), steps[1..])
  }

  lemma RunCons(s: System, step: Step, rest: seq<Step>)
    ensures ValidRun(s, [step] + rest) <==> Enabled(s, step) && ValidRun(Next(s, step), rest)
    ensures ValidRun(s, [step] + rest) ==> Run(s, [step] + rest) == Run(Next(s, step), rest)
  {
    assert ([step] + rest)[1..] == rest;
  }

  /** The daemon's promise for heartbeats: one that names an event id is written
      only after every matching event with an id that is not greater. */
  predicate BeatInOrder(s: System, step: Step) {
    step.Beat? && s.link.Online? ==> forall e :: e in s.link.unsent ==> e.id > step.last
  }

  predicate BeatsInOrder(s: System, steps: seq<Step>)
    requires ValidRun(s, steps)
    decreases |steps|
  {
    steps == [] || (BeatInOrder(s, steps[0]) && BeatsInOrder(Next(s, steps[0]), steps[1..]))
  }

  // ---- The invariant ----

  ghost predicate AscendingIds(log: seq<Event>) {
    && (forall i :: 0 <= i < |log| ==> log[i].id > 0)
    && (forall i, j :: 0 <= i < j < |log| ==> log[i].id < log[j].id)
  }

  function Messages(wire: seq<Item>): seq<Event> {
    if wire == [] then []
    else (if wire[0].Message? then [wire[0].event] else []) + Messages(wire[1..])
  }

  /** Events still on their way to the client, in order. */
  function Coming(link: Link): seq<Event> {
    if link.Offline? then [] else Messages(link.wire) + link.unsent
  }

  /** A heartbeat on the wire is overtaken by no event: all after it are newer. */
  ghost predicate BeatsBehind(wire: seq<Item>, unsent: seq<Event>) {
    forall i :: 0 <= i < |wire| && wire[i].Heartbeat? ==>
      forall e :: e in Messages(wire[i + 1..]) + unsent ==> e.id > wire[i].last
  }

  ghost predicate BeatsKnown(wire: seq<Item>, top: nat) {
    forall i :: 0 <= i < |wire| && wire[i].Heartbeat? ==> wire[i].last <= top
  }

  ghost predicate Good(s: System, anchor: nat) {
    && AscendingIds(s.log)
    && 0 < anchor <= s.client.lastSeen <= LastId(s.log)
    && s.client.printed == Expected(s.log, anchor, s.client.lastSeen)
    && (s.link.Online? && s.client.exit.None? ==>
          && Coming(s.link) == Matching(s.log, s.client.lastSeen)
          && BeatsBehind(s.link.wire, s.link.unsent)
          && BeatsKnown(s.link.wire, LastId(s.log)))
  }

  // ---- Facts about the log ----

  lemma {:induction false} MatchingMembers(log: seq<Event>, lo: nat)
    ensures forall e :: e in Matching(log, lo) <==> e in log && e.matches && e.id > lo
  {
    if log != [] {
      MatchingMembers(log[..|log| - 1], lo);
      assert log == log[..|log| - 1] + [log[|log| - 1]];
    }
  }

  /** Moving the cursor over ids that no matching event has changes nothing. */
  lemma {:induction false} SkipGap(log: seq<Event>, anchor: nat, lo: nat, hi: nat)
    requires anchor <= lo <= hi
    requires forall e :: e in Matching(log, lo) ==> e.id > hi
    ensures Matching(log, hi) == Matching(log, lo)
    ensures Expected(log, anchor, hi) == Expected(log, anchor, lo)
  {
    if log != [] {
      var n := |log| - 1;
      MatchingMembers(log, lo);
      MatchingMembers(log[..n], lo);
      assert forall e :: e in log[..n] ==> e in log;
      SkipGap(log[..n], anchor, lo, hi);
      assert log[n] in log;
    }
  }

  lemma AscendingSnoc(init: seq<Event>, last: Event)
    requires AscendingIds(init + [last])
    ensures AscendingIds(init) && last.id > 0 && forall e :: e in init ==> e.id < last.id
  {
    var log := init + [last];
    assert log[|init|] == last;
    assert forall i :: 0 <= i < |init| ==> init[i] == log[i];
    forall e | e in init ensures e.id < last.id {
      var i :| 0 <= i < |init| && init[i] == e;
      assert log[i].id < log[|init|].id;
    }
  }

  /** Moving the cursor to the next matching event takes exactly that event. */
  ghost predicate Takes(log: seq<Event>, anchor: nat, lo: nat, m: Event) {
    && m.id > lo && m.id <= LastId(log) && m in log
    && Matching(log, lo) != [] && m == Matching(log, lo)[0]
    && Matching(log, m.id) == Matching(log, lo)[1..]
    && Expected(log, anchor, m.id) == Expected(log, anchor, lo) + if m.decodes then [m] else []
  }

  lemma {:induction false} TakeNext(log: seq<Event>, anchor: nat, lo: nat)
    requires AscendingIds(log) && anchor <= lo && Matching(log, lo) != []
    ensures Takes(log, anchor, lo, Matching(log, lo)[0])
  {
    var n := |log| - 1;
    var init, last := log[..n], log[n];
    assert log == init + [last];
    AscendingSnoc(init, last);
    if Matching(init, lo) != [] {
      TakeNext(init, anchor, lo);
      TakeEarlier(init, last, anchor, lo, Matching(init, lo)[0]);
    } else {
      TakeLast(init, last, anchor, lo);
    }
  }

  lemma TakeLast(init: seq<Event>, last: Event, anchor: nat, lo: nat)
    requires anchor <= lo && Matching(init, lo) == [] && Matching(init + [last], lo) != []
    ensures Takes(init + [last], anchor, lo, Matching(init + [last], lo)[0])
  {
    var log := init + [last];
    assert log[..|log| - 1] == init;
    assert Matching(log, lo) == [last];
    SkipGap(init, anchor, lo, last.id);
    assert Matching(log, last.id) == [];
  }

  lemma TakeEarlier(init: seq<Event>, last: Event, anchor: nat, lo: nat, m: Event)
    requires anchor <= lo && Takes(init, anchor, lo, m) && last.id > m.id
    ensures Takes(init + [last], anchor, lo, m)
  {
    var log := init + [last];
    assert log[..|log| - 1] == init;
    assert Matching(log, lo)[1..] == Matching(init, lo)[1..] + if last.matches then [last] else [];
  }

  lemma {:induction false} MessagesConcat(a: seq<Item>, b: seq<Item>)
    ensures Messages(a + b) == Messages(a) + Messages(b)
  {
    if a == [] {
      assert a + b == b;
    } else {
      assert (a + b)[1..] == a[1..] + b;
      MessagesConcat(a[1..], b);
      Regrouped(if a[0].Message? then [a[0].event] else [], Messages(a[1..]), Messages(b));
    }
  }

  lemma Regrouped(a: seq<Event>, b: seq<Event>, c: seq<Event>)
    ensures a + (b + c) == a + b + c
  {
  }

  // ---- Every step keeps it ----

  lemma AppendKeeps(s: System, anchor: nat, e: Event)
    requires Good(s, anchor) && Enabled(s, Append(e))
    ensures Good(Next(s, Append(e)), anchor)
  {
    var s' := Next(s, Append(e));
    assert s'.log[..|s'.log| - 1] == s.log;
    if s.link.Online? && s.client.exit.None? {
      assert BeatsBehind(s'.link.wire, s'.link.unsent);
    }
  }

  lemma SubscribeKeeps(s: System, anchor: nat)
    requires Good(s, anchor) && Enabled(s, Subscribe)
    ensures Good(Next(s, Subscribe), anchor)
  {
  }

  lemma WireGrows(s: System, anchor: nat, item: Item, unsent: seq<Event>)
    requires Good(s, anchor) && s.link.Online? && s.client.exit.None?
    requires Messages([item]) + unsent == s.link.unsent
    requires item.Heartbeat? ==> item.last <= LastId(s.log) && forall e :: e in unsent ==> e.id > item.last
    ensures Good(s.(link := Online(unsent, s.link.wire + [item])), anchor)
  {
    var wire, wire' := s.link.wire, s.link.wire + [item];
    MessagesConcat(wire, [item]);
    assert Messages(wire') + unsent == Messages(wire) + s.link.unsent;
    BehindGrows(wire, s.link.unsent, item, unsent);
  }

  lemma BehindGrows(wire: seq<Item>, before: seq<Event>, item: Item, unsent: seq<Event>)
    requires BeatsBehind(wire, before) && Messages([item]) + unsent == before
    requires item.Heartbeat? ==> forall e :: e in unsent ==> e.id > item.last
    ensures BeatsBehind(wire + [item], unsent)
  {
    var wire' := wire + [item];
    forall i | 0 <= i < |wire'| && wire'[i].Heartbeat?
      ensures forall e :: e in Messages(wire'[i + 1..]) + unsent ==> e.id > wire'[i].last
    {
      if i < |wire| {
        assert wire'[i + 1..] == wire[i + 1..] + [item];
        MessagesConcat(wire[i + 1..], [item]);
        assert Messages(wire'[i + 1..]) + unsent == Messages(wire[i + 1..]) + before;
      }
    }
  }

  lemma DeliverKeeps(s: System, anchor: nat)
    requires Good(s, anchor) && Enabled(s, Deliver)
    ensures Good(Next(s, Deliver), anchor)
    ensures Next(s, Deliver).client.lastSeen >= s.client.lastSeen
  {
    var wire, unsent := s.link.wire, s.link.unsent;
    var s' := Next(s, Deliver);
    forall i | 0 <= i < |wire[1..]| && wire[1..][i].Heartbeat?
      ensures wire[1..][i].last <= LastId(s.log)
      ensures forall e :: e in Messages(wire[1..][i + 1..]) + unsent ==> e.id > wire[1..][i].last
    {
      assert wire[1..][i] == wire[i + 1] && wire[1..][i + 1..] == wire[i + 2..];
    }
    match wire[0] {
      case Message(e) =>
        assert Coming(s.link) == [e] + Coming(s'.link);
        TakeNext(s.log, anchor, s.client.lastSeen);
      case Heartbeat(last) =>
        assert Coming(s.link) == Coming(s'.link);
        if last > s.client.lastSeen {
          assert wire[0 + 1..] == wire[1..];
          SkipGap(s.log, anchor, s.client.lastSeen, last);
        }
      case _ =>
        assert Coming(s.link) == Coming(s'.link);
    }
  }

  lemma StepKeeps(s: System, anchor: nat, step: Step)
    requires Good(s, anchor) && Enabled(s, step) && BeatInOrder(s, step)
    ensures Good(Next(s, step), anchor)
    ensures Next(s, step).client.lastSeen >= s.client.lastSeen
  {
    match step
    case Append(e) => AppendKeeps(s, anchor, e);
    case Subscribe => SubscribeKeeps(s, anchor);
    case Send =>
      if s.client.exit.None? {
        WireGrows(s, anchor, Message(s.link.unsent[0]), s.link.unsent[1..]);
      }
    case Beat(last) =>
      if s.client.exit.None? {
        WireGrows(s, anchor, Heartbeat(last), s.link.unsent);
      }
    case Refuse =>
      if s.client.exit.None? {
        WireGrows(s, anchor, Refused, s.link.unsent);
      }
    case Deliver => DeliverKeeps(s, anchor);
    case Drop =>
    case Tear =>
    case Signal =>
  }

  /** Where a follow starts: nothing printed, the cursor on a real event. */
  ghost predicate Initial(s: System, anchor: nat) {
    && AscendingIds(s.log) && 0 < anchor <= LastId(s.log)
    && s.link == Offline && s.client == Client(anchor, [], None)
  }

  lemma {:induction false} NothingBetween(log: seq<Event>, anchor: nat)
    ensures Expected(log, anchor, anchor) == []
  {
    if log != [] {
      NothingBetween(log[..|log| - 1], anchor);
    }
  }

  lemma {:induction false} RunKeeps(s: System, anchor: nat, steps: seq<Step>)
    requires Good(s, anchor) && ValidRun(s, steps) && BeatsInOrder(s, steps)
    ensures Good(Run(s, steps), anchor)
    ensures Run(s, steps).client.lastSeen >= s.client.lastSeen
    decreases |steps|
  {
    if steps != [] {
      StepKeeps(s, anchor, steps[0]);
      RunKeeps(Next(s, steps[0]), anchor, steps[1..]);
    }
  }

  /** Exactly-once delivery over every run: whatever the interleaving, the client
      has printed exactly the well-formed matching events with
      anchor < id <= lastSeen, once each and in log order, and the cursor has
      never moved back. */
  lemma ExactlyOnceInOrder(s: System, anchor: nat, steps: seq<Step>)
    requires Initial(s, anchor) && ValidRun(s, steps) && BeatsInOrder(s, steps)
    ensures Run(s, steps).client.printed == Expected(Run(s, steps).log, anchor, Run(s, steps).client.lastSeen)
    ensures anchor <= Run(s, steps).client.lastSeen <= LastId(Run(s, steps).log)
  {
    NothingBetween(s.log, anchor);
    RunKeeps(s, anchor, steps);
  }

  /** The printed list in a reader's terms. */
  lemma {:induction false} ExpectedMembers(log: seq<Event>, lo: nat, hi: nat)
    requires AscendingIds(log)
    ensures forall e :: e in Expected(log, lo, hi) <==> e in log && e.matches && e.decodes && lo < e.id <= hi
    ensures forall i, j :: 0 <= i < j < |Expected(log, lo, hi)| ==> Expected(log, lo, hi)[i].id < Expected(log, lo, hi)[j].id
  {
    if log != [] {
      var n := |log| - 1;
      ExpectedMembers(log[..n], lo, hi);
      assert log == log[..n] + [log[n]];
      assert forall e :: e in log[..n] ==> e.id < log[n].id;
      forall i | 0 <= i < |Expected(log[..n], lo, hi)| ensures Expected(log[..n], lo, hi)[i].id < log[n].id {
        assert Expected(log[..n], lo, hi)[i] in Expected(log[..n], lo, hi);
      }
    }
  }

  /** Nothing is left behind: when a live subscription has nothing more to send
      or to read, the client has printed every well-formed matching event after
      the anchor. */
  lemma CaughtUp(s: System, anchor: nat, steps: seq<Step>)
    requires Initial(s, anchor) && ValidRun(s, steps) && BeatsInOrder(s, steps)
    requires Run(s, steps).link == Online([], []) && Run(s, steps).client.exit.None?
    ensures forall e :: e in Run(s, steps).log && e.matches && e.decodes && e.id > anchor ==> e in Run(s, steps).client.printed
  {
    NothingBetween(s.log, anchor);
    RunKeeps(s, anchor, steps);
    var t := Run(s, steps);
    MatchingMembers(t.log, t.client.lastSeen);
    ExpectedMembers(t.log, anchor, t.client.lastSeen);
  }

  lemma {:induction false} ExpectedSplits(log: seq<Event>, a: nat, b: nat, c: nat)
    requires AscendingIds(log) && a <= b <= c
    ensures Expected(log, a, b) + Expected(log, b, c) == Expected(log, a, c)
  {
    if log != [] {
      var n := |log| - 1;
      var init, e := log[..n], log[n];
      assert log == init + [e];
      AscendingSnoc(init, e);
      ExpectedSplits(init, a, b, c);
      if e.id <= b {
        NoneAbove(init, b, c);
      }
      SplitSnoc(init, e, a, b, c);
    }
  }

  lemma SplitSnoc(init: seq<Event>, e: Event, a: nat, b: nat, c: nat)
    requires a <= b <= c && Expected(init, a, b) + Expected(init, b, c) == Expected(init, a, c)
    requires e.id <= b ==> Expected(init, b, c) == []
    ensures Expected(init + [e], a, b) + Expected(init + [e], b, c) == Expected(init + [e], a, c)
  {
    assert (init + [e])[..|init + [e]| - 1] == init;
  }

  lemma {:induction false} NoneAbove(log: seq<Event>, b: nat, c: nat)
    requires forall e :: e in log ==> e.id < b
    ensures Expected(log, b, c) == []
  {
    if log != [] {
      assert log == log[..|log| - 1] + [log[|log| - 1]];
      NoneAbove(log[..|log| - 1], b, c);
    }
  }

  lemma {:induction false} LogGrows(s: System, steps: seq<Step>, a: nat, b: nat)
    requires ValidRun(s, steps) && a <= b <= LastId(s.log)
    ensures Expected(Run(s, steps).log, a, b) == Expected(s.log, a, b)
    ensures LastId(Run(s, steps).log) >= LastId(s.log)
    decreases |steps|
  {
    if steps != [] {
      var s' := Next(s, steps[0]);
      if steps[0].Append? {
        assert s'.log[..|s'.log| - 1] == s.log;
      }
      LogGrows(s', steps[1..], a, b);
    }
  }

  // ---- The drain before the follow ----

  /** The daemon's scan of the log since a stored cursor (0 when there is none): the
      well-formed matching messages, the cursor after them, and the last id scanned. */
  method Drain(log: seq<Event>, cursor: nat) returns (messages: seq<Event>, cursorAfter: nat, scanAnchor: nat)
    requires AscendingIds(log)
    ensures messages == Expected(log, cursor, LastId(log))
    ensures cursorAfter == if messages == [] then cursor else LastId(messages)
    ensures scanAnchor == if LastId(log) > cursor then LastId(log) else 0
  {
    messages, scanAnchor := [], 0;
    var lastEventId: nat := 0;
    for i := 0 to |log|
      invariant messages == Expected(log[..i], cursor, LastId(log)) && lastEventId == LastId(messages)
      invariant scanAnchor == if LastId(log[..i]) > cursor then LastId(log[..i]) else 0
    {
      assert log[..i + 1][..i] == log[..i];
      NotBeyondLast(log, i);
      var evt := log[i];
      if evt.id <= cursor {
        continue;
      }
      scanAnchor := evt.id;
      if !evt.matches || !evt.decodes {
        continue;
      }
      messages := messages + [evt];
      lastEventId := evt.id;
    }
    assert log[..|log|] == log;
    if messages != [] {
      NoZeroIds(log, cursor, LastId(log));
    }
    cursorAfter := lastEventId;
    if cursorAfter == 0 {
      cursorAfter := cursor;
    }
  }

  lemma NotBeyondLast(log: seq<Event>, i: nat)
    requires AscendingIds(log) && i < |log|
    ensures log[i].id <= LastId(log) && (i > 0 ==> LastId(log[..i]) < log[i].id)
  {
  }

  lemma NoZeroIds(log: seq<Event>, lo: nat, hi: nat)
    requires AscendingIds(log) && Expected(log, lo, hi) != []
    ensures LastId(Expected(log, lo, hi)) > 0
  {
    ExpectedMembers(log, lo, hi);
    var found := Expected(log, lo, hi);
    assert found[|found| - 1] in found;
  }

  /** Where the client then starts to follow: the cursor after the drain, or the last
      id scanned when there is none. */
  function FollowAnchor(log: seq<Event>, cursor: nat): nat {
    var messages := Expected(log, cursor, LastId(log));
    var cursorAfter := if messages == [] then cursor else LastId(messages);
    if cursorAfter != 0 then cursorAfter else if LastId(log) > cursor then LastId(log) else 0
  }

  /** The anchor is a real event exactly when the log was not empty, and the drain has
      printed what lies between the old cursor and it. */
  lemma AnchorIsSound(log: seq<Event>, cursor: nat)
    requires AscendingIds(log) && cursor <= LastId(log)
    ensures FollowAnchor(log, cursor) > 0 <==> log != []
    ensures cursor <= FollowAnchor(log, cursor) <= LastId(log)
    ensures Expected(log, cursor, FollowAnchor(log, cursor)) == Expected(log, cursor, LastId(log))
    ensures var messages := Expected(log, cursor, LastId(log));
      FollowAnchor(log, cursor) ==
        if messages != [] then messages[|messages| - 1].id else if cursor != 0 then cursor else LastId(log)
  {
    var anchor, messages := FollowAnchor(log, cursor), Expected(log, cursor, LastId(log));
    ExpectedMembers(log, cursor, LastId(log));
    if messages != [] {
      assert messages[|messages| - 1] in messages;
      NoZeroIds(log, cursor, LastId(log));
      UpToLast(log, cursor, LastId(log));
    } else if cursor != 0 {
      NothingBetween(log, cursor);
    }
  }

  lemma {:induction false} UpToLast(log: seq<Event>, lo: nat, hi: nat)
    requires AscendingIds(log) && Expected(log, lo, hi) != []
    ensures Expected(log, lo, LastId(Expected(log, lo, hi))) == Expected(log, lo, hi)
  {
    var n := |log| - 1;
    var init, e := log[..n], log[n];
    var found, m := Expected(log, lo, hi), LastId(Expected(log, lo, hi));
    assert log == init + [e];
    AscendingSnoc(init, e);
    if e.matches && e.decodes && lo < e.id <= hi {
      assert m == e.id;
      HigherTop(init, lo, e.id, hi);
    } else {
      UpToLast(init, lo, hi);
      ExpectedMembers(init, lo, hi);
      assert found[|found| - 1] in Expected(init, lo, hi);
    }
  }

  /** A bound above every id makes no difference. */
  lemma {:induction false} HigherTop(log: seq<Event>, lo: nat, b: nat, c: nat)
    requires b <= c && forall e :: e in log ==> e.id < b
    ensures Expected(log, lo, b) == Expected(log, lo, c)
  {
    if log != [] {
      assert log == log[..|log| - 1] + [log[|log| - 1]];
      HigherTop(log[..|log| - 1], lo, b, c);
    }
  }

  /** Catch-up and tail join without gap or repeat: from a log that is not empty, what
      the drain printed and what the follow prints, started at the anchor that the
      client chooses, together are everything from the old cursor to the current one,
      whatever is logged between the drain and the first subscription. */
  lemma DrainThenFollow(log: seq<Event>, cursor: nat, steps: seq<Step>)
    requires AscendingIds(log) && log != [] && cursor <= LastId(log)
    requires var s := System(log, Offline, Client(FollowAnchor(log, cursor), [], None)); ValidRun(s, steps) && BeatsInOrder(s, steps)
    ensures var end := Run(System(log, Offline, Client(FollowAnchor(log, cursor), [], None)), steps);
      Expected(log, cursor, LastId(log)) + end.client.printed == Expected(end.log, cursor, end.client.lastSeen)
  {
    var anchor := FollowAnchor(log, cursor);
    var s := System(log, Offline, Client(anchor, [], None));
    AnchorIsSound(log, cursor);
    NothingBetween(log, anchor);
    RunKeeps(s, anchor, steps);
    LogGrows(s, steps, cursor, anchor);
    ExpectedSplits(Run(s, steps).log, cursor, anchor, Run(s, steps).client.lastSeen);
  }

  // ---- What the heartbeat promise is worth ----

  /** From a good state with an open subscription, writing a heartbeat leaves a good
      state exactly when it names no id beyond the log and overtakes no unsent event. */
  lemma BeatSafeExactly(s: System, anchor: nat, last: nat)
    requires Good(s, anchor) && s.link.Online? && s.client.exit.None?
    ensures Good(Beaten(s, last), anchor) <==> last <= LastId(s.log) && BeatInOrder(s, Beat(last))
  {
    var s' := Beaten(s, last);
    var n := |s.link.wire|;
    assert s'.link.wire[n] == Heartbeat(last);
    if last <= LastId(s.log) {
      if BeatInOrder(s, Beat(last)) {
        StepKeeps(s, anchor, Beat(last));
      } else {
        assert s'.link.wire[n + 1..] == [];
        var e :| e in s.link.unsent && e.id <= last;
        assert e in Messages([]) + s.link.unsent;
      }
    }
  }

  /** e is behind the cursor, unprinted, and nothing on its way can bring it. */
  ghost predicate Lost(s: System, e: Event) {
    && e.id <= s.client.lastSeen && e !in s.client.printed && e.id <= LastId(s.log)
    && forall f :: f in Coming(s.link) ==> f.id > e.id
  }

  lemma LostStays(s: System, e: Event, step: Step)
    requires Lost(s, e) && Enabled(s, step) && e.id > 0
    ensures Lost(Next(s, step), e)
  {
    match step {
      case Subscribe => MatchingMembers(s.log, s.client.lastSeen);
      case Send => SameComing(s.link.wire, s.link.unsent[1..], Message(s.link.unsent[0]), s.link.unsent);
      case Beat(last) => SameComing(s.link.wire, s.link.unsent, Heartbeat(last), s.link.unsent);
      case Refuse => SameComing(s.link.wire, s.link.unsent, Refused, s.link.unsent);
      case Deliver => LostNotDelivered(s, e);
      case Append(f) =>
      case _ =>
    }
  }

  lemma SameComing(wire: seq<Item>, unsent': seq<Event>, item: Item, unsent: seq<Event>)
    requires Messages([item]) + unsent' == unsent
    ensures Coming(Online(unsent', wire + [item])) == Coming(Online(unsent, wire))
  {
    MessagesConcat(wire, [item]);
    assert Messages(wire) + Messages([item]) + unsent' == Messages(wire) + unsent;
  }

  lemma LostNotDelivered(s: System, e: Event)
    requires Lost(s, e) && Enabled(s, Deliver) && e.id > 0
    ensures Lost(Next(s, Deliver), e)
  {
    var item, rest := s.link.wire[0], Coming(Online(s.link.unsent, s.link.wire[1..]));
    assert Messages(s.link.wire) == (if item.Message? then [item.event] else []) + Messages(s.link.wire[1..]);
    assert forall f :: f in rest ==> f in Coming(s.link);
    if item.Message? {
      assert item.event in Coming(s.link);
    }
  }

  lemma {:induction false} LostForever(s: System, e: Event, steps: seq<Step>)
    requires Lost(s, e) && ValidRun(s, steps) && e.id > 0
    ensures e !in Run(s, steps).client.printed
    decreases |steps|
  {
    if steps != [] {
      LostStays(s, e, steps[0]);
      LostForever(Next(s, steps[0]), e, steps[1..]);
    }
  }

  /** A heartbeat that breaks the promise loses messages: if it overtakes an
      unsent event and the connection drops once the heartbeat is read, the client
      never prints that event, whatever happens afterwards. */
  lemma OvertakenEventIsLost(s: System, anchor: nat, last: nat, e: Event, rest: seq<Step>)
    requires Good(s, anchor) && s.client.exit.None? && s.link.Online? && s.link.wire == []
    requires e in s.link.unsent && e.id <= last <= LastId(s.log)
    requires ValidRun(s, [Beat(last), Deliver, Drop] + rest)
    ensures e in s.log && e.matches
    ensures e !in Run(s, [Beat(last), Deliver, Drop] + rest).client.printed
  {
    assert [Beat(last), Deliver, Drop] + rest == [Beat(last)] + ([Deliver] + ([Drop] + rest));
    var s1 := Next(s, Beat(last));
    RunCons(s, Beat(last), [Deliver] + ([Drop] + rest));
    var s2 := Next(s1, Deliver);
    RunCons(s1, Deliver, [Drop] + rest);
    var s3 := Next(s2, Drop);
    RunCons(s2, Drop, rest);
    OvertakenIsLost(s, anchor, last, e);
    LostForever(s3, e, rest);
  }

  lemma OvertakenIsLost(s: System, anchor: nat, last: nat, e: Event)
    requires Good(s, anchor) && s.client.exit.None? && s.link.Online? && s.link.wire == []
    requires e in s.link.unsent && e.id <= last <= LastId(s.log)
    ensures e in s.log && e.matches && e.id > 0
    ensures Next(Next(Next(s, Beat(last)), Deliver), Drop) == s.(link := Offline, client := s.client.(lastSeen := last))
    ensures Lost(s.(link := Offline, client := s.client.(lastSeen := last)), e)
  {
    assert Coming(s.link) == s.link.unsent;
    MatchingMembers(s.log, s.client.lastSeen);
    ExpectedMembers(s.log, anchor, s.client.lastSeen);
    assert Next(s, Beat(last)).link.wire == [Heartbeat(last)];
  }

  /** And reading on instead of dropping, the cursor moves back: the assignment on
      a message takes no maximum with the cursor. */
  lemma OvertakenEventMovesCursorBack(s: System, anchor: nat, last: nat)
    requires Good(s, anchor) && s.client.exit.None? && s.link.Online? && s.link.wire == []
    requires s.link.unsent != [] && s.link.unsent[0].id < last <= LastId(s.log)
    ensures ValidRun(s, [Beat(last), Deliver]) && ValidRun(s, [Beat(last), Deliver] + [Send, Deliver])
    ensures Run(s, [Beat(last), Deliver]).client.lastSeen == last
    ensures Run(s, [Beat(last), Deliver] + [Send, Deliver]).client.lastSeen < last
  {
    UnsentIsNew(s, anchor);
    var s1 := Next(s, Beat(last));
    assert s1.link.wire == [Heartbeat(last)];
    var s2 := Next(s1, Deliver);
    var s3 := Next(s2, Send);
    assert s3.link.wire == [Message(s.link.unsent[0])];
    var s4 := Next(s3, Deliver);
    RunCons(s, Beat(last), [Deliver] + []);
    RunCons(s1, Deliver, []);
    assert [Beat(last), Deliver] == [Beat(last)] + ([Deliver] + []);
    RunCons(s, Beat(last), [Deliver] + ([Send] + ([Deliver] + [])));
    RunCons(s1, Deliver, [Send] + ([Deliver] + []));
    RunCons(s2, Send, [Deliver] + []);
    RunCons(s3, Deliver, []);
    assert [Beat(last), Deliver] + [Send, Deliver] == [Beat(last)] + ([Deliver] + ([Send] + ([Deliver] + [])));
  }

  lemma UnsentIsNew(s: System, anchor: nat)
    requires Good(s, anchor) && s.client.exit.None? && s.link.Online? && s.link.wire == [] && s.link.unsent != []
    ensures s.link.unsent[0].id > s.client.lastSeen
  {
    assert Coming(s.link) == s.link.unsent;
    TakeNext(s.log, anchor, s.client.lastSeen);
  }

  /** The starting anchor must be a real event: from an empty cursor the request
      replays nothing, so a matching event that arrives before the subscription
      does is never printed. */
  lemma EmptyAnchorMisses(e: Event)
    requires e.matches && e.decodes && e.id > 0
    ensures var s := System([], Offline, Client(0, [], None));
      && ValidRun(s, [Append(e), Subscribe])
      && Run(s, [Append(e), Subscribe]).link == Online([], [])
      && e in Expected(Run(s, [Append(e), Subscribe]).log, 0, e.id)
      && e !in Run(s, [Append(e), Subscribe]).client.printed
  {
    var s := System([], Offline, Client(0, [], None));
    var steps := [Append(e), Subscribe];
    assert steps[1..] == [Subscribe];
    var s1 := Next(s, Append(e));
    assert s1.log == [e] && [e][..0] == [];
    assert Expected([e], 0, e.id) == Expected([], 0, e.id) + [e];
    assert Run(s, steps) == Run(s1, [Subscribe]) == Next(s1, Subscribe);
  }

  // ---- A run as a script of dials ----

  /** What a run has meant for the client loop: the connections that are over, and the
      objects read so far on an open one. */
  datatype Script = Script(dials: seq<Dial>, open: Option<seq<Item>>)

  function Recorded(script: Script, s: System, step: Step): Script
    requires Enabled(s, step) && (s.link.Online? <==> script.open.Some?)
  {
    match step
    case Subscribe => script.(open := Some([]))
    case Deliver => script.(open := Some(script.open.value + [s.link.wire[0]]))
    case Drop => Script(script.dials + [Connected(script.open.value, Clean)], None)
    case Tear => Script(script.dials + [Connected(script.open.value, Torn)], None)
    case Signal =>
      Script(script.dials + [if script.open.Some? then Connected(script.open.value, Interrupted) else SignalDuringDial], None)
    case _ => script
  }

  function ScriptOf(s: System, script: Script, steps: seq<Step>): Script
    requires ValidRun(s, steps) && (s.link.Online? <==> script.open.Some?)
    decreases |steps|
  {
    if steps == [] then script else ScriptOf(Next(s, steps[0]), Recorded(script, s, steps[0]), steps[1..])
  }

  /** The client that the loop has after the script so far. */
  function ClientOf(since: nat, script: Script): Client {
    var c := OnDials(Started(since), script.dials).client;
    if script.open.Some? then HandleAll(c, script.open.value) else c
  }

  lemma {:induction false} HandleAllSnoc(c: Client, items: seq<Item>, item: Item)
    ensures HandleAll(c, items + [item]) == if HandleAll(c, items).exit.Some? then HandleAll(c, items) else Handle(HandleAll(c, items), item)
    decreases |items|
  {
    if items != [] && c.exit.None? {
      assert (items + [item])[1..] == items[1..] + [item];
      HandleAllSnoc(Handle(c, items[0]), items[1..], item);
    }
  }

  lemma {:induction false} OnDialsSnoc(l: Loop, dials: seq<Dial>, dial: Dial)
    ensures OnDials(l, dials + [dial]) == if OnDials(l, dials).client.exit.Some? then OnDials(l, dials) else OnDial(OnDials(l, dials), dial)
    decreases |dials|
  {
    if dials != [] && l.client.exit.None? {
      assert (dials + [dial])[1..] == dials[1..] + [dial];
      OnDialsSnoc(OnDial(l, dials[0]), dials[1..], dial);
    }
  }

  /** The run's client is the loop's. */
  ghost predicate Follows(since: nat, s: System, script: Script) {
    && (s.link.Online? <==> script.open.Some?) && s.client == ClientOf(since, script)
    && (script.open.Some? ==> OnDials(Started(since), script.dials).client.exit.None?)
  }

  lemma FollowsStep(since: nat, s: System, script: Script, step: Step)
    requires Follows(since, s, script) && Enabled(s, step)
    ensures Follows(since, Next(s, step), Recorded(script, s, step))
  {
    match step
    case Deliver => HandleAllSnoc(OnDials(Started(since), script.dials).client, script.open.value, s.link.wire[0]);
    case Drop => OnDialsSnoc(Started(since), script.dials, Connected(script.open.value, Clean));
    case Tear => OnDialsSnoc(Started(since), script.dials, Connected(script.open.value, Torn));
    case Signal =>
      OnDialsSnoc(Started(since), script.dials, if script.open.Some? then Connected(script.open.value, Interrupted) else SignalDuringDial);
    case _ =>
  }

  lemma {:induction false} FollowsRun(since: nat, s: System, script: Script, steps: seq<Step>)
    requires Follows(since, s, script) && ValidRun(s, steps)
    ensures Follows(since, Run(s, steps), ScriptOf(s, script, steps))
    decreases |steps|
  {
    if steps != [] {
      FollowsStep(since, s, script, steps[0]);
      FollowsRun(since, Next(s, steps[0]), Recorded(script, s, steps[0]), steps[1..]);
    }
  }

  /** The client of a run is the client loop over the connections read off that run. So
      whenever the subscription is closed, the loop has printed, over those dials,
      exactly the well-formed matching events up to its cursor. */
  lemma LoopPrintsExpected(s: System, anchor: nat, steps: seq<Step>)
    requires Initial(s, anchor) && ValidRun(s, steps) && BeatsInOrder(s, steps) && Run(s, steps).link.Offline?
    ensures var l := OnDials(Started(anchor), ScriptOf(s, Script([], None), steps).dials);
      l.client == Run(s, steps).client && l.client.printed == Expected(Run(s, steps).log, anchor, l.client.lastSeen)
  {
    FollowsRun(anchor, s, Script([], None), steps);
    ExactlyOnceInOrder(s, anchor, steps);
  }
}
