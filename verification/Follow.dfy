/** The client loop of `harmonik comms recv --follow` (runCommsRecvFollowIO): it
    keeps a resume cursor over subscriptions that drop and are made again. Event
    ids are the ranks of module EventIds, 0 being the empty id. */
module Follow {
  import opened Results

  /** A logged event as this subscription sees it: whether the daemon's filter
      delivers it, whether its payload decodes, and whether it is the daemon's
      park message. */
  datatype Event = Event(id: nat, matches: bool, decodes: bool, park: bool)

  /** One decoded object of the stream; Other is any other event type. */
  datatype Item = Message(event: Event) | Heartbeat(last: nat) | Refused | Other

  /** How a connection's stream stops: a clean EOF or closed connection, an object
      cut in the middle, or a signal. */
  datatype Ending = Clean | Torn | Interrupted

  datatype Dial = Absent | DialError | WriteError | SignalDuringDial | Connected(items: seq<Item>, ending: Ending)

  datatype Client = Client(lastSeen: nat, printed: seq<Event>, exit: Option<int>)

  function Handle(c: Client, item: Item): Client {
    match item
    case Refused => c.(exit := Some(1))
    case Heartbeat(last) => if last != 0 && last > c.lastSeen then c.(lastSeen := last) else c
    case Message(e) =>
      var seen := if e.id != 0 then c.(lastSeen := e.id) else c;
      if !e.decodes then seen
      else seen.(printed := seen.printed + [e], exit := if e.park then Some(0) else seen.exit)
    case Other => c
  }

  function HandleAll(c: Client, items: seq<Item>): Client
    decreases |items|
  {
    if items == [] || c.exit.Some? then c else HandleAll(Handle(c, items[0]), items[1..])
  }

  function Ended(c: Client, ending: Ending): Client {
    if c.exit.Some? then c
    else match ending
      case Clean => c
      case Torn => c.(exit := Some(1))
      case Interrupted => c.(exit := Some(0))
  }

  /** The whole loop's variables; `waits` lists the reconnect delays in seconds. */
  datatype Loop = Loop(client: Client, backoff: nat, firstDial: bool, waits: seq<nat>)

  const INITIAL_BACKOFF := 1
  const MAX_BACKOFF := 10

  function Doubled(backoff: nat): nat {
    if backoff < MAX_BACKOFF then (if 2 * backoff > MAX_BACKOFF then MAX_BACKOFF else 2 * backoff) else backoff
  }

  function Wait(l: Loop): Loop {
    l.(waits := l.waits + [l.backoff], backoff := Doubled(l.backoff))
  }

  function Exited(l: Loop, code: int): Loop {
    l.(client := l.client.(exit := Some(code)))
  }

  function OnDial(l: Loop, d: Dial): Loop {
    match d
    case SignalDuringDial => Exited(l, 0)
    case Absent => if l.firstDial then Exited(l, 17) else Wait(l)
    case DialError => Exited(l, 1)
    case WriteError => Exited(l.(backoff := INITIAL_BACKOFF, firstDial := false), 1)
    case Connected(items, ending) =>
      var l' := l.(backoff := INITIAL_BACKOFF, firstDial := false, client := Ended(HandleAll(l.client, items), ending));
      if l'.client.exit.Some? then l' else Wait(l')
  }

  function OnDials(l: Loop, dials: seq<Dial>): Loop
    decreases |dials|
  {
    if dials == [] || l.client.exit.Some? then l else OnDials(OnDial(l, dials[0]), dials[1..])
  }

  function Started(since: nat): Loop {
    Loop(Client(since, [], None), INITIAL_BACKOFF, true, [])
  }

  /** The follow loop over a script of dial attempts; a signal ends it when the
      script runs out. */
  method RecvFollow(since: nat, dials: seq<Dial>) returns (code: int, lastSeen: nat, printed: seq<Event>, waits: seq<nat>)
    ensures var l := OnDials(Started(since), dials);
      && code == (if l.client.exit.Some? then l.client.exit.value else 0)
      && lastSeen == l.client.lastSeen && printed == l.client.printed && waits == l.waits
  {
    lastSeen, printed, waits := since, [], [];
    var backoff: nat := INITIAL_BACKOFF;
    var firstDial := true;
    var i := 0;
    while i < |dials|
      invariant 0 <= i <= |dials|
      invariant OnDials(Started(since), dials) == OnDials(Loop(Client(lastSeen, printed, None), backoff, firstDial, waits), dials[i..])
    {
      assert dials[i..][1..] == dials[i + 1..];
      var dial := dials[i];
      i := i + 1;
      match dial {
        case SignalDuringDial =>
          return 0, lastSeen, printed, waits;
        case Absent =>
          if firstDial {
            return 17, lastSeen, printed, waits;
          }
          waits := waits + [backoff];
          backoff := Doubled(backoff);
          continue;
        case DialError =>
          return 1, lastSeen, printed, waits;
        case WriteError =>
          return 1, lastSeen, printed, waits;
        case Connected(items, ending) =>
          backoff := INITIAL_BACKOFF;
          firstDial := false;
          ghost var c0 := Client(lastSeen, printed, None);
          var k := 0;
          while k < |items|
            invariant 0 <= k <= |items|
            invariant HandleAll(c0, items) == HandleAll(Client(lastSeen, printed, None), items[k..])
          {
            assert items[k..][1..] == items[k + 1..];
            var item := items[k];
            k := k + 1;
            match item {
              case Refused =>
                return 1, lastSeen, printed, waits;
              case Heartbeat(last) =>
                if last != 0 {
                  if lastSeen == 0 || last > lastSeen {
                    lastSeen := last;
                  }
                }
              case Other =>
              case Message(e) =>
                if e.id != 0 {
                  lastSeen := e.id;
                }
                if !e.decodes {
                  continue;
                }
                printed := printed + [e];
                if e.park {
                  return 0, lastSeen, printed, waits;
                }
            }
          }
          match ending {
            case Interrupted =>
              return 0, lastSeen, printed, waits;
            case Torn =>
              return 1, lastSeen, printed, waits;
            case Clean =>
              waits := waits + [backoff];
              backoff := Doubled(backoff);
          }
      }
    }
    code := 0;
  }

  // ---- Exit 17 and the reconnect delays ----

  /** The delays that a list of dials asks for, one each: one second after a
      connection, and after a dial that found no daemon the doubled and capped delay
      before it. */
  ghost predicate Schedule(waits: seq<nat>, dials: seq<Dial>) {
    && |waits| == |dials|
    && forall k :: 0 <= k < |dials| ==> DelayAt(waits, dials, k)
  }

  predicate DelayAt(waits: seq<nat>, dials: seq<Dial>, k: nat)
    requires k < |waits| && k < |dials|
  {
    match dials[k]
    case Connected(_, _) => waits[k] == INITIAL_BACKOFF
    case Absent => k > 0 && waits[k] == Doubled(waits[k - 1])
    case _ => false
  }

  /** The loop after `done` dials, none of which ended it. */
  ghost predicate Paced(l: Loop, done: seq<Dial>) {
    && l.client.exit.None? && Schedule(l.waits, done)
    && l.backoff == (if done == [] then INITIAL_BACKOFF else Doubled(l.waits[|l.waits| - 1]))
    && (l.firstDial <==> done == [])
  }

  lemma ScheduleSnoc(waits: seq<nat>, done: seq<Dial>, delay: nat, dial: Dial)
    requires Schedule(waits, done)
    requires dial.Connected? ==> delay == INITIAL_BACKOFF
    requires !dial.Connected? ==> dial.Absent? && done != [] && delay == Doubled(waits[|waits| - 1])
    ensures Schedule(waits + [delay], done + [dial])
  {
    var more, dials := waits + [delay], done + [dial];
    forall k | 0 <= k < |dials| ensures DelayAt(more, dials, k) {
      if k < |done| {
        assert DelayAt(waits, done, k);
      }
    }
  }

  /** The dials that are waited out are those before the one that ends the loop. */
  lemma {:induction false} DialsPaced(l: Loop, done: seq<Dial>, dials: seq<Dial>)
    requires Paced(l, done)
    ensures var l' := OnDials(l, dials); var n := |l'.waits| - |done|;
      && 0 <= n <= |dials| && Schedule(l'.waits, done + dials[..n])
      && (l'.client.exit.None? <==> n == |dials|)
      && (l'.client.exit == Some(17) <==> done == [] && dials != [] && dials[0] == Absent)
    decreases |dials|
  {
    assert done + dials[..0] == done;
    if dials != [] {
      var l1 := OnDial(l, dials[0]);
      match dials[0] {
        case Connected(items, ending) => ItemsNeverGive17(l.client, items);
        case _ =>
      }
      if l1.client.exit.None? {
        ScheduleSnoc(l.waits, done, l1.waits[|l.waits|], dials[0]);
        DialsPaced(l1, done + [dials[0]], dials[1..]);
        var n := |OnDials(l, dials).waits| - |done|;
        assert done + [dials[0]] + dials[1..][..n - 1] == done + dials[..n];
      } else {
        assert OnDials(l1, dials[1..]) == l1;
      }
    }
  }

  lemma {:induction false} ItemsNeverGive17(c: Client, items: seq<Item>)
    requires c.exit != Some(17)
    ensures HandleAll(c, items).exit != Some(17)
    decreases |items|
  {
    if items != [] && c.exit.None? {
      ItemsNeverGive17(Handle(c, items[0]), items[1..]);
    }
  }

  /** Every dial that does not end the loop is waited out once, by the capped
      doubling schedule that its outcome asks for; and the daemon-down exit 17 is
      given exactly when the very first dial finds no daemon. */
  lemma ReconnectPolicy(since: nat, dials: seq<Dial>)
    ensures var l := OnDials(Started(since), dials); var n := |l.waits|;
      && n <= |dials| && Schedule(l.waits, dials[..n])
      && (l.client.exit.None? <==> n == |dials|)
      && (l.client.exit == Some(17) <==> dials != [] && dials[0] == Absent)
  {
    DialsPaced(Started(since), [], dials);
    var n := |OnDials(Started(since), dials).waits|;
    assert [] + dials[..n] == dials[..n];
  }

  /** So k absences after a connection are waited out for 1, 2, 4, 8 and then 10
      seconds each. */
  lemma {:induction false} DelaysAfterConnection(waits: seq<nat>, dials: seq<Dial>, at: nat, k: nat)
    requires Schedule(waits, dials) && at + k < |dials| && dials[at].Connected?
    requires forall i :: at < i <= at + k ==> dials[i].Absent?
    ensures waits[at + k] == if k == 0 then 1 else if k == 1 then 2 else if k == 2 then 4 else if k == 3 then 8 else 10
  {
    assert DelayAt(waits, dials, at + k);
    if k > 0 {
      DelaysAfterConnection(waits, dials, at, k - 1);
    }
  }

  // ---- Where the loop ends ----

  /** What a script of dials brings, one thing after another: an object of the stream,
      or something that ends the loop with a code by itself. */
  datatype Reading = Got(item: Item) | Cut(code: int)

  function ReadingsOf(dial: Dial, first: bool): seq<Reading> {
    match dial
    case SignalDuringDial => [Cut(0)]
    case Absent => if first then [Cut(17)] else []
    case DialError => [Cut(1)]
    case WriteError => [Cut(1)]
    case Connected(items, ending) => Gots(items) + EndReading(ending)
  }

  function Gots(items: seq<Item>): seq<Reading>
    decreases |items|
  {
    if items == [] then [] else [Got(items[0])] + Gots(items[1..])
  }

  function EndReading(ending: Ending): seq<Reading> {
    match ending
    case Clean => []
    case Torn => [Cut(1)]
    case Interrupted => [Cut(0)]
  }

  function Readings(dials: seq<Dial>, first: bool): seq<Reading>
    decreases |dials|
  {
    if dials == [] then [] else ReadingsOf(dials[0], first) + Readings(dials[1..], false)
  }

  /** The exit table: a refusal ends the loop with 1, a well-formed park message with
      0, and each of the cuts with its own code. */
  function Ends(r: Reading): Option<int> {
    match r
    case Cut(code) => Some(code)
    case Got(Refused) => Some(1)
    case Got(Message(e)) => if e.decodes && e.park then Some(0) else None
    case Got(_) => None
  }

  /** The place of the first reading that ends the loop, or the end. */
  function FirstEnd(rs: seq<Reading>): (n: nat)
    ensures n <= |rs| && (n < |rs| ==> Ends(rs[n]).Some?) && forall i :: 0 <= i < n ==> Ends(rs[i]).None?
  {
    if rs == [] || Ends(rs[0]).Some? then 0 else 1 + FirstEnd(rs[1..])
  }

  /** The well-formed messages among the readings, in order. */
  function WellFormed(rs: seq<Reading>): seq<Event> {
    if rs == [] then []
    else
      var r := rs[|rs| - 1];
      WellFormed(rs[..|rs| - 1]) + if r.Got? && r.item.Message? && r.item.event.decodes then [r.item.event] else []
  }

  /** The client after the readings: it has exited where the table first says so, and
      has printed the well-formed messages up to there and no others. */
  ghost predicate Tabled(c: Client, rs: seq<Reading>, c': Client) {
    var n := FirstEnd(rs);
    if n == |rs| then c'.exit == None && c'.printed == c.printed + WellFormed(rs)
    else c'.exit == Ends(rs[n]) && c'.printed == c.printed + WellFormed(rs[..n + 1])
  }

  lemma {:induction false} WellFormedConcat(a: seq<Reading>, b: seq<Reading>)
    ensures WellFormed(a + b) == WellFormed(a) + WellFormed(b)
  {
    if b == [] {
      assert a + b == a;
    } else {
      WellFormedConcat(a, b[..|b| - 1]);
      assert (a + b)[..|a + b| - 1] == a + b[..|b| - 1];
    }
  }

  lemma {:induction false} FirstEndConcat(a: seq<Reading>, b: seq<Reading>)
    ensures FirstEnd(a + b) == if FirstEnd(a) < |a| then FirstEnd(a) else |a| + FirstEnd(b)
    decreases |a|
  {
    if a == [] {
      assert a + b == b;
    } else if Ends(a[0]).None? {
      assert (a + b)[1..] == a[1..] + b;
      FirstEndConcat(a[1..], b);
    }
  }

  lemma TabledStops(c: Client, a: seq<Reading>, c1: Client, b: seq<Reading>)
    requires Tabled(c, a, c1) && c1.exit.Some?
    ensures Tabled(c, a + b, c1)
  {
    FirstEndConcat(a, b);
    assert FirstEnd(a) < |a|;
    assert (a + b)[..FirstEnd(a) + 1] == a[..FirstEnd(a) + 1];
  }

  lemma TabledGoesOn(c: Client, a: seq<Reading>, c1: Client, b: seq<Reading>, c2: Client)
    requires Tabled(c, a, c1) && c1.exit.None? && Tabled(c1, b, c2)
    ensures Tabled(c, a + b, c2)
  {
    FirstEndConcat(a, b);
    WellFormedConcat(a, b);
    var m := FirstEnd(b);
    assert FirstEnd(a) == |a|;
    if m < |b| {
      WellFormedConcat(a, b[..m + 1]);
      assert (a + b)[..|a| + m + 1] == a + b[..m + 1];
    }
    Associate(c.printed, WellFormed(a), WellFormed(if m < |b| then b[..m + 1] else b));
  }

  lemma Associate(a: seq<Event>, b: seq<Event>, c: seq<Event>)
    ensures a + b + c == a + (b + c)
  {
  }

  lemma TabledOne(c: Client, r: Reading, c': Client)
    requires c.exit.None? && match r { case Cut(code) => c' == c.(exit := Some(code)) case Got(item) => c' == Handle(c, item) }
    ensures Tabled(c, [r], c')
  {
    assert [r][..0] == [] && [r][..1] == [r];
    assert FirstEnd([r][1..]) == 0;
  }

  lemma {:induction false} ItemsTabled(c: Client, items: seq<Item>)
    requires c.exit.None?
    ensures Tabled(c, Gots(items), HandleAll(c, items))
    decreases |items|
  {
    if items != [] {
      var c1 := Handle(c, items[0]);
      TabledOne(c, Got(items[0]), c1);
      if c1.exit.None? {
        ItemsTabled(c1, items[1..]);
        TabledGoesOn(c, [Got(items[0])], c1, Gots(items[1..]), HandleAll(c1, items[1..]));
      } else {
        TabledStops(c, [Got(items[0])], c1, Gots(items[1..]));
        assert HandleAll(c1, items[1..]) == c1;
      }
    }
  }

  lemma DialTabled(l: Loop, dial: Dial)
    requires l.client.exit.None?
    ensures Tabled(l.client, ReadingsOf(dial, l.firstDial), OnDial(l, dial).client)
    ensures OnDial(l, dial).client.exit.None? ==> !OnDial(l, dial).firstDial
  {
    match dial
    case SignalDuringDial => TabledOne(l.client, Cut(0), OnDial(l, dial).client);
    case Absent =>
      if l.firstDial {
        TabledOne(l.client, Cut(17), OnDial(l, dial).client);
      }
    case DialError => TabledOne(l.client, Cut(1), OnDial(l, dial).client);
    case WriteError => TabledOne(l.client, Cut(1), OnDial(l, dial).client);
    case Connected(items, ending) =>
      var c1, c2 := HandleAll(l.client, items), Ended(HandleAll(l.client, items), ending);
      ItemsTabled(l.client, items);
      if c1.exit.Some? {
        TabledStops(l.client, Gots(items), c1, EndReading(ending));
      } else {
        if !ending.Clean? {
          TabledOne(c1, EndReading(ending)[0], c2);
        }
        TabledGoesOn(l.client, Gots(items), c1, EndReading(ending), c2);
      }
  }

  lemma {:induction false} DialsTabled(l: Loop, dials: seq<Dial>)
    requires l.client.exit.None?
    ensures Tabled(l.client, Readings(dials, l.firstDial), OnDials(l, dials).client)
    decreases |dials|
  {
    if dials != [] {
      var l1 := OnDial(l, dials[0]);
      DialTabled(l, dials[0]);
      if l1.client.exit.None? {
        DialsTabled(l1, dials[1..]);
        TabledGoesOn(l.client, ReadingsOf(dials[0], l.firstDial), l1.client, Readings(dials[1..], false), OnDials(l1, dials[1..]).client);
      } else {
        TabledStops(l.client, ReadingsOf(dials[0], l.firstDial), l1.client, Readings(dials[1..], false));
        assert OnDials(l1, dials[1..]) == l1;
      }
    }
  }

  /** The exit table over every script of dials: the loop ends at the first reading
      that ends it, with that reading's code, and prints the well-formed messages up to
      and including it and nothing that comes after. */
  lemma ExitTable(since: nat, dials: seq<Dial>)
    ensures var rs, c := Readings(dials, true), OnDials(Started(since), dials).client; var n := FirstEnd(rs);
      if n == |rs| then c.exit == None && c.printed == WellFormed(rs)
      else c.exit == Ends(rs[n]) && c.printed == WellFormed(rs[..n + 1])
  {
    DialsTabled(Started(since), dials);
    var rs := Readings(dials, true);
    assert [] + WellFormed(rs) == WellFormed(rs);
    if FirstEnd(rs) < |rs| {
      assert [] + WellFormed(rs[..FirstEnd(rs) + 1]) == WellFormed(rs[..FirstEnd(rs) + 1]);
    }
  }

  lemma {:induction false} NoParkBefore(rs: seq<Reading>)
    requires forall i :: 0 <= i < |rs| ==> Ends(rs[i]).None?
    ensures forall k :: 0 <= k < |WellFormed(rs)| ==> !WellFormed(rs)[k].park
  {
    if rs != [] {
      NoParkBefore(rs[..|rs| - 1]);
    }
  }

  /** A park message stops the client: none is printed but the last, and with it the
      exit is 0. */
  lemma ParkIsLast(since: nat, dials: seq<Dial>, i: nat)
    requires i < |OnDials(Started(since), dials).client.printed| && OnDials(Started(since), dials).client.printed[i].park
    ensures var c := OnDials(Started(since), dials).client; i == |c.printed| - 1 && c.exit == Some(0)
  {
    ExitTable(since, dials);
    var rs := Readings(dials, true);
    var n := FirstEnd(rs);
    NoParkBefore(rs[..n]);
    assert rs[..|rs|] == rs;
    if n < |rs| {
      assert rs[..n + 1][..n] == rs[..n];
    }
  }
}
