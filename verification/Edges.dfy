/** The edges of the pilot loader (scripts/load-pilot.py): how the two ends of an edge
    are resolved, and what becomes of the edges after any history of runs. */
module Edges {
  import opened Results
  import opened Ledger
  import opened Loader

  datatype Kind = Forward | Intra | Cross(prefix: string) | Unknown

  predicate Lower(c: char) {
    'a' <= c <= 'z'
  }

  predicate LowerOrDigit(c: char) {
    Lower(c) || '0' <= c <= '9'
  }

  /** How many characters at the start are lower-case letters or digits. */
  function Leading(s: string): (n: nat)
    ensures n <= |s| && (forall i :: 0 <= i < n ==> LowerOrDigit(s[i])) && (n < |s| ==> !LowerOrDigit(s[n]))
  {
    if s != "" && LowerOrDigit(s[0]) then 1 + Leading(s[1..]) else 0
  }

  /** A mnemonic's prefix: a letter, then letters and digits, up to a '-' or '.'. */
  function PrefixOf(mnem: string): Option<string> {
    var n := Leading(mnem);
    if n > 0 && Lower(mnem[0]) && n < |mnem| && mnem[n] in "-." then Some(mnem[..n]) else None
  }

  const FORWARD := "forward:"

  function EdgeTargetKind(mnem: string, ownPrefix: string): Kind {
    if FORWARD <= mnem then Forward
    else match PrefixOf(mnem)
      case None => Unknown
      case Some(p) => if p == ownPrefix then Intra else Cross(p)
  }

  /** Why an endpoint has no id. */
  datatype Refusal = ForwardDeferred | NotInOwnMap | NoCrossSpec | NotInCrossMap | Unrecognised

  datatype Resolved = Id(id: string) | Refused(why: Refusal)

  function Resolve(mnem: string, ownPrefix: string, own: map<string, string>, cross: map<string, map<string, string>>): Resolved {
    match EdgeTargetKind(mnem, ownPrefix)
    case Forward => Refused(ForwardDeferred)
    case Intra => if mnem in own then Id(own[mnem]) else Refused(NotInOwnMap)
    case Cross(p) =>
      if p !in cross then Refused(NoCrossSpec)
      else if mnem !in cross[p] then Refused(NotInCrossMap)
      else Id(cross[p][mnem])
    case Unknown => Refused(Unrecognised)
  }

  /** The prefix is what the pattern matches: the only split of a mnemonic into a
      lower-case word that starts with a letter, then '-' or '.', then anything. */
  lemma PrefixIsTheSplit(word: string, c: char, rest: string)
    requires word != "" && Lower(word[0]) && (forall i :: 0 <= i < |word| ==> LowerOrDigit(word[i])) && c in "-."
    ensures PrefixOf(word + [c] + rest) == Some(word)
  {
    var s := word + [c] + rest;
    var n := Leading(s);
    assert s[|word|] == c && forall i :: 0 <= i < |word| ==> s[i] == word[i];
    assert n == |word|;
    assert s[..n] == word;
  }

  /** An endpoint whose prefix is a recognised word is looked up in exactly one map:
      the loader's own for its own prefix, else the one of that prefix. A forward
      reference never resolves. */
  lemma ResolvesExactly(word: string, c: char, rest: string, ownPrefix: string, own: map<string, string>, cross: map<string, map<string, string>>, id: string)
    requires word != "" && Lower(word[0]) && (forall i :: 0 <= i < |word| ==> LowerOrDigit(word[i])) && c in "-."
    ensures var mnem := word + [c] + rest;
      Resolve(mnem, ownPrefix, own, cross) == Id(id) <==>
        if word == ownPrefix then mnem in own && own[mnem] == id
        else word in cross && mnem in cross[word] && cross[word][mnem] == id
    ensures Resolve(FORWARD + rest, ownPrefix, own, cross) == Refused(ForwardDeferred)
  {
    var mnem := word + [c] + rest;
    PrefixIsTheSplit(word, c, rest);
    NotForward(word, c, rest);
  }

  lemma NotForward(word: string, c: char, rest: string)
    requires (forall i :: 0 <= i < |word| ==> LowerOrDigit(word[i])) && c in "-."
    ensures !(FORWARD <= word + [c] + rest)
  {
    var mnem, k := word + [c] + rest, if |word| < 7 then |word| else 7;
    assert forall i :: 0 <= i < 7 ==> Lower(FORWARD[i]);
    assert FORWARD[7] == ':';
    assert mnem[k] == if |word| <= 7 then c else word[k];
    assert mnem[k] != FORWARD[k];
  }

  datatype Edge = Edge(from: string, to: string)

  /** What becomes of an edge: an accepted dependency, a deferred one, or a rejected
      one; and the dependency that the issue store is asked for, if any. */
  datatype Fate = Accepted | Deferred | Rejected

  datatype Handled = Handled(fate: Fate, asked: Option<(string, string)>)

  type Maps = map<string, map<string, string>>

  /** `accepts` is the issue store's answer. */
  function HandleEdge(e: Edge, prefix: string, own: map<string, string>, cross: Maps, accepts: (string, string) -> bool): Handled {
    var f := Resolve(e.from, prefix, own, cross);
    if f.Refused? then Handled(Rejected, None)
    else
      var t := Resolve(e.to, prefix, own, cross);
      if t == Refused(ForwardDeferred) then Handled(Deferred, None)
      else if t.Refused? then Handled(Rejected, None)
      else Handled(if accepts(f.id, t.id) then Accepted else Rejected, Some((f.id, t.id)))
  }

  function CountFate(edges: seq<Edge>, handle: Edge -> Handled, fate: Fate): nat {
    if edges == [] then 0
    else CountFate(edges[..|edges| - 1], handle, fate) + if handle(edges[|edges| - 1]).fate == fate then 1 else 0
  }

  function RejectedOf(edges: seq<Edge>, handle: Edge -> Handled): seq<Edge> {
    if edges == [] then []
    else
      var before, e := RejectedOf(edges[..|edges| - 1], handle), edges[|edges| - 1];
      if handle(e).fate.Rejected? then before + [e] else before
  }

  function AskedFor(edges: seq<Edge>, handle: Edge -> Handled): seq<(string, string)> {
    if edges == [] then []
    else
      var before, e := AskedFor(edges[..|edges| - 1], handle), edges[|edges| - 1];
      if handle(e).asked.Some? then before + [handle(e).asked.value] else before
  }

  /** How a run handles its edges once its own map is complete. */
  function Handler(prefix: string, own: map<string, string>, cross: Maps, accepts: (string, string) -> bool): Edge -> Handled {
    e => HandleEdge(e, prefix, own, cross, accepts)
  }

  /** The edge loop: every edge is counted once, and dependencies are asked for in
      file order. */
  method ProcessEdges(edges: seq<Edge>, prefix: string, own: map<string, string>, cross: Maps, accepts: (string, string) -> bool)
    returns (ok: nat, forward: nat, rejected: seq<Edge>, asked: seq<(string, string)>)
    ensures Processed(edges, Handler(prefix, own, cross, accepts), ok, forward, rejected, asked)
    ensures ok + forward + |rejected| == |edges|
  {
    ok, forward, rejected, asked := 0, 0, [], [];
    ghost var handle := Handler(prefix, own, cross, accepts);
    for i := 0 to |edges|
      invariant Processed(edges[..i], handle, ok, forward, rejected, asked)
    {
      ProcessedStep(edges, i, handle, ok, forward, rejected, asked);
      var from := Resolve(edges[i].from, prefix, own, cross);
      if from.Refused? {
        rejected := rejected + [edges[i]];
        continue;
      }
      var to := Resolve(edges[i].to, prefix, own, cross);
      if to == Refused(ForwardDeferred) {
        forward := forward + 1;
        continue;
      }
      if to.Refused? {
        rejected := rejected + [edges[i]];
        continue;
      }
      asked := asked + [(from.id, to.id)];
      if accepts(from.id, to.id) {
        ok := ok + 1;
      } else {
        rejected := rejected + [edges[i]];
      }
    }
    assert edges[..|edges|] == edges;
    EachCountedOnce(edges, handle);
  }

  /** The counts and lists that the loop has after these edges. */
  ghost predicate Processed(edges: seq<Edge>, handle: Edge -> Handled,
                            ok: nat, forward: nat, rejected: seq<Edge>, asked: seq<(string, string)>) {
    && ok == CountFate(edges, handle, Accepted) && forward == CountFate(edges, handle, Deferred)
    && rejected == RejectedOf(edges, handle) && asked == AskedFor(edges, handle)
  }

  lemma {:induction false} EachCountedOnce(edges: seq<Edge>, handle: Edge -> Handled)
    ensures CountFate(edges, handle, Accepted) + CountFate(edges, handle, Deferred) + |RejectedOf(edges, handle)| == |edges|
  {
    if edges != [] {
      EachCountedOnce(edges[..|edges| - 1], handle);
    }
  }

  lemma ProcessedStep(edges: seq<Edge>, i: nat, handle: Edge -> Handled,
                      ok: nat, forward: nat, rejected: seq<Edge>, asked: seq<(string, string)>)
    requires i < |edges| && Processed(edges[..i], handle, ok, forward, rejected, asked)
    ensures var h, e := handle(edges[i]), edges[i];
      var asked' := if h.asked.Some? then asked + [h.asked.value] else asked;
      match h.fate
      case Accepted => Processed(edges[..i + 1], handle, ok + 1, forward, rejected, asked')
      case Deferred => Processed(edges[..i + 1], handle, ok, forward + 1, rejected, asked')
      case Rejected => Processed(edges[..i + 1], handle, ok, forward, rejected + [e], asked')
  {
    assert edges[..i + 1][..i] == edges[..i];
  }

  // ---- Edges after the beads ----

  /** The run has dealt with every bead and goes on to the edges. */
  predicate AtEdges(s: State) {
    s.phase.Working? && s.phase.done >= |Tasks(s.phase.data)|
  }

  /** A mnemonic of the data file, with the file's own prefix. */
  predicate OwnMnemonic(data: Data, prefix: string, m: string) {
    PrefixOf(m) == Some(prefix) && exists k :: 0 <= k < |Tasks(data)| && Tasks(data)[k].mnem == m
  }

  lemma PrefixedIsIntra(m: string, prefix: string)
    requires PrefixOf(m) == Some(prefix)
    ensures EdgeTargetKind(m, prefix) == Intra
  {
    var n := Leading(m);
    assert m == m[..n] + [m[n]] + m[n + 1..];
    NotForward(m[..n], m[n], m[n + 1..]);
  }

  ghost predicate UniqueIds(beads: seq<Bead>) {
    forall i, j :: 0 <= i < j < |beads| ==> beads[i].id != beads[j].id
  }

  lemma UniqueStep(s: State, step: Step)
    requires UniqueIds(s.world.beads)
    ensures UniqueIds(Next(s, step).world.beads)
  {
    var beads, before := Next(s, step).world.beads, s.world.beads;
    assert forall k :: 0 <= k < |before| ==> beads[k].id == before[k].id && before[k].id in Used(before);
    forall i, j | 0 <= i < j < |beads| ensures beads[i].id != beads[j].id {
      if j >= |before| {
        assert step.Go? && step.id !in Used(before) && beads[j].id == step.id;
      }
    }
  }

  /** No two beads share an id. */
  lemma {:induction false} IdsStayUnique(steps: seq<Step>)
    ensures UniqueIds(Run(Initial(), steps).world.beads)
  {
    if steps != [] {
      IdsStayUnique(steps[..|steps| - 1]);
      UniqueStep(Run(Initial(), steps[..|steps| - 1]), steps[|steps| - 1]);
    }
  }

  /** After the beads of a file, whatever runs and kills came before, each of its own
      mnemonics resolves to a draft bead that was created for it. */
  lemma OwnMnemonicResolves(steps: seq<Step>, m: string, prefix: string, cross: Maps)
    requires forall step :: step in steps ==> KeyedStep(step)
    requires var s := Run(Initial(), steps); AtEdges(s) && OwnMnemonic(s.phase.data, prefix, m)
    ensures var s := Run(Initial(), steps); var r := Resolve(m, prefix, s.phase.own, cross);
      r.Id? && DraftBead(s.world.beads, r.id, m)
  {
    InvHolds(steps);
    var s := Run(Initial(), steps);
    PrefixedIsIntra(m, prefix);
    LedgerMapKeys(s.world.ledger, m);
  }

  /** So no edge between two of them is refused by the loader: it asks for the
      dependency between the two beads, which differ when the mnemonics do, and only
      the issue store can reject it. */
  lemma OwnEdgeIsAsked(steps: seq<Step>, e: Edge, prefix: string, cross: Maps, accepts: (string, string) -> bool)
    requires forall step :: step in steps ==> KeyedStep(step)
    requires var s := Run(Initial(), steps);
      AtEdges(s) && OwnMnemonic(s.phase.data, prefix, e.from) && OwnMnemonic(s.phase.data, prefix, e.to)
    ensures var s := Run(Initial(), steps); var h := HandleEdge(e, prefix, s.phase.own, cross, accepts);
      && h.asked.Some?
      && DraftBead(s.world.beads, h.asked.value.0, e.from) && DraftBead(s.world.beads, h.asked.value.1, e.to)
      && (e.from != e.to ==> h.asked.value.0 != h.asked.value.1)
      && h.fate == (if accepts(h.asked.value.0, h.asked.value.1) then Accepted else Rejected)
  {
    OwnMnemonicResolves(steps, e.from, prefix, cross);
    OwnMnemonicResolves(steps, e.to, prefix, cross);
    IdsStayUnique(steps);
  }

  /** The id that is recorded for a mnemonic never changes. */
  lemma {:induction false} EntryStays(steps: seq<Step>, more: seq<Step>, m: string)
    requires forall step :: step in steps + more ==> KeyedStep(step)
    requires m in LedgerMap(Run(Initial(), steps).world.ledger)
    ensures var before, after := LedgerMap(Run(Initial(), steps).world.ledger), LedgerMap(Run(Initial(), steps + more).world.ledger);
      m in after && after[m] == before[m]
  {
    if more == [] {
      assert steps + more == steps;
    } else {
      var n := |more| - 1;
      assert (steps + more)[..|steps + more| - 1] == steps + more[..n];
      assert forall step :: step in steps + more[..n] ==> step in steps + more;
      EntryStays(steps, more[..n], m);
      InvHolds(steps + more[..n]);
      EntryStaysStep(Run(Initial(), steps + more[..n]), more[n], m);
    }
  }

  lemma EntryStaysStep(s: State, step: Step, m: string)
    requires Inv(s) && m in LedgerMap(s.world.ledger)
    ensures m in LedgerMap(Next(s, step).world.ledger) && LedgerMap(Next(s, step).world.ledger)[m] == LedgerMap(s.world.ledger)[m]
  {
    if step.Go? && s.phase.Drafted? {
      NextAppend(s, step.id);
      var task := Tasks(s.phase.data)[s.phase.done];
      var longer := s.world.ledger + [Row(task.mnem, s.phase.id, task.title)];
      assert longer[..|s.world.ledger|] == s.world.ledger;
    }
  }

  /** Every endpoint with the own prefix is a mnemonic of the data file. */
  predicate OwnEnds(data: Data, prefix: string, e: Edge) {
    && (PrefixOf(e.from) == Some(prefix) ==> OwnMnemonic(data, prefix, e.from))
    && (PrefixOf(e.to) == Some(prefix) ==> OwnMnemonic(data, prefix, e.to))
  }

  lemma ResolvesAgain(steps: seq<Step>, more: seq<Step>, m: string, prefix: string, cross: Maps)
    requires forall step :: step in steps + more ==> KeyedStep(step)
    requires var s, t := Run(Initial(), steps), Run(Initial(), steps + more);
      AtEdges(s) && t.phase.Working? && (PrefixOf(m) == Some(prefix) ==> OwnMnemonic(s.phase.data, prefix, m))
    ensures var s, t := Run(Initial(), steps), Run(Initial(), steps + more);
      Resolve(m, prefix, t.phase.own, cross) == Resolve(m, prefix, s.phase.own, cross)
  {
    assert forall step :: step in steps ==> step in steps + more;
    InvHolds(steps);
    InvHolds(steps + more);
    if PrefixOf(m) == Some(prefix) {
      OwnMnemonicResolves(steps, m, prefix, cross);
      PrefixedIsIntra(m, prefix);
      EntryStays(steps, more, m);
    }
  }

  /** A later run, on any data file and after any further kills, that comes to the same
      edges asks for the same dependencies in the same order. */
  lemma {:induction false} SameAskedAgain(steps: seq<Step>, more: seq<Step>, edges: seq<Edge>, prefix: string, cross: Maps,
                                         accepts: (string, string) -> bool, accepts': (string, string) -> bool)
    requires forall step :: step in steps + more ==> KeyedStep(step)
    requires var s, t := Run(Initial(), steps), Run(Initial(), steps + more);
      AtEdges(s) && t.phase.Working? && forall e :: e in edges ==> OwnEnds(s.phase.data, prefix, e)
    ensures var s, t := Run(Initial(), steps), Run(Initial(), steps + more);
      AskedFor(edges, Handler(prefix, t.phase.own, cross, accepts')) == AskedFor(edges, Handler(prefix, s.phase.own, cross, accepts))
  {
    if edges != [] {
      var n := |edges| - 1;
      SameAskedAgain(steps, more, edges[..n], prefix, cross, accepts, accepts');
      assert edges[n] in edges;
      AskedOnceMore(steps, more, edges[n], prefix, cross, accepts, accepts');
    }
  }

  lemma AskedOnceMore(steps: seq<Step>, more: seq<Step>, e: Edge, prefix: string, cross: Maps,
                      accepts: (string, string) -> bool, accepts': (string, string) -> bool)
    requires forall step :: step in steps + more ==> KeyedStep(step)
    requires var s, t := Run(Initial(), steps), Run(Initial(), steps + more);
      AtEdges(s) && t.phase.Working? && OwnEnds(s.phase.data, prefix, e)
    ensures var s, t := Run(Initial(), steps), Run(Initial(), steps + more);
      HandleEdge(e, prefix, t.phase.own, cross, accepts').asked == HandleEdge(e, prefix, s.phase.own, cross, accepts).asked
  {
    ResolvesAgain(steps, more, e.from, prefix, cross);
    ResolvesAgain(steps, more, e.to, prefix, cross);
  }

  // ---- Edges, told from their texts ----

  /** The mnemonic is the word, a '-' or '.', and anything. */
  predicate Splits(mnem: string, word: string) {
    && word != "" && Lower(word[0]) && (forall i :: 0 <= i < |word| ==> LowerOrDigit(word[i]))
    && |word| < |mnem| && word <= mnem && mnem[|word|] in ['-', '.']
  }

  /** A mnemonic has a prefix exactly when it splits so, and then that word. */
  lemma PrefixExactly(mnem: string, word: string)
    ensures PrefixOf(mnem) == Some(word) <==> Splits(mnem, word)
  {
    if Splits(mnem, word) {
      assert mnem == word + [mnem[|word|]] + mnem[|word| + 1..];
      PrefixIsTheSplit(word, mnem[|word|], mnem[|word| + 1..]);
    }
    if PrefixOf(mnem) == Some(word) {
      assert forall i :: 0 <= i < |word| ==> word[i] == mnem[i];
    }
  }

  /** What an endpoint resolves to: the id that the one map for its prefix has. */
  ghost predicate Finds(mnem: string, prefix: string, own: map<string, string>, cross: Maps, id: string) {
    exists word :: Splits(mnem, word) && FoundUnder(mnem, word, prefix, own, cross, id)
  }

  predicate FoundUnder(mnem: string, word: string, prefix: string, own: map<string, string>, cross: Maps, id: string) {
    if word == prefix then mnem in own && own[mnem] == id else word in cross && mnem in cross[word] && cross[word][mnem] == id
  }

  lemma FindsIs(mnem: string, prefix: string, own: map<string, string>, cross: Maps, id: string)
    ensures Resolve(mnem, prefix, own, cross) == Id(id) <==> Finds(mnem, prefix, own, cross, id)
    ensures Resolve(mnem, prefix, own, cross) == Refused(ForwardDeferred) <==> "forward:" <= mnem
  {
    if word :| Splits(mnem, word) && FoundUnder(mnem, word, prefix, own, cross, id) {
      SplitResolves(mnem, word, prefix, own, cross, id);
    }
    if PrefixOf(mnem).Some? {
      var word := PrefixOf(mnem).value;
      PrefixExactly(mnem, word);
      SplitResolves(mnem, word, prefix, own, cross, id);
    }
  }

  lemma SplitResolves(mnem: string, word: string, prefix: string, own: map<string, string>, cross: Maps, id: string)
    requires Splits(mnem, word)
    ensures Resolve(mnem, prefix, own, cross) == Id(id) <==> FoundUnder(mnem, word, prefix, own, cross, id)
    ensures !("forward:" <= mnem)
  {
    assert mnem == word + [mnem[|word|]] + mnem[|word| + 1..];
    ResolvesExactly(word, mnem[|word|], mnem[|word| + 1..], prefix, own, cross, id);
    NotForward(word, mnem[|word|], mnem[|word| + 1..]);
  }

  /** The edge waits for a later file: its source resolves, its target is a forward
      reference. */
  ghost predicate Waits(e: Edge, prefix: string, own: map<string, string>, cross: Maps) {
    (exists id :: Finds(e.from, prefix, own, cross, id)) && "forward:" <= e.to
  }

  /** Both ends resolve, to these beads. */
  ghost predicate Links(e: Edge, prefix: string, own: map<string, string>, cross: Maps, from: string, to: string) {
    Finds(e.from, prefix, own, cross, from) && Finds(e.to, prefix, own, cross, to)
  }

  /** What the loop does with an edge: a waiting one is deferred, a linked one is asked
      for and accepted or rejected by the issue store, any other is rejected. */
  lemma FateOf(e: Edge, prefix: string, own: map<string, string>, cross: Maps, accepts: (string, string) -> bool)
    ensures var h := HandleEdge(e, prefix, own, cross, accepts);
      && (h.fate.Deferred? <==> Waits(e, prefix, own, cross))
      && (forall from, to :: h.asked == Some((from, to)) <==> Links(e, prefix, own, cross, from, to))
      && (h.asked.Some? ==> h.fate == if accepts(h.asked.value.0, h.asked.value.1) then Accepted else Rejected)
      && (h.asked.None? ==> !h.fate.Accepted?)
  {
    var f, t := Resolve(e.from, prefix, own, cross), Resolve(e.to, prefix, own, cross);
    forall id ensures f == Id(id) <==> Finds(e.from, prefix, own, cross, id) {
      FindsIs(e.from, prefix, own, cross, id);
    }
    forall id ensures t == Id(id) <==> Finds(e.to, prefix, own, cross, id) {
      FindsIs(e.to, prefix, own, cross, id);
    }
    FindsIs(e.to, prefix, own, cross, "");
    if f.Id? {
      assert Finds(e.from, prefix, own, cross, f.id);
    }
  }

  /** Over a whole file: the deferred edges are counted, the rejected ones listed, and
      the asked dependencies are those of the linked edges, in file order. */
  lemma {:induction false} EdgesHandled(edges: seq<Edge>, prefix: string, own: map<string, string>, cross: Maps, accepts: (string, string) -> bool)
    ensures var handle := Handler(prefix, own, cross, accepts);
      && (CountFate(edges, handle, Deferred) == 0 <==> forall e :: e in edges ==> !Waits(e, prefix, own, cross))
      && (forall from, to :: (from, to) in AskedFor(edges, handle) <==> exists e :: e in edges && Links(e, prefix, own, cross, from, to))
      && (forall e :: e in RejectedOf(edges, handle) <==>
           e in edges && !Waits(e, prefix, own, cross) && !(exists from, to :: Links(e, prefix, own, cross, from, to) && accepts(from, to)))
  {
    if edges != [] {
      var n := |edges| - 1;
      EdgesHandled(edges[..n], prefix, own, cross, accepts);
      assert edges == edges[..n] + [edges[n]];
      FateOf(edges[n], prefix, own, cross, accepts);
      OneMoreEdge(edges, prefix, own, cross, accepts);
    }
  }

  lemma OneMoreEdge(edges: seq<Edge>, prefix: string, own: map<string, string>, cross: Maps, accepts: (string, string) -> bool)
    requires edges != []
    ensures var handle, n := Handler(prefix, own, cross, accepts), |edges| - 1; var h := handle(edges[n]);
      && CountFate(edges, handle, Deferred) == CountFate(edges[..n], handle, Deferred) + (if h.fate.Deferred? then 1 else 0)
      && (forall p :: p in AskedFor(edges, handle) <==> p in AskedFor(edges[..n], handle) || h.asked == Some(p))
      && (forall e :: e in RejectedOf(edges, handle) <==> e in RejectedOf(edges[..n], handle) || (e == edges[n] && h.fate.Rejected?))
      && h == HandleEdge(edges[n], prefix, own, cross, accepts)
  {
  }
}
