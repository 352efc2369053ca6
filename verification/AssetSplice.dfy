/** The marker regions of the AGENTS router and the TIER header of the context
    files: the two places where a sync edits part of a file. */
module AssetSplice {
  import opened Results

  datatype Region = Region(start: nat, end: nat)

  /** The texts that open and close a region. */
  datatype MarkerPair = MarkerPair(open: string, close: string)

  type Markers = m: MarkerPair | m.open != "" && m.close != "" witness MarkerPair("<", ">")

  const MANAGED := MarkerPair("<!-- BEGIN harmonik:managed", "<!-- END harmonik:managed -->")
  const TIER := MarkerPair("<!-- TIER:", "-->")

  predicate At(s: string, sub: string, k: nat) {
    k + |sub| <= |s| && s[k..k + |sub|] == sub
  }

  /** The first place at or after i where sub occurs, or -1. */
  function Find(s: string, sub: string, i: nat): (r: int)
    requires i <= |s|
    ensures r == -1 || (i <= r && At(s, sub, r))
    decreases |s| - i
  {
    if At(s, sub, i) then i
    else if i == |s| then -1
    else Find(s, sub, i + 1)
  }

  lemma {:induction false} FindFirst(s: string, sub: string, i: nat, k: nat)
    requires i <= k && At(s, sub, k)
    ensures i <= Find(s, sub, i) <= k
    decreases k - i
  {
    if !At(s, sub, i) {
      FindFirst(s, sub, i + 1, k);
    }
  }

  // ---- Marker regions ----

  /** A text as the region scan sees it: text outside, region, text outside, ...
      Broken stands for a region that is opened and never closed. */
  datatype Layout = Broken | Tail(text: string) | Part(out: string, body: string, rest: Layout)

  /** Where a region ends, given the place of its end marker: a newline right
      after the marker belongs to the region. */
  function BodyEnd(mk: Markers, s: string, e: nat): (n: nat)
    requires e + |mk.close| <= |s|
    ensures e < n <= |s|
  {
    var n := e + |mk.close|;
    if n < |s| && s[n] == '\n' then n + 1 else n
  }

  /** The layout of s from position i on. */
  function Parse(mk: Markers, s: string, i: nat): Layout
    requires i <= |s|
    decreases |s| - i
  {
    var b := Find(s, mk.open, i);
    if b < 0 then Tail(s[i..])
    else
      var e := Find(s, mk.close, b);
      if e < 0 then Broken
      else
        var n := BodyEnd(mk, s, e);
        Part(s[i..b], s[b..n], Parse(mk, s, n))
  }

  predicate Closed(l: Layout) {
    match l
    case Broken => false
    case Tail(_) => true
    case Part(_, _, rest) => Closed(rest)
  }

  function Count(l: Layout): nat {
    if l.Part? then 1 + Count(l.rest) else 0
  }

  function Drop(l: Layout, i: nat): Layout
    requires i <= Count(l)
  {
    if i == 0 then l else Drop(l.rest, i - 1)
  }

  function Spans(l: Layout, offset: nat): (r: seq<Region>)
    ensures |r| == Count(l)
  {
    if !l.Part? then []
    else
      var start := offset + |l.out|;
      [Region(start, start + |l.body|)] + Spans(l.rest, start + |l.body|)
  }

  function Regions(mk: Markers, s: string): seq<Region> {
    if Closed(Parse(mk, s, 0)) then Spans(Parse(mk, s, 0), 0) else []
  }

  /** The current layout's outside text around the template layout's regions. */
  function Weave(current: Layout, template: Layout): string
    requires Closed(current) && Closed(template) && Count(current) == Count(template)
  {
    if current.Tail? then current.text
    else current.out + template.body + Weave(current.rest, template.rest)
  }

  /** The rest of the scan, `here`, against the whole layout. */
  ghost predicate ScanAt(whole: Layout, here: Layout, idx: nat, found: seq<Region>) {
    && (Closed(whole) <==> Closed(here))
    && Spans(whole, 0) == found + Spans(here, idx)
  }

  lemma ScanStep(whole: Layout, here: Layout, idx: nat, found: seq<Region>, start: nat, end: nat)
    requires ScanAt(whole, here, idx, found) && here.Part?
    requires start == idx + |here.out| && end == start + |here.body|
    ensures ScanAt(whole, here.rest, end, found + [Region(start, end)])
  {
    assert found + ([Region(start, end)] + Spans(here.rest, end)) == found + [Region(start, end)] + Spans(here.rest, end);
  }

  /** The part that the scan finds at idx, by the positions of its markers. */
  lemma PartIs(mk: Markers, s: string, idx: nat, bstart: nat, e: nat, eend: nat)
    requires idx <= |s| && bstart == Find(s, mk.open, idx)
    requires bstart <= |s| && e == Find(s, mk.close, bstart)
    requires eend == BodyEnd(mk, s, e)
    ensures idx <= bstart < eend <= |s|
    ensures Parse(mk, s, idx) == Part(s[idx..bstart], s[bstart..eend], Parse(mk, s, eend))
  {
  }

  method FindManagedRegions(mk: Markers, s: string) returns (regions: seq<Region>)
    ensures regions == Regions(mk, s)
  {
    regions := [];
    var idx := 0;
    ghost var whole, here := Parse(mk, s, 0), Parse(mk, s, 0);
    while true
      invariant idx <= |s| && here == Parse(mk, s, idx) && ScanAt(whole, here, idx, regions)
      decreases |s| - idx
    {
      var bstart := Find(s, mk.open, idx);
      if bstart < 0 {
        break;
      }
      var e := Find(s, mk.close, bstart);
      if e < 0 {
        return [];
      }
      var eend := BodyEnd(mk, s, e);
      PartIs(mk, s, idx, bstart, e, eend);
      ScanStep(whole, here, idx, regions, bstart, eend);
      regions := regions + [Region(bstart, eend)];
      here := here.rest;
      idx := eend;
    }
  }

  /** The result that splicing has: None when the regions do not line up. */
  function Spliced(mk: Markers, current: string, template: string): Option<string> {
    var c, t := Parse(mk, current, 0), Parse(mk, template, 0);
    if Closed(c) && Closed(t) && Count(c) == Count(t) && Count(c) != 0 then Some(Weave(c, t)) else None
  }

  /** A closed layout spells its text out. */
  function Whole(l: Layout): string
    requires Closed(l)
  {
    if l.Tail? then l.text else l.out + l.body + Whole(l.rest)
  }

  lemma {:induction false} ParseWhole(mk: Markers, s: string, i: nat)
    requires i <= |s| && Closed(Parse(mk, s, i))
    ensures Whole(Parse(mk, s, i)) == s[i..]
    decreases |s| - i
  {
    var l := Parse(mk, s, i);
    if l.Part? {
      var b := Find(s, mk.open, i);
      var e := Find(s, mk.close, b);
      var n := BodyEnd(mk, s, e);
      PartIs(mk, s, i, b, e, n);
      ParseWhole(mk, s, n);
      ThreeParts(s, i, b, n);
    }
  }

  lemma ThreeParts(s: string, i: nat, b: nat, n: nat)
    requires i <= b <= n <= |s|
    ensures s[i..] == s[i..b] + s[b..n] + s[n..]
  {
  }

  /** Where the i-th part starts. */
  function Start(l: Layout, i: nat): nat
    requires i <= Count(l)
  {
    if i == 0 then 0 else |l.out| + |l.body| + Start(l.rest, i - 1)
  }

  lemma {:induction false} DropClosed(l: Layout, i: nat)
    requires Closed(l) && i <= Count(l)
    ensures Closed(Drop(l, i)) && Count(Drop(l, i)) == Count(l) - i
    ensures Start(l, i) <= |Whole(l)| && Whole(l)[Start(l, i)..] == Whole(Drop(l, i))
  {
    if i == 0 {
      assert Whole(l)[0..] == Whole(l);
    } else {
      DropClosed(l.rest, i - 1);
      var n := |l.out| + |l.body|;
      assert Whole(l)[n..] == Whole(l.rest);
      assert Whole(l)[Start(l, i)..] == Whole(l)[n..][Start(l.rest, i - 1)..];
    }
  }

  lemma {:induction false} StartStep(l: Layout, i: nat, offset: nat)
    requires i < Count(l)
    ensures Drop(l, i).Part? && Drop(l, i).rest == Drop(l, i + 1)
    ensures Start(l, i + 1) == Start(l, i) + |Drop(l, i).out| + |Drop(l, i).body|
    ensures Spans(l, offset)[i] == Region(offset + Start(l, i) + |Drop(l, i).out|, offset + Start(l, i + 1))
  {
    if i > 0 {
      StartStep(l.rest, i - 1, offset + |l.out| + |l.body|);
    }
  }

  /** The i-th part's pieces, by position in the whole text. */
  lemma PieceAt(l: Layout, i: nat, s: string)
    requires Closed(l) && i < Count(l) && s == Whole(l)
    ensures Drop(l, i).Part?
    ensures var start, p := Start(l, i), Drop(l, i);
      && Start(l, i + 1) == start + |p.out| + |p.body| <= |s|
      && s[start..start + |p.out|] == p.out
      && s[start + |p.out|..Start(l, i + 1)] == p.body
  {
    StartStep(l, i, 0);
    DropClosed(l, i);
    DropClosed(l, i + 1);
    var start, p := Start(l, i), Drop(l, i);
    assert s[start..] == p.out + p.body + Whole(p.rest);
    assert s[start..start + |p.out|] == s[start..][..|p.out|];
    assert s[start + |p.out|..Start(l, i + 1)] == s[start..][|p.out|..|p.out| + |p.body|];
  }

  /** From the i-th part on, merged is already woven; before it, it is current. */
  ghost predicate SplicedFrom(c: Layout, t: Layout, i: nat, current: string, merged: string)
    requires i <= Count(c) == Count(t)
  {
    && Closed(Drop(c, i)) && Closed(Drop(t, i)) && Count(Drop(c, i)) == Count(Drop(t, i))
    && Start(c, i) <= |current|
    && merged == current[..Start(c, i)] + Weave(Drop(c, i), Drop(t, i))
  }

  lemma SpliceStep(current: string, template: string, c: Layout, t: Layout, i: nat, merged: string)
    requires Closed(c) && Closed(t) && current == Whole(c) && template == Whole(t)
    requires i < Count(c) == Count(t) && SplicedFrom(c, t, i + 1, current, merged)
    ensures var x, y := Spans(c, 0)[i], Spans(t, 0)[i];
      && x.start <= x.end <= |merged| && y.start <= y.end <= |template|
      && SplicedFrom(c, t, i, current, merged[..x.start] + template[y.start..y.end] + merged[x.end..])
  {
    RegionAt(c, i, current);
    RegionAt(t, i, template);
    var p, q := Drop(c, i), Drop(t, i);
    WovenStep(current, Start(c, i), p.out, p.body, q.body, Weave(p.rest, q.rest));
  }

  /** The i-th region, by its span in the whole text. */
  lemma RegionAt(l: Layout, i: nat, s: string)
    requires Closed(l) && i < Count(l) && s == Whole(l)
    ensures Drop(l, i).Part? && Closed(Drop(l, i)) && Count(Drop(l, i)) == Count(l) - i
    ensures var start, p, x := Start(l, i), Drop(l, i), Spans(l, 0)[i];
      && p.rest == Drop(l, i + 1) && x.start == start + |p.out| && x.end == start + |p.out| + |p.body| == Start(l, i + 1)
      && x.end <= |s| && s[start..x.start] == p.out && s[x.start..x.end] == p.body
  {
    DropClosed(l, i);
    StartStep(l, i, 0);
    PieceAt(l, i, s);
  }

  lemma WovenStep(current: string, start: nat, out: string, old_: string, new_: string, woven: string)
    requires start + |out| + |old_| <= |current| && current[start..start + |out|] == out
    ensures var merged := current[..start + |out| + |old_|] + woven;
      merged[..start + |out|] + new_ + merged[start + |out| + |old_|..] == current[..start] + (out + new_ + woven)
  {
    var merged := current[..start + |out| + |old_|] + woven;
    assert merged[..start + |out|] == current[..start] + out;
    assert merged[start + |out| + |old_|..] == woven;
  }

  /** Regions are replaced from the last to the first, so that the positions found
      in the current text stay right. */
  method SpliceManagedRegions(mk: Markers, current: string, template: string) returns (merged: string, ok: bool)
    ensures ok <==> Spliced(mk, current, template).Some?
    ensures merged == if ok then Spliced(mk, current, template).value else current
  {
    var curRegions := FindManagedRegions(mk, current);
    var tplRegions := FindManagedRegions(mk, template);
    if |curRegions| == 0 || |tplRegions| == 0 {
      return current, false;
    }
    if |curRegions| != |tplRegions| {
      return current, false;
    }
    ghost var c, t := Parse(mk, current, 0), Parse(mk, template, 0);
    ParseWhole(mk, current, 0);
    ParseWhole(mk, template, 0);
    merged := SpliceAll(current, template, c, t, curRegions, tplRegions);
    ok := true;
  }

  method SpliceAll(current: string, template: string, ghost c: Layout, ghost t: Layout, curRegions: seq<Region>, tplRegions: seq<Region>)
    returns (merged: string)
    requires Closed(c) && Closed(t) && current == Whole(c) && template == Whole(t) && Count(c) == Count(t)
    requires curRegions == Spans(c, 0) && tplRegions == Spans(t, 0)
    ensures merged == Weave(c, t)
  {
    merged := current;
    var i := |curRegions|;
    DropClosed(c, i);
    DropClosed(t, i);
    assert current == current[..Start(c, i)] + current[Start(c, i)..];
    while i > 0
      invariant 0 <= i <= Count(c)
      invariant SplicedFrom(c, t, i, current, merged)
    {
      i := i - 1;
      SpliceStep(current, template, c, t, i, merged);
      merged := merged[..curRegions[i].start] + template[tplRegions[i].start..tplRegions[i].end] + merged[curRegions[i].end..];
    }
    assert current[..0] + Weave(c, t) == Weave(c, t);
  }

  // ---- Splicing again ----

  /** What the scan relies on: the opening text cannot overlap itself or the closing
      text, and neither starts or ends with a line break. */
  predicate Distinct(mk: Markers) {
    && (forall j :: 1 <= j < |mk.open| ==> mk.open[j] != mk.open[0] && mk.open[j] != mk.close[0])
    && !(mk.open <= mk.close) && !(mk.close <= mk.open)
    && mk.open[0] != '\n' && mk.close[|mk.close| - 1] != '\n'
  }

  predicate Ends(body: string) {
    body != "" && body[|body| - 1] == '\n'
  }

  predicate IsBody(mk: Markers, body: string) {
    var e := Find(body, mk.close, 0);
    mk.open <= body && e >= 0 && |body| == e + |mk.close| + if Ends(body) then 1 else 0
  }

  ghost predicate Without(s: string, sub: string) {
    forall k: nat :: !At(s, sub, k)
  }

  /** The layouts that closed texts have. */
  ghost predicate Parsed(mk: Markers, l: Layout) {
    match l
    case Broken => false
    case Tail(text) => Without(text, mk.open)
    case Part(out, body, rest) => Without(out, mk.open) && IsBody(mk, body) && Parsed(mk, rest)
  }

  lemma SliceOfSlice(s: string, from: nat, to: nat, i: nat, j: nat)
    requires from <= to <= |s| && i <= j <= to - from
    ensures s[from..to][i..j] == s[from + i..from + j]
  {
    assert forall k :: 0 <= k < j - i ==> s[from..to][i..j][k] == s[from + i + k];
  }

  lemma AtWithin(s: string, sub: string, from: nat, to: nat, k: nat)
    requires from <= to <= |s| && k + |sub| <= to - from
    ensures At(s[from..to], sub, k) <==> At(s, sub, from + k)
  {
    if k + |sub| <= to - from {
      SliceOfSlice(s, from, to, k, k + |sub|);
    }
  }

  lemma FindIs(s: string, sub: string, i: nat, r: nat)
    requires i <= r && At(s, sub, r)
    requires forall k: nat :: i <= k < r ==> !At(s, sub, k)
    ensures Find(s, sub, i) == r
  {
    FindFirst(s, sub, i, r);
  }

  lemma OutIsWithout(s: string, sub: string, i: nat, b: nat)
    requires i <= b <= |s| && forall k: nat :: i <= k < b && k + |sub| <= b ==> !At(s, sub, k)
    ensures Without(s[i..b], sub)
    requires sub != ""
  {
    forall k: nat ensures !At(s[i..b], sub, k) {
      if k + |sub| <= b - i {
        AtWithin(s, sub, i, b, k);
      }
    }
  }

  lemma {:induction false} NotBefore(s: string, sub: string, i: nat, k: nat)
    requires i <= k < |s| && (Find(s, sub, i) < 0 || k < Find(s, sub, i))
    ensures !At(s, sub, k)
  {
    if At(s, sub, k) {
      FindFirst(s, sub, i, k);
    }
  }

  lemma BodyIsBody(mk: Markers, s: string, b: nat, e: nat)
    requires Distinct(mk) && At(s, mk.open, b) && e == Find(s, mk.close, b)
    ensures IsBody(mk, s[b..BodyEnd(mk, s, e)])
  {
    OpenBeforeClose(mk, s, b, e);
    forall k: nat | b <= k < e ensures !At(s, mk.close, k) {
      NotBefore(s, mk.close, b, k);
    }
    SliceIsBody(mk, s, b, e, BodyEnd(mk, s, e));
  }

  lemma SliceIsBody(mk: Markers, s: string, b: nat, e: nat, n: nat)
    requires Distinct(mk) && At(s, mk.open, b) && b + |mk.open| <= e && At(s, mk.close, e)
    requires forall k: nat :: b <= k < e ==> !At(s, mk.close, k)
    requires n <= |s| && (n == e + |mk.close| || (n == e + |mk.close| + 1 && s[n - 1] == '\n'))
    ensures IsBody(mk, s[b..n])
  {
    var body := s[b..n];
    SliceOfSlice(s, b, n, 0, |mk.open|);
    AtWithin(s, mk.close, b, n, e - b);
    NoneBefore(mk.close, s, b, n, e);
    AtLast(s, mk.close, e);
    assert body[|body| - 1] == s[n - 1];
    BodyIs(mk, body, e - b);
  }

  lemma NoneBefore(sub: string, s: string, b: nat, n: nat, e: nat)
    requires b <= e && e + |sub| <= n <= |s| && forall k: nat :: b <= k < e ==> !At(s, sub, k)
    ensures forall k: nat :: 0 <= k < e - b ==> !At(s[b..n], sub, k)
  {
    forall k: nat | 0 <= k < e - b ensures !At(s[b..n], sub, k) {
      AtWithin(s, sub, b, n, k);
    }
  }

  lemma BodyIs(mk: Markers, body: string, e: nat)
    requires mk.open <= body && At(body, mk.close, e) && forall k: nat :: 0 <= k < e ==> !At(body, mk.close, k)
    requires |body| == e + |mk.close| + if Ends(body) then 1 else 0
    ensures IsBody(mk, body)
  {
    FindIs(body, mk.close, 0, e);
  }

  lemma AtLast(s: string, sub: string, k: nat)
    requires At(s, sub, k) && sub != ""
    ensures s[k + |sub| - 1] == sub[|sub| - 1]
  {
    assert s[k + |sub| - 1] == s[k..k + |sub|][|sub| - 1];
  }

  lemma AtFirst(s: string, sub: string, k: nat)
    requires At(s, sub, k) && sub != ""
    ensures s[k] == sub[0]
  {
    assert s[k] == s[k..k + |sub|][0];
  }

  lemma SameStart(s: string, a: string, b: string, k: nat)
    requires At(s, a, k) && At(s, b, k)
    ensures a <= b || b <= a
  {
    if |a| <= |b| {
      assert s[k..k + |a|] == s[k..k + |b|][..|a|];
    } else {
      assert s[k..k + |b|] == s[k..k + |a|][..|b|];
    }
  }

  lemma OpenBeforeClose(mk: Markers, s: string, b: nat, e: nat)
    requires Distinct(mk) && At(s, mk.open, b) && b <= e && At(s, mk.close, e)
    ensures b + |mk.open| <= e
  {
    AtFirst(s, mk.close, e);
    assert forall j :: 0 <= j < |mk.open| ==> s[b + j] == s[b..b + |mk.open|][j] == mk.open[j];
    if e == b {
      SameStart(s, mk.open, mk.close, b);
    }
  }

  lemma {:induction false} ParseParsed(mk: Markers, s: string, i: nat)
    requires Distinct(mk) && i <= |s| && Closed(Parse(mk, s, i))
    ensures Parsed(mk, Parse(mk, s, i))
    decreases |s| - i
  {
    var b := Find(s, mk.open, i);
    var end := if b < 0 then |s| else b;
    forall k: nat | i <= k < end && k + |mk.open| <= end ensures !At(s, mk.open, k) {
      NotBefore(s, mk.open, i, k);
    }
    OutIsWithout(s, mk.open, i, end);
    if b < 0 {
      assert s[i..] == s[i..end];
    } else {
      var e := Find(s, mk.close, b);
      BodyIsBody(mk, s, b, e);
      ParseParsed(mk, s, BodyEnd(mk, s, e));
    }
  }

  /** A region swallows the line break after it when it has none of its own. */
  predicate Eats(body: string, next: string) {
    !Ends(body) && next != "" && next[0] == '\n'
  }

  /** A layout without the first character of its text. */
  function Trim(l: Layout): Layout {
    match l
    case Broken => l
    case Tail(text) => Tail(if text == "" then "" else text[1..])
    case Part(out, body, rest) => Part(if out == "" then "" else out[1..], body, rest)
  }

  /** The layout of a woven text. */
  function Reparsed(c: Layout, t: Layout): (l: Layout)
    requires Closed(c) && Closed(t) && Count(c) == Count(t)
    ensures Closed(l) && Count(l) == Count(c)
  {
    if c.Tail? then c
    else
      var rest := Reparsed(c.rest, t.rest);
      if Eats(t.body, Weave(c.rest, t.rest)) then Part(c.out, t.body + "\n", Trim(rest))
      else Part(c.out, t.body, rest)
  }

  /** How many line breaks of the project's text regions swallow in a woven text. */
  function Eaten(c: Layout, t: Layout): nat
    requires Closed(c) && Closed(t) && Count(c) == Count(t)
  {
    if c.Tail? then 0
    else Eaten(c.rest, t.rest) + if Eats(t.body, Weave(c.rest, t.rest)) then 1 else 0
  }

  lemma {:induction false} FindShift(p: string, w: string, sub: string, i: nat)
    requires i <= |w|
    ensures Find(p + w, sub, |p| + i) == if Find(w, sub, i) < 0 then -1 else |p| + Find(w, sub, i)
    decreases |w| - i
  {
    assert (p + w)[|p|..|p| + |w|] == w;
    if i + |sub| <= |w| {
      AtWithin(p + w, sub, |p|, |p| + |w|, i);
    }
    if !At(w, sub, i) && i < |w| {
      FindShift(p, w, sub, i + 1);
    }
  }

  lemma FindShifted(p: string, w: string, s: string, sub: string, i: nat, i': nat)
    requires s == p + w && i <= |w| && i' == |p| + i
    ensures Find(s, sub, i') == if Find(w, sub, i) < 0 then -1 else |p| + Find(w, sub, i)
  {
    FindShift(p, w, sub, i);
  }

  lemma {:induction false} ParseShift(mk: Markers, p: string, w: string, s: string, i: nat, i': nat)
    requires s == p + w && i <= |w| && i' == |p| + i
    ensures Parse(mk, s, i') == Parse(mk, w, i)
    decreases |w| - i
  {
    var b, b' := Find(w, mk.open, i), Find(s, mk.open, i');
    FindShifted(p, w, s, mk.open, i, i');
    if b < 0 {
      assert s[i'..] == w[i..];
    } else {
      FindShifted(p, w, s, mk.close, b, b');
      var e, e' := Find(w, mk.close, b), Find(s, mk.close, b');
      if e >= 0 {
        var n, n' := BodyEnd(mk, w, e), BodyEnd(mk, s, e');
        BodyEndShift(mk, p, w, s, e, e');
        ParseShift(mk, p, w, s, n, n');
        SliceShift(p, w, s, i, b, i', b');
        SliceShift(p, w, s, b, n, b', n');
        SamePart(mk, w, i, b, e, n, s, i', b', e', n');
      }
    }
  }

  lemma SamePart(mk: Markers, w: string, i: nat, b: nat, e: nat, n: nat, s: string, i': nat, b': nat, e': nat, n': nat)
    requires i <= |w| && b <= |w| && b == Find(w, mk.open, i) && e == Find(w, mk.close, b) && n == BodyEnd(mk, w, e)
    requires i' <= |s| && b' <= |s| && b' == Find(s, mk.open, i') && e' == Find(s, mk.close, b') && n' == BodyEnd(mk, s, e')
    requires s[i'..b'] == w[i..b] && s[b'..n'] == w[b..n] && Parse(mk, s, n') == Parse(mk, w, n)
    ensures Parse(mk, s, i') == Parse(mk, w, i)
  {
    PartIs(mk, w, i, b, e, n);
    PartIs(mk, s, i', b', e', n');
  }

  lemma SliceShift(p: string, w: string, s: string, i: nat, j: nat, i': nat, j': nat)
    requires s == p + w && i <= j <= |w| && i' == |p| + i && j' == |p| + j
    ensures s[i'..j'] == w[i..j]
  {
  }

  lemma BodyEndShift(mk: Markers, p: string, w: string, s: string, e: nat, e': nat)
    requires s == p + w && e + |mk.close| <= |w| && e' == |p| + e
    ensures BodyEnd(mk, s, e') == |p| + BodyEnd(mk, w, e)
  {
  }

  lemma ParseTrim(mk: Markers, w: string)
    requires mk.open[0] != '\n' && w != "" && w[0] == '\n'
    ensures Parse(mk, w, 1) == Trim(Parse(mk, w, 0))
  {
    if At(w, mk.open, 0) {
      AtFirst(w, mk.open, 0);
    }
    assert Find(w, mk.open, 0) == Find(w, mk.open, 1);
    var b := Find(w, mk.open, 1);
    if b < 0 {
      assert w[1..] == w[0..][1..];
    } else {
      assert w[1..b] == w[0..b][1..];
    }
  }

  /** An occurrence of a text whose first character does not come again covers no
      other place with that character. */
  lemma NoOverlap(s: string, sub: string, k: nat, p: nat)
    requires sub != "" && forall j :: 1 <= j < |sub| ==> sub[j] != sub[0]
    requires At(s, sub, k) && k <= p < k + |sub| && s[p] == sub[0]
    ensures p == k
  {
    assert s[p] == s[k..k + |sub|][p - k];
  }

  lemma OpensAt(mk: Markers, out: string, body: string, w: string)
    requires Distinct(mk) && Without(out, mk.open) && mk.open <= body
    ensures Find(out + body + w, mk.open, 0) == |out|
  {
    var s, n := out + body + w, |mk.open|;
    assert s[|out|..|out| + |body|] == body && body[0..0 + n] == mk.open;
    AtWithin(s, mk.open, |out|, |out| + |body|, 0);
    AtFirst(s, mk.open, |out|);
    assert s[0..|out|] == out;
    forall k: nat | k < |out| ensures !At(s, mk.open, k) {
      if k + n <= |out| {
        AtWithin(s, mk.open, 0, |out|, k);
      } else if At(s, mk.open, k) {
        NoOverlap(s, mk.open, k, |out|);
      }
    }
    FindIs(s, mk.open, 0, |out|);
  }

  lemma ClosesAt(mk: Markers, out: string, body: string, w: string)
    requires IsBody(mk, body)
    ensures Find(out + body + w, mk.close, |out|) == |out| + Find(body, mk.close, 0)
  {
    var s, e := out + body + w, Find(body, mk.close, 0);
    assert s[|out|..|out| + |body|] == body;
    AtWithin(s, mk.close, |out|, |out| + |body|, e);
    forall k: nat | |out| <= k < |out| + e ensures !At(s, mk.close, k) {
      NotBefore(body, mk.close, 0, k - |out|);
      AtWithin(s, mk.close, |out|, |out| + |body|, k - |out|);
    }
    FindIs(s, mk.close, |out|, |out| + e);
  }

  /** Scanning one part followed by any text. */
  lemma ParseStep(mk: Markers, out: string, body: string, w: string)
    requires Distinct(mk) && Without(out, mk.open) && IsBody(mk, body)
    ensures Parse(mk, out + body + w, 0) ==
      if Eats(body, w) then Part(out, body + "\n", Trim(Parse(mk, w, 0))) else Part(out, body, Parse(mk, w, 0))
  {
    var s, j := out + body + w, |out| + |body| + if Eats(body, w) then 1 else 0;
    OpensAt(mk, out, body, w);
    ClosesAt(mk, out, body, w);
    EndsAt(mk, out, body, w, Find(body, mk.close, 0));
    PartIs(mk, s, 0, |out|, Find(s, mk.close, |out|), j);
    ParseShift(mk, out + body, w, s, j - |out + body|, j);
    PartSplit(s, out, body, w, j);
    if Eats(body, w) {
      ParseTrim(mk, w);
    }
  }

  lemma PartSplit(s: string, out: string, body: string, w: string, j: nat)
    requires s == out + body + w && j == |out| + |body| + if Eats(body, w) then 1 else 0
    ensures s[0..|out|] == out && s[|out|..j] == if Eats(body, w) then body + "\n" else body
  {
    if Eats(body, w) {
      assert w[..1] == "\n";
      assert s[|out|..j] == body + w[..1];
    }
  }

  lemma EndsAt(mk: Markers, out: string, body: string, w: string, e: nat)
    requires |body| == e + |mk.close| + if Ends(body) then 1 else 0
    ensures BodyEnd(mk, out + body + w, |out| + e) == |out| + |body| + if Eats(body, w) then 1 else 0
  {
    NextChar(out + body, w);
    if Ends(body) {
      assert (out + body + w)[|out| + |body| - 1] == body[|body| - 1];
    }
  }

  lemma NextChar(s: string, w: string)
    ensures w != "" ==> (s + w)[|s|] == w[0]
  {
  }

  lemma {:induction false} ParseWoven(mk: Markers, c: Layout, t: Layout)
    requires Distinct(mk) && Parsed(mk, c) && Parsed(mk, t) && Closed(c) && Closed(t) && Count(c) == Count(t)
    ensures Parse(mk, Weave(c, t), 0) == Reparsed(c, t)
  {
    if c.Tail? {
      assert c.text[0..] == c.text;
    } else {
      ParseWoven(mk, c.rest, t.rest);
      ParseStep(mk, c.out, t.body, Weave(c.rest, t.rest));
    }
  }

  lemma {:induction false} ParsedClosed(mk: Markers, l: Layout)
    requires Parsed(mk, l)
    ensures Closed(l)
  {
    if l.Part? {
      ParsedClosed(mk, l.rest);
    }
  }

  function First(l: Layout): string
    requires !l.Broken?
  {
    if l.Tail? then l.text else l.out
  }

  lemma WeaveFirst(mk: Markers, c: Layout, t: Layout)
    requires Distinct(mk) && Closed(c) && Closed(t) && Count(c) == Count(t) && Parsed(mk, t)
    requires Weave(c, t) != "" && Weave(c, t)[0] == '\n'
    ensures First(Reparsed(c, t)) == First(c) != ""
  {
    if c.Part? {
      assert t.body[0] == mk.open[0];
      assert Weave(c, t)[0] == (c.out + t.body)[0];
    }
  }

  lemma WeaveTrim(l: Layout, t: Layout)
    requires Closed(l) && Closed(t) && Count(l) == Count(t) && First(l) != ""
    ensures |Weave(Trim(l), t)| == |Weave(l, t)| - 1
  {
  }

  /** Weaving again drops exactly the swallowed line breaks. */
  lemma {:induction false} Reweave(mk: Markers, c: Layout, t: Layout)
    requires Distinct(mk) && Closed(c) && Closed(t) && Count(c) == Count(t) && Parsed(mk, t)
    ensures |Weave(Reparsed(c, t), t)| + Eaten(c, t) == |Weave(c, t)|
    ensures Eaten(c, t) == 0 ==> Weave(Reparsed(c, t), t) == Weave(c, t)
  {
    if c.Part? {
      Reweave(mk, c.rest, t.rest);
      var rest, w := Reparsed(c.rest, t.rest), Weave(c.rest, t.rest);
      if Eats(t.body, w) {
        WeaveFirst(mk, c.rest, t.rest);
        WeaveTrim(rest, t.rest);
      }
    }
  }

  lemma ManagedDistinct()
    ensures Distinct(MANAGED)
  {
    assert MANAGED.open[5] == 'B' && MANAGED.close[5] == 'E';
  }

  /** A splice keeps the project's text: splicing the same template again changes
      nothing exactly when no region of the template ends without a line break
      just before a line break of the project's. */
  lemma SpliceIdempotentExactly(current: string, template: string)
    requires Spliced(MANAGED, current, template).Some?
    ensures var merged := Spliced(MANAGED, current, template).value;
      && Parse(MANAGED, merged, 0) == Reparsed(Parse(MANAGED, current, 0), Parse(MANAGED, template, 0))
      && (Spliced(MANAGED, merged, template) == Some(merged) <==>
            Eaten(Parse(MANAGED, current, 0), Parse(MANAGED, template, 0)) == 0)
  {
    ManagedDistinct();
    SpliceAgain(MANAGED, current, template);
  }

  lemma SpliceAgain(mk: Markers, current: string, template: string)
    requires Distinct(mk) && Spliced(mk, current, template).Some?
    ensures var merged := Spliced(mk, current, template).value;
      && Parse(mk, merged, 0) == Reparsed(Parse(mk, current, 0), Parse(mk, template, 0))
      && (Spliced(mk, merged, template) == Some(merged) <==>
            Eaten(Parse(mk, current, 0), Parse(mk, template, 0)) == 0)
  {
    var c, t := Parse(mk, current, 0), Parse(mk, template, 0);
    ParseParsed(mk, current, 0);
    ParseParsed(mk, template, 0);
    ParseWoven(mk, c, t);
    Reweave(mk, c, t);
  }

  /** The piece has the outside text of one layout and the region of the other. */
  predicate SamePiece(l: Layout, outside: Layout, inside: Layout) {
    if outside.Part? then l.Part? && inside.Part? && l.out == outside.out && l.body == inside.body
    else l == outside
  }

  /** Where no line break is swallowed, the spliced text has the project's text
      outside the regions and the template's regions. */
  lemma {:induction false} ReparsedWhole(c: Layout, t: Layout, i: nat)
    requires Closed(c) && Closed(t) && Count(c) == Count(t) && Eaten(c, t) == 0 && i <= Count(c)
    ensures Closed(Reparsed(c, t)) && SamePiece(Drop(Reparsed(c, t), i), Drop(c, i), Drop(t, i))
  {
    if i > 0 {
      ReparsedWhole(c.rest, t.rest, i - 1);
    }
  }
}
