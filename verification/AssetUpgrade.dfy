/** What one full sync by a new binary leaves in each installed file, told from the
    texts before it: the new skill, the new header over the project's own body, the
    new regions inside the project's own router. */
module AssetUpgrade {
  import opened Results
  import opened AssetPlan
  import opened AssetDigest
  import opened AssetSplice
  import opened AssetApply
  import opened AssetHistory
  import opened AssetSkew
  import opened AssetAgain
  import opened Texts

  // ---- Where each kind of asset goes ----

  lemma SkillGoes(name: string)
    ensures var p := "assets/skills/" + name; DestFor(p) == Some(".claude/skills/" + name) && Classify(p) == Managed
  {
    RelativeTo("assets/skills/", "skills/", name);
    assert ("skills/" + name)[|"skills/"|..] == name;
  }

  lemma RelativeTo(dir: string, rel: string, name: string)
    requires dir == "assets/" + rel
    ensures Relative(dir + name) == rel + name
  {
    assert dir + name == EMBED_ROOT + "/" + (rel + name);
  }

  /** Context files lose the suffix of a template; the handoff file goes to the root. */
  lemma ContextGoes(name: string)
    ensures Classify("assets/context/" + name) == ContentOwned
    ensures DestFor("assets/context/" + name) ==
      Some(if name == "HANDOFF.md.tmpl" then "HANDOFF.md" else ".harmonik/context/" + TrimSuffix(name, ".tmpl"))
    ensures TrimSuffix(name + ".tmpl", ".tmpl") == name
  {
    RelativeTo("assets/context/", "context/", name);
    var rel := "context/" + name;
    assert rel[0] == 'c' && ROUTER[0] == 't' && rel[|"context/"|..] == name;
    var long := name + ".tmpl";
    assert long[|name|..] == ".tmpl" && long[..|name|] == name;
  }

  lemma ScaffoldGoes(name: string)
    ensures var p := "assets/scaffolds/" + name; DestFor(p) == Some(name) && Classify(p) == Scaffold
  {
    RelativeTo("assets/scaffolds/", "scaffolds/", name);
    var rel := "scaffolds/" + name;
    assert rel[0] == 's' && rel[1] == 'c' && rel[2] == 'a' && ROUTER[0] == 't';
    assert rel[|"scaffolds/"|..] == name;
  }

  lemma RouterGoes()
    ensures ROUTER_PATH == "assets/" + ("templates/" + "AGENTS.template.md")
    ensures DestFor(ROUTER_PATH) == Some("AGENTS.md") && Classify(ROUTER_PATH) == ManagedRegion
  {
    assert ROUTER == "templates/" + "AGENTS.template.md" && ROUTER[0] == 't';
    assert EMBED_ROOT + "/" == "assets/";
    assert ROUTER_PATH == EMBED_ROOT + "/" + ROUTER && Relative(ROUTER_PATH) == ROUTER;
    assert "templates/" <= ROUTER;
  }

  // ---- Places ----

  lemma AtChars(s: string, sub: string, k: nat)
    requires At(s, sub, k)
    ensures forall i :: k <= i < k + |sub| ==> s[i] == sub[i - k]
  {
    assert forall i :: k <= i < k + |sub| ==> s[k..k + |sub|][i - k] == s[i];
  }

  lemma FirstDiffers(s: string, sub: string, k: nat)
    requires sub != "" && k < |s| && s[k] != sub[0]
    ensures !At(s, sub, k)
  {
    if k + |sub| <= |s| {
      assert s[k..k + |sub|][0] == s[k];
    }
  }

  // ---- Rendering ----

  /** The pieces with a text between each two. */
  function Between(pieces: seq<string>, sep: string): string {
    if pieces == [] then ""
    else if |pieces| == 1 then pieces[0]
    else pieces[0] + sep + Between(pieces[1..], sep)
  }

  ghost predicate Pieces(pieces: seq<string>) {
    pieces != [] && forall i :: 0 <= i < |pieces| ==> Without(pieces[i], "$PROJECT_DIR")
  }

  lemma {:induction false} RenderPiece(piece: string, rest: string, dir: string)
    requires Without(piece, PROJECT_DIR) && (rest == "" || PROJECT_DIR <= rest)
    ensures Render(piece + rest, dir) == piece + Render(rest, dir)
    decreases |piece|
  {
    if piece == "" {
      assert piece + rest == rest;
    } else {
      NotAcross(piece, rest);
      assert (piece + rest)[1..] == piece[1..] + rest;
      WithoutTail(piece);
      RenderPiece(piece[1..], rest, dir);
      OneMoreChar(piece, Render(rest, dir));
    }
  }

  lemma OneMoreChar(piece: string, rest: string)
    requires piece != ""
    ensures [piece[0]] + (piece[1..] + rest) == piece + rest
  {
  }

  lemma WithoutTail(piece: string)
    requires piece != "" && Without(piece, PROJECT_DIR)
    ensures Without(piece[1..], PROJECT_DIR)
  {
    forall k: nat ensures !At(piece[1..], PROJECT_DIR, k) {
      if k + |PROJECT_DIR| <= |piece| - 1 {
        AtWithin(piece, PROJECT_DIR, 1, |piece|, k);
      }
    }
  }

  /** No occurrence starts in a piece and runs out of it. */
  lemma NotAcross(piece: string, rest: string)
    requires piece != "" && Without(piece, PROJECT_DIR) && (rest == "" || PROJECT_DIR <= rest)
    ensures !(PROJECT_DIR <= piece + rest)
  {
    var text, n := piece + rest, |PROJECT_DIR|;
    if |piece| >= n {
      assert !At(piece, PROJECT_DIR, 0) && text[..n] == piece[0..0 + n];
    } else if rest != "" {
      assert rest[0] == PROJECT_DIR[0] == '$';
      assert text[|piece|] == rest[0];
      NoSecondDollar(|piece|);
    }
  }

  lemma NoSecondDollar(j: nat)
    requires 0 < j < |PROJECT_DIR|
    ensures PROJECT_DIR[j] != '$'
  {
  }

  lemma RenderStep(piece: string, tail: string, dir: string)
    requires Without(piece, PROJECT_DIR)
    ensures Render(piece + PROJECT_DIR + tail, dir) == piece + dir + Render(tail, dir)
  {
    var rest := PROJECT_DIR + tail;
    RenderPiece(piece, rest, dir);
    assert rest[|PROJECT_DIR|..] == tail;
    assert piece + PROJECT_DIR + tail == piece + rest;
    assert Render(rest, dir) == dir + Render(tail, dir);
    assert piece + (dir + Render(tail, dir)) == piece + dir + Render(tail, dir);
  }

  /** Rendering puts the project directory for every occurrence of $PROJECT_DIR and
      changes nothing else. */
  lemma {:induction false} RenderReplacesEvery(pieces: seq<string>, dir: string)
    requires Pieces(pieces)
    ensures Render(Between(pieces, "$PROJECT_DIR"), dir) == Between(pieces, dir)
    decreases |pieces|
  {
    if |pieces| == 1 {
      RenderPiece(pieces[0], "", dir);
      assert pieces[0] + "" == pieces[0];
    } else {
      RenderReplacesEvery(pieces[1..], dir);
      RenderStep(pieces[0], Between(pieces[1..], PROJECT_DIR), dir);
    }
  }

  // ---- TIER headers ----

  /** The text is a header and a body: blanks, then a comment that opens with the TIER
      marker, up to the first end of a comment and the line break after it, if any. */
  ghost predicate HeaderAndBody(text: string, blank: string, head: string, body: string) {
    Opens(text, blank, head, body) && exists e: nat :: EndsAtComment(head, body, e)
  }

  predicate Opens(text: string, blank: string, head: string, body: string) {
    text == blank + head + body && (forall i :: 0 <= i < |blank| ==> IsSpace(blank[i])) && "<!-- TIER:" <= head
  }

  predicate EndsAtComment(head: string, body: string, e: nat) {
    && At(head, "-->", e) && (forall j: nat :: j < e ==> !At(head, "-->", j))
    && if |head| == e + 3 then body == "" || body[0] != '\n' else |head| == e + 4 && head[e + 3] == '\n'
  }

  ghost predicate HasHeader(text: string) {
    exists blank, head, body :: HeaderAndBody(text, blank, head, body)
  }

  /** The spans that the code finds are those of the header. */
  lemma SpanOfHeader(text: string, blank: string, head: string, body: string)
    requires HeaderAndBody(text, blank, head, body)
    ensures TierSpan(text) == Some(Region(|blank|, |blank| + |head|))
    ensures text[|blank|..|blank| + |head|] == head && text[|blank| + |head|..] == body
  {
    var e: nat :| EndsAtComment(head, body, e);
    SpanOf(text, blank, head, body, e);
  }

  lemma SpanOf(text: string, blank: string, head: string, body: string, e: nat)
    requires Opens(text, blank, head, body) && EndsAtComment(head, body, e)
    ensures TierSpan(text) == Some(Region(|blank|, |blank| + |head|))
    ensures text[|blank|..|blank| + |head|] == head && text[|blank| + |head|..] == body
  {
    Spots(text, blank, head, body, e);
    SpanIs(text, |blank|, |blank| + e);
  }

  lemma Spots(text: string, blank: string, head: string, body: string, e: nat)
    requires Opens(text, blank, head, body) && EndsAtComment(head, body, e)
    ensures |blank| + e + 3 <= |text| && Find(text, TIER.open, 0) == |blank| && Find(text, TIER.close, |blank|) == |blank| + e
    ensures BodyEnd(TIER, text, |blank| + e) == |blank| + |head|
    ensures text[|blank|..|blank| + |head|] == head && text[|blank| + |head|..] == body
    ensures forall i :: 0 <= i < |blank| ==> IsSpace(text[i])
  {
    HeaderStarts(text, blank, head, body);
    HeaderEnds(text, blank, head, body, e);
    HeaderBreak(text, blank, head, body, e);
    assert forall i :: 0 <= i < |blank| ==> text[i] == blank[i];
  }

  lemma SpanIs(text: string, open: nat, close: nat)
    requires Find(text, TIER.open, 0) == open <= |text| && Find(text, TIER.close, open) == close
    requires forall i :: 0 <= i < open ==> IsSpace(text[i])
    ensures TierSpan(text) == Some(Region(open, BodyEnd(TIER, text, close)))
  {
  }

  lemma HeaderStarts(text: string, blank: string, head: string, body: string)
    requires Opens(text, blank, head, body)
    ensures Find(text, TIER.open, 0) == |blank|
  {
    assert text[|blank|..|blank| + |TIER.open|] == head[..|TIER.open|];
    forall k: nat | 0 <= k < |blank| ensures !At(text, TIER.open, k) {
      assert text[k] == blank[k] && TIER.open[0] == '<' && !IsSpace('<');
      FirstDiffers(text, TIER.open, k);
    }
    FindIs(text, TIER.open, 0, |blank|);
  }

  lemma HeaderEnds(text: string, blank: string, head: string, body: string, e: nat)
    requires text == blank + head + body && EndsAtComment(head, body, e)
    ensures Find(text, TIER.close, |blank|) == |blank| + e
  {
    assert text[|blank|..|blank| + |head|] == head;
    AtWithin(text, TIER.close, |blank|, |blank| + |head|, e);
    forall k: nat | |blank| <= k < |blank| + e ensures !At(text, TIER.close, k) {
      AtWithin(text, TIER.close, |blank|, |blank| + |head|, k - |blank|);
    }
    FindIs(text, TIER.close, |blank|, |blank| + e);
  }

  /** The line break after the comment belongs to the header. */
  lemma HeaderBreak(text: string, blank: string, head: string, body: string, e: nat)
    requires text == blank + head + body && EndsAtComment(head, body, e)
    ensures BodyEnd(TIER, text, |blank| + e) == |blank| + |head|
    ensures text[|blank|..|blank| + |head|] == head && text[|blank| + |head|..] == body
  {
    var n := |blank| + e + 3;
    if |head| == e + 3 {
      assert n < |text| ==> text[n] == body[0];
    } else {
      assert text[n] == head[e + 3];
    }
  }

  /** And it finds one in every text that has a header. */
  lemma HeaderOfSpan(text: string)
    requires TierSpan(text).Some?
    ensures HasHeader(text)
  {
    var open := Find(text, TIER.open, 0);
    SpacesBefore(text, open);
    HeaderFrom(text, open, Find(text, TIER.close, open));
  }

  lemma HeaderFrom(text: string, open: nat, close: nat)
    requires open <= |text| && At(text, TIER.open, open) && close == Find(text, TIER.close, open)
    requires forall i :: 0 <= i < |text[..open]| ==> IsSpace(text[..open][i])
    ensures HasHeader(text)
  {
    var n := BodyEnd(TIER, text, close);
    var head, body, e := text[open..n], text[n..], close - open;
    HeadIsComment(text, open, close, n, head, body, e);
    HeadOpens(text, open, n);
    HeaderIs(text, text[..open], head, body, e);
  }

  lemma HeaderIs(text: string, blank: string, head: string, body: string, e: nat)
    requires Opens(text, blank, head, body) && EndsAtComment(head, body, e)
    ensures HasHeader(text)
  {
    assert HeaderAndBody(text, blank, head, body);
  }

  lemma SpacesBefore(text: string, open: int)
    requires TierSpan(text).Some? && open == Find(text, TIER.open, 0)
    ensures 0 <= open <= |text| && Find(text, TIER.close, open) >= 0
    ensures forall i :: 0 <= i < |text[..open]| ==> IsSpace(text[..open][i])
  {
  }

  lemma HeadOpens(text: string, open: nat, n: nat)
    requires At(text, TIER.open, open) && open + |TIER.open| <= n <= |text|
    requires forall i :: 0 <= i < |text[..open]| ==> IsSpace(text[..open][i])
    ensures Opens(text, text[..open], text[open..n], text[n..])
  {
    assert text[open..n][..|TIER.open|] == text[open..open + |TIER.open|];
  }

  lemma HeadIsComment(text: string, open: nat, close: nat, n: nat, head: string, body: string, e: int)
    requires open <= |text| && At(text, TIER.open, open) && close == Find(text, TIER.close, open) && n == BodyEnd(TIER, text, close)
    requires open <= n && head == text[open..n] && body == text[n..] && e == close - open
    ensures open + |TIER.open| <= n && e >= 0 && EndsAtComment(head, body, e)
  {
    OpenThenClose(text, open, close);
    AtWithin(text, TIER.close, open, n, close - open);
    forall j: nat | j < close - open ensures !At(text[open..n], TIER.close, j) {
      NotBefore(text, TIER.close, open, open + j);
      if j + 3 <= n - open {
        AtWithin(text, TIER.close, open, n, j);
      }
    }
  }

  /** The end of the comment comes after the opening marker. */
  lemma OpenThenClose(text: string, open: nat, close: nat)
    requires At(text, TIER.open, open) && open <= close && At(text, TIER.close, close)
    ensures close >= open + |TIER.open|
  {
    AtChars(text, TIER.open, open);
    AtChars(text, TIER.close, close);
    var j := close - open;
    NoCloseInside(j);
    assert text[close] == '-' && text[close + 1] == '-' && text[close + 2] == '>';
  }

  lemma NoCloseInside(j: nat)
    ensures j < |TIER.open| ==>
      TIER.open[j] != '-' || (j + 1 < |TIER.open| && TIER.open[j + 1] != '-') || (j + 2 < |TIER.open| && TIER.open[j + 2] != '>')
  {
  }

  /** With both headers found, the refreshed text is the new header on the old body. */
  lemma HeaderReplaced(text: string, head: string, body: string, blank: string, template: string, head': string, body': string, blank': string)
    requires HeaderAndBody(text, blank, head, body) && HeaderAndBody(template, blank', head', body')
    ensures ReplaceTierHeader(text, template) == Some(head' + body)
  {
    SpanOfHeader(text, blank, head, body);
    SpanOfHeader(template, blank', head', body');
  }

  lemma HeaderMissing(text: string, template: string)
    requires !HasHeader(text) || !HasHeader(template)
    ensures ReplaceTierHeader(text, template) == None
  {
    if TierSpan(text).Some? && TierSpan(template).Some? {
      HeaderOfSpan(text);
      HeaderOfSpan(template);
    }
  }

  // ---- One path in a full sync ----

  /** The files of a path after a full sync are those that its own action leaves. */
  lemma SyncAt(rules: Rules, sha: Hash, s: State, p: string)
    requires Apart(rules, s.embed) && p in s.embed
    ensures var item := VerdictOn(rules, sha, s, p);
      AgreeOn(Next(rules, sha, s, Sync).disk, ItemEffect(rules, s.embed, item, s.disk).disk, Footprint(rules, p))
  {
    var plan := Work(rules, sha, s, Sync);
    PlanVerdict(rules, sha, s, p);
    var k :| 0 <= k < |plan| && plan[k] == VerdictOn(rules, sha, s, p);
    PlanPaths(rules, sha, s);
    AloneAt(rules, s.embed, plan, s.disk, k);
  }

  /** What the two files of a path hold after a full sync. */
  lemma SyncLeaves(rules: Rules, sha: Hash, s: State, p: string, f: string)
    requires Apart(rules, s.embed) && p in s.embed && rules.dest(p) == Some(f)
    ensures var after, alone := Next(rules, sha, s, Sync).disk, ItemEffect(rules, s.embed, VerdictOn(rules, sha, s, p), s.disk).disk;
      AgreeAt(after, alone, f) && AgreeAt(after, alone, f + NEW_SUFFIX)
  {
    SyncAt(rules, sha, s, p);
  }

  /** The binary ships a text for p that is neither the installed one nor the one that
      the lock records. */
  ghost predicate ShipsAnother(sha: Hash, s: State, p: string, f: string) {
    p in s.embed && f in s.disk && s.embed[p] != s.disk[f] && (p in s.lock.files ==> s.lock.files[p].sha256 != sha(s.embed[p]))
  }

  lemma ShippedVerdict(rules: Rules, sha: Hash, s: State, p: string, f: string)
    requires CollisionFree(sha) && Inv(sha, s) && ShipsAnother(sha, s, p, f) && rules.dest(p) == Some(f)
    ensures VerdictOn(rules, sha, s, p).action == if Unedited(rules, sha, s, p) then FastForward else Conflict
  {
    assert sha(s.disk[f]) != "" && sha(s.disk[f]) != sha(s.embed[p]);
    if p in s.lock.files {
      var bytes :| (p, bytes) in s.shipped && sha(bytes) == s.lock.files[p].sha256;
    }
  }

  lemma AbsentVerdict(rules: Rules, sha: Hash, s: State, p: string, f: string)
    requires CollisionFree(sha) && Inv(sha, s) && p in s.embed && rules.dest(p) == Some(f) && f !in s.disk
    ensures VerdictOn(rules, sha, s, p).action == Create
  {
    assert sha(s.embed[p]) != "";
    if p in s.lock.files {
      var bytes :| (p, bytes) in s.shipped && sha(bytes) == s.lock.files[p].sha256;
    }
  }

  lemma CurrentVerdict(rules: Rules, sha: Hash, s: State, p: string, f: string)
    requires CollisionFree(sha) && p in s.embed && rules.dest(p) == Some(f) && f in s.disk && !ShipsAnother(sha, s, p, f)
    ensures VerdictOn(rules, sha, s, p).action == Skip
  {
    assert sha(s.disk[f]) != "";
  }

  // ---- Class by class, under the program's rules ----

  ghost predicate Ready(dir: string, sha: Hash, s: State) {
    CollisionFree(sha) && Inv(sha, s) && Apart(RulesIn(dir), s.embed)
  }

  /** A file that is gone comes back: as shipped, or rendered when it is the router. */
  lemma MissingIsCreated(dir: string, sha: Hash, s: State, p: string, f: string)
    requires Ready(dir, sha, s) && p in s.embed && DestFor(p) == Some(f) && f !in s.disk
    ensures var after := Next(RulesIn(dir), sha, s, Sync).disk;
      f in after && after[f] == if Classify(p).ManagedRegion? then Render(s.embed[p], dir) else s.embed[p]
  {
    AbsentVerdict(RulesIn(dir), sha, s, p, f);
    SyncLeaves(RulesIn(dir), sha, s, p, f);
    HasClass(p);
  }

  lemma HasClass(p: string)
    requires DestFor(p).Some?
    ensures Classify(p) in {Managed, ManagedRegion, ContentOwned, Scaffold}
  {
    var rel := Relative(p);
    assert rel[0] == 's' || rel[0] == 't' || rel[0] == 'c';
    if "scaffolds/" <= rel {
      assert rel[1] == 'c' && rel[2] == 'a';
    }
  }

  /** Without a new text for it, a file is left as it is, edited or not. */
  lemma CurrentIsKept(dir: string, sha: Hash, s: State, p: string, f: string)
    requires Ready(dir, sha, s) && p in s.embed && DestFor(p) == Some(f) && f in s.disk && !ShipsAnother(sha, s, p, f)
    ensures var after := Next(RulesIn(dir), sha, s, Sync).disk; f in after && after[f] == s.disk[f]
  {
    CurrentVerdict(RulesIn(dir), sha, s, p, f);
    SyncLeaves(RulesIn(dir), sha, s, p, f);
  }

  /** A skill with a new version: an unedited file becomes it; an edited one stays, and
      the new version is put beside it. */
  lemma SkillAfterSync(dir: string, sha: Hash, s: State, p: string, f: string)
    requires Ready(dir, sha, s) && Classify(p).Managed? && DestFor(p) == Some(f) && ShipsAnother(sha, s, p, f)
    ensures var after := Next(RulesIn(dir), sha, s, Sync).disk;
      if Unedited(RulesIn(dir), sha, s, p) then f in after && after[f] == s.embed[p]
      else f in after && after[f] == s.disk[f] && f + ".harmonik-new" in after && after[f + ".harmonik-new"] == s.embed[p]
  {
    ShippedVerdict(RulesIn(dir), sha, s, p, f);
    SyncLeaves(RulesIn(dir), sha, s, p, f);
    Longer(f);
  }

  /** The refreshed text: the new header on the old body. */
  ghost predicate Refreshed(current: string, template: string, after: string) {
    forall blank, head, body, blank', head', body' ::
      HeaderAndBody(current, blank, head, body) && HeaderAndBody(template, blank', head', body') ==> after == head' + body
  }

  /** A context file with a new version: an unedited file gets the new header on its own
      body, when both headers are found; in every other case it is left as it is. */
  lemma ContextAfterSync(dir: string, sha: Hash, s: State, p: string, f: string)
    requires Ready(dir, sha, s) && Classify(p).ContentOwned? && DestFor(p) == Some(f) && ShipsAnother(sha, s, p, f)
    ensures var after := Next(RulesIn(dir), sha, s, Sync).disk;
      f in after && if Unedited(RulesIn(dir), sha, s, p) && HasHeader(s.disk[f]) && HasHeader(s.embed[p])
                    then Refreshed(s.disk[f], s.embed[p], after[f]) else after[f] == s.disk[f]
  {
    ContextLeaves(RulesIn(dir), sha, s, p, f);
    RefreshedIs(s.disk[f], s.embed[p]);
  }

  lemma HeaderLeaves(rules: Rules, disk: Disk, f: string, data: string, action: Action)
    requires f in disk && !action.Create?
    ensures var after, merged := ContentEffect(rules, disk, f, data, action).disk, rules.header(disk[f], data);
      f in after && after[f] == if !action.Conflict? && merged.Some? then merged.value else disk[f]
  {
  }

  lemma ContextLeaves(rules: Rules, sha: Hash, s: State, p: string, f: string)
    requires CollisionFree(sha) && Inv(sha, s) && Apart(rules, s.embed)
    requires Classify(p).ContentOwned? && rules.dest(p) == Some(f) && ShipsAnother(sha, s, p, f)
    ensures var after, merged := Next(rules, sha, s, Sync).disk, rules.header(s.disk[f], s.embed[p]);
      f in after && after[f] == if Unedited(rules, sha, s, p) && merged.Some? then merged.value else s.disk[f]
  {
    var item := VerdictOn(rules, sha, s, p);
    ShippedVerdict(rules, sha, s, p, f);
    assert ItemEffect(rules, s.embed, item, s.disk) == ContentEffect(rules, s.disk, f, s.embed[p], item.action);
    HeaderLeaves(rules, s.disk, f, s.embed[p], item.action);
    SyncLeaves(rules, sha, s, p, f);
  }

  lemma RefreshedIs(current: string, template: string)
    ensures var merged := ReplaceTierHeader(current, template);
      if HasHeader(current) && HasHeader(template) then merged.Some? && Refreshed(current, template, merged.value) else merged == None
  {
    if HasHeader(current) && HasHeader(template) {
      var blank, head, body :| HeaderAndBody(current, blank, head, body);
      var blank', head', body' :| HeaderAndBody(template, blank', head', body');
      HeaderReplaced(current, head, body, blank, template, head', body', blank');
      forall blank, head, body, blank', head', body' |
        HeaderAndBody(current, blank, head, body) && HeaderAndBody(template, blank', head', body')
        ensures ReplaceTierHeader(current, template) == Some(head' + body)
      {
        HeaderReplaced(current, head, body, blank, template, head', body', blank');
      }
    } else {
      HeaderMissing(current, template);
    }
  }

  /** A scaffold is never touched once it is there. */
  lemma ScaffoldAfterSync(dir: string, sha: Hash, s: State, p: string, f: string)
    requires Ready(dir, sha, s) && Classify(p).Scaffold? && DestFor(p) == Some(f) && ShipsAnother(sha, s, p, f)
    ensures var after := Next(RulesIn(dir), sha, s, Sync).disk; f in after && after[f] == s.disk[f]
  {
    ShippedVerdict(RulesIn(dir), sha, s, p, f);
    SyncLeaves(RulesIn(dir), sha, s, p, f);
  }

  lemma RegionLeaves(rules: Rules, disk: Disk, f: string, rendered: string, action: Action)
    requires f in disk && !action.Create?
    ensures var after, merged := RegionEffect(rules, disk, f, rendered, action).disk, rules.splice(disk[f], rendered);
      if merged.Some? then f in after && after[f] == merged.value
      else after == disk[f + NEW_SUFFIX := rendered]
  {
  }

  lemma RouterLeaves(rules: Rules, sha: Hash, s: State, p: string, f: string)
    requires CollisionFree(sha) && Inv(sha, s) && Apart(rules, s.embed)
    requires Classify(p).ManagedRegion? && rules.dest(p) == Some(f) && ShipsAnother(sha, s, p, f)
    ensures Next(rules, sha, s, Sync).disk.Keys >= {f}
    ensures var after, rendered := Next(rules, sha, s, Sync).disk, rules.render(s.embed[p]);
      var merged := rules.splice(s.disk[f], rendered);
      if merged.Some? then after[f] == merged.value
      else after[f] == s.disk[f] && f + NEW_SUFFIX in after && after[f + NEW_SUFFIX] == rendered
  {
    var rendered, item := rules.render(s.embed[p]), VerdictOn(rules, sha, s, p);
    ShippedVerdict(rules, sha, s, p, f);
    assert ItemEffect(rules, s.embed, item, s.disk) == RegionEffect(rules, s.disk, f, rendered, item.action);
    RegionLeaves(rules, s.disk, f, rendered, item.action);
    SyncLeaves(rules, sha, s, p, f);
    Longer(f);
  }

  /** The text's own words around the template's regions, which line up with its own. */
  ghost predicate Woven(current: string, template: string, after: string) {
    exists own, theirs ::
      && Parsed(MANAGED, own) && Parsed(MANAGED, theirs) && Closed(own) && Closed(theirs) && Count(own) == Count(theirs) > 0
      && Whole(own) == current && Whole(theirs) == template && after == Weave(own, theirs)
  }

  /** The regions of both texts are closed, and equally many. */
  predicate LinesUp(current: string, template: string) {
    var own, theirs := Parse(MANAGED, current, 0), Parse(MANAGED, template, 0);
    Closed(own) && Closed(theirs) && Count(own) == Count(theirs) > 0
  }

  lemma SplicedWhenLinedUp(current: string, template: string, own: Layout, theirs: Layout)
    requires own == Parse(MANAGED, current, 0) && theirs == Parse(MANAGED, template, 0)
    ensures Spliced(MANAGED, current, template) == if LinesUp(current, template) then Some(Weave(own, theirs)) else None
  {
  }

  lemma SplicedIsWoven(current: string, template: string)
    ensures var merged := Spliced(MANAGED, current, template);
      if LinesUp(current, template) then merged.Some? && Woven(current, template, merged.value) else merged == None
  {
    if LinesUp(current, template) {
      ParsedText(current);
      ParsedText(template);
      SplicedWhenLinedUp(current, template, Parse(MANAGED, current, 0), Parse(MANAGED, template, 0));
      WovenIs(current, template, Parse(MANAGED, current, 0), Parse(MANAGED, template, 0));
    }
  }

  lemma ParsedText(text: string)
    requires Closed(Parse(MANAGED, text, 0))
    ensures Parsed(MANAGED, Parse(MANAGED, text, 0)) && Whole(Parse(MANAGED, text, 0)) == text
  {
    ManagedDistinct();
    ParseWhole(MANAGED, text, 0);
    ParseParsed(MANAGED, text, 0);
    assert text[0..] == text;
  }

  lemma WovenIs(current: string, template: string, own: Layout, theirs: Layout)
    requires Parsed(MANAGED, own) && Parsed(MANAGED, theirs) && Closed(own) && Closed(theirs) && Count(own) == Count(theirs) > 0
    requires Whole(own) == current && Whole(theirs) == template
    ensures Woven(current, template, Weave(own, theirs))
  {
  }

  /** The router with a new version, edited or not: the project's text outside its
      regions around the regions of the rendered template; or, when the regions do not
      line up, the old text, with the rendered template beside it. */
  lemma RouterAfterSync(dir: string, sha: Hash, s: State, p: string, f: string)
    requires Ready(dir, sha, s) && Classify(p).ManagedRegion? && DestFor(p) == Some(f) && ShipsAnother(sha, s, p, f)
    ensures var after, rendered := Next(RulesIn(dir), sha, s, Sync).disk, Render(s.embed[p], dir);
      f in after && if LinesUp(s.disk[f], rendered) then Woven(s.disk[f], rendered, after[f])
                    else after[f] == s.disk[f] && f + ".harmonik-new" in after && after[f + ".harmonik-new"] == rendered
  {
    RouterLeaves(RulesIn(dir), sha, s, p, f);
    SplicedIsWoven(s.disk[f], Render(s.embed[p], dir));
  }

  // ---- The auto-apply ----

  /** What an auto-apply does to an installed file: an unedited skill with a new version
      becomes it, and every other file is left as it is. */
  lemma AfterAutoApply(dir: string, sha: Hash, s: State, p: string, f: string)
    requires Ready(dir, sha, s) && p in s.embed && DestFor(p) == Some(f) && f in s.disk
    ensures var after := Next(RulesIn(dir), sha, s, Auto).disk;
      f in after && after[f] ==
        if Classify(p) == Managed && ShipsAnother(sha, s, p, f) && Unedited(RulesIn(dir), sha, s, p) then s.embed[p] else s.disk[f]
  {
    AutoApplied(RulesIn(dir), sha, s, p, f);
  }

  lemma AutoApplied(rules: Rules, sha: Hash, s: State, p: string, f: string)
    requires CollisionFree(sha) && Inv(sha, s) && Apart(rules, s.embed) && p in s.embed && rules.dest(p) == Some(f) && f in s.disk
    ensures var after := Next(rules, sha, s, Auto).disk;
      f in after && after[f] ==
        if Classify(p) == Managed && ShipsAnother(sha, s, p, f) && Unedited(rules, sha, s, p) then s.embed[p] else s.disk[f]
  {
    if ShipsAnother(sha, s, p, f) {
      ShippedVerdict(rules, sha, s, p, f);
    } else {
      CurrentVerdict(rules, sha, s, p, f);
    }
    if VerdictOn(rules, sha, s, p) in Work(rules, sha, s, Auto) {
      AppliedAlone(rules, sha, s, p, f);
    } else {
      AppliedWhen(rules, sha, s, p);
      NotApplied(rules, sha, s, p, f);
    }
  }

  lemma AppliedWhen(rules: Rules, sha: Hash, s: State, p: string)
    requires p in s.embed
    ensures VerdictOn(rules, sha, s, p) in Work(rules, sha, s, Auto) <==> AutoApplicable(VerdictOn(rules, sha, s, p))
  {
    PlanVerdict(rules, sha, s, p);
  }

  lemma AppliedAlone(rules: Rules, sha: Hash, s: State, p: string, f: string)
    requires Apart(rules, s.embed) && p in s.embed && rules.dest(p) == Some(f) && VerdictOn(rules, sha, s, p) in Work(rules, sha, s, Auto)
    ensures var item, after := VerdictOn(rules, sha, s, p), Next(rules, sha, s, Auto).disk;
      AutoApplicable(item) && f in after && after[f] == s.embed[p]
  {
    var plan := Work(rules, sha, s, Auto);
    var k :| 0 <= k < |plan| && plan[k] == VerdictOn(rules, sha, s, p);
    forall item | item in plan ensures item.path in s.embed {
      PlanItems(rules, sha, s.embed, s.lock, s.disk, item);
    }
    AloneAt(rules, s.embed, plan, s.disk, k);
    assert AgreeAt(Next(rules, sha, s, Auto).disk, ItemEffect(rules, s.embed, plan[k], s.disk).disk, f);
  }

  lemma NotApplied(rules: Rules, sha: Hash, s: State, p: string, f: string)
    requires Apart(rules, s.embed) && p in s.embed && rules.dest(p) == Some(f)
    requires VerdictOn(rules, sha, s, p) !in Work(rules, sha, s, Auto)
    ensures AgreeAt(Next(rules, sha, s, Auto).disk, s.disk, f)
  {
    var plan := Work(rules, sha, s, Auto);
    forall item | item in plan ensures f !in Footprint(rules, item.path) {
      PlanItems(rules, sha, s.embed, s.lock, s.disk, item);
      PlanItems(rules, sha, s.embed, s.lock, s.disk, VerdictOn(rules, sha, s, p));
      PlanVerdict(rules, sha, s, p);
      assert item.path != p;
      assert f in Footprint(rules, p);
    }
    FrameAfter(rules, s.embed, plan, s.disk, f);
  }

  /** The count that the hook reports is that of the skills it applied. */
  lemma {:induction false} AllWritten(dir: string, embed: Embed, plan: seq<Item>, disk: Disk)
    requires Applicable(RulesIn(dir), embed, plan)
    requires forall item :: item in plan ==> item.class_.Managed? && item.action.FastForward? && DestFor(item.path).Some?
    ensures WrittenCount(OutcomesAfter(RulesIn(dir), embed, plan, disk)) == |plan|
  {
    if plan != [] {
      var n := |plan| - 1;
      assert plan[n] in plan;
      AllWritten(dir, embed, plan[..n], disk);
      var outcomes := OutcomesAfter(RulesIn(dir), embed, plan, disk);
      assert outcomes[..n] == OutcomesAfter(RulesIn(dir), embed, plan[..n], disk);
    }
  }
}
