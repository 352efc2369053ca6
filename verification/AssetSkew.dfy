/** What a history of syncs means for the skew check, and for the text that users
    write: consequences of AssetHistory for the program's own rules. */
module AssetSkew {
  import opened Results
  import opened AssetPlan
  import opened AssetDigest
  import opened AssetSplice
  import opened AssetApply
  import opened AssetHistory

  // ---- User text, under the program's own rules ----

  /** An embedded file system is rooted at assets/. */
  ghost predicate Rooted(embed: Embed) {
    forall p :: p in embed ==> EMBED_ROOT + "/" <= p
  }

  const ROUTER_PATH := EMBED_ROOT + "/" + ROUTER

  lemma RouterPath(p: string)
    requires EMBED_ROOT + "/" <= p && Classify(p).ManagedRegion? && DestFor(p).Some?
    ensures p == ROUTER_PATH && DestFor(p) == Some(AGENTS)
  {
    var rel := Relative(p);
    assert p == EMBED_ROOT + "/" + rel;
    assert rel[0] == 't';
  }

  /** At any point of any history under the program's rules, a file whose bytes no
      binary shipped, and that is not the side file of a conflict, is left as it is
      by every step of the program; only AGENTS.md may change, and there only inside
      its marker regions. */
  lemma UserTextSurvives(dir: string, sha: Hash, embed: Embed, disk: Disk, steps: seq<Step>, step: Step, f: string)
    requires CollisionFree(sha) && !step.Edit?
    requires var s := Run(RulesIn(dir), sha, Initial(embed, disk), steps);
      && Rooted(s.embed) && f in s.disk
      && !WasShipped(RulesIn(dir), s.shipped, f, s.disk[f])
      && !SideFile(RulesIn(dir), s.embed, Work(RulesIn(dir), sha, s, step), s.disk, f)
    ensures var s := Run(RulesIn(dir), sha, Initial(embed, disk), steps); var s' := Next(RulesIn(dir), sha, s, step);
      f in s'.disk && (s'.disk[f] == s.disk[f] || (f == AGENTS && SplicedWith(dir, s.embed, s.disk[f], s'.disk[f])))
  {
    var rules := RulesIn(dir);
    var s := Run(rules, sha, Initial(embed, disk), steps);
    forall p, q | p in s.embed && q in s.embed && p != q && Classify(p).ManagedRegion? && Classify(q).ManagedRegion?
      ensures rules.dest(p).None? || rules.dest(p) != rules.dest(q)
    {
      if rules.dest(p).Some? && rules.dest(q).Some? {
        RouterPath(p);
        RouterPath(q);
      }
    }
    OverwritesOnlyShipped(rules, sha, embed, disk, steps, step, f);
    var plan := Work(rules, sha, s, step);
    forall item | item in plan && item.path in s.embed && item.class_.ManagedRegion? && rules.dest(item.path) == Some(f)
      ensures f == AGENTS && item.path == ROUTER_PATH
    {
      PlanItems(rules, sha, s.embed, s.lock, s.disk, item);
      RouterPath(item.path);
    }
  }

  /** The router's text with its regions taken from the shipped template. */
  ghost predicate SplicedWith(dir: string, embed: Embed, before: string, after: string) {
    ROUTER_PATH in embed
    && Spliced(MANAGED, before, Render(embed[ROUTER_PATH], dir)) == Some(after)
  }

  // ---- What is stamped ----

  lemma {:induction false} StampAllAt(prior: map<string, LockEntry>, outcomes: seq<Outcome>, k: nat)
    requires k < |outcomes| && forall i, j :: 0 <= i < j < |outcomes| ==> outcomes[i].item.path != outcomes[j].item.path
    ensures var p, all := outcomes[k].item.path, StampAll(prior, outcomes);
      Stamp(prior, outcomes[k]) == if p in all then Some(all[p]) else None
  {
    var n := |outcomes| - 1;
    if k < n {
      StampAllAt(prior, outcomes[..n], k);
    } else if outcomes[n].item.path in StampAll(prior, outcomes[..n]) {
      StampAllFrom(prior, outcomes[..n], outcomes[n].item.path);
    }
  }

  /** What did not act left no trace in its outcome. */
  lemma {:induction false} IdleOutcome(rules: Rules, embed: Embed, plan: seq<Item>, disk: Disk, k: nat)
    requires Applicable(rules, embed, plan) && k < |plan|
    ensures var o := OutcomesAfter(rules, embed, plan, disk)[k];
      && (!Acts(rules, o.item) ==> !o.written && !o.conflicted)
      && (o.item.class_.Managed? && o.item.action.FastForward? ==> !o.conflicted)
  {
    var n := |plan| - 1;
    if k < n {
      IdleOutcome(rules, embed, plan[..n], disk, k);
    }
  }

  // ---- A path without a destination ----

  lemma NoDestNotStamped(rules: Rules, sha: Hash, s: State, plan: seq<Item>, p: string)
    requires CollisionFree(sha) && rules.dest(p).None? && p !in s.lock.files && Applicable(rules, s.embed, plan)
    requires forall item :: item in plan ==> item in PlanFor(rules, sha, s.embed, s.lock, s.disk)
    ensures p !in LockAfter(rules, s.embed, plan, s.lock, s.disk).files
  {
    var outcomes := OutcomesAfter(rules, s.embed, plan, s.disk);
    if p in StampAll(s.lock.files, outcomes) {
      StampAllFrom(s.lock.files, outcomes, p);
      var k :| 0 <= k < |outcomes| && outcomes[k].item.path == p && Stamp(s.lock.files, outcomes[k]).Some?;
      assert plan[k] in plan;
      IdleOutcome(rules, s.embed, plan, s.disk, k);
      VerdictOf(rules, sha, s, plan[k]);
      NoDestStamp(rules, sha, s, outcomes[k]);
    }
  }

  /** An item of the plan, with the program around it taken away. */
  ghost predicate Verdict(rules: Rules, sha: Hash, s: State, item: Item) {
    && item.path in s.embed && item.embedSha == sha(s.embed[item.path]) && item.diskSha == HashAt(rules, sha, s.disk, item.path)
    && item.lockSha == LockShaOr(s.lock.files, item.path)
    && item.action == ActionFor(Some(item.embedSha), if item.path in s.lock.files then Some(item.lockSha) else None, item.diskSha)
  }

  lemma VerdictOf(rules: Rules, sha: Hash, s: State, item: Item)
    requires item in PlanFor(rules, sha, s.embed, s.lock, s.disk)
    ensures Verdict(rules, sha, s, item)
  {
    PlanItems(rules, sha, s.embed, s.lock, s.disk, item);
  }

  lemma NoDestStamp(rules: Rules, sha: Hash, s: State, o: Outcome)
    requires CollisionFree(sha) && Verdict(rules, sha, s, o.item)
    requires rules.dest(o.item.path).None? && o.item.path !in s.lock.files && !o.written && !o.conflicted
    ensures Stamp(s.lock.files, o).None?
  {
    assert o.item.embedSha != "";
  }

  /** After any history, a path that has no destination is not in the lock. */
  lemma {:induction false} NoDestNeverLocked(rules: Rules, sha: Hash, embed: Embed, disk: Disk, steps: seq<Step>, p: string)
    requires CollisionFree(sha) && rules.dest(p).None?
    ensures p !in Run(rules, sha, Initial(embed, disk), steps).lock.files
  {
    if steps != [] {
      var s, step := Run(rules, sha, Initial(embed, disk), steps[..|steps| - 1]), steps[|steps| - 1];
      NoDestNeverLocked(rules, sha, embed, disk, steps[..|steps| - 1], p);
      NoDestNotStamped(rules, sha, s, Work(rules, sha, s, step), p);
    }
  }

  ghost predicate HexLike(sha: Hash) {
    forall bytes :: '\n' !in sha(bytes) && ':' !in sha(bytes)
  }

  ghost predicate LineSafe(paths: set<string>) {
    forall p :: p in paths ==> '\n' !in p
  }

  lemma LockClean(sha: Hash, s: State)
    requires HexLike(sha) && Inv(sha, s) && LineSafe(s.lock.files.Keys)
    ensures Clean(LockShas(s.lock))
  {
    forall p | p in LockShas(s.lock) ensures '\n' !in p && '\n' !in LockShas(s.lock)[p] && ':' !in LockShas(s.lock)[p] {
      var bytes :| (p, bytes) in s.shipped && sha(bytes) == s.lock.files[p].sha256;
    }
  }

  /** A binary that ships a file without a destination (the hook scripts) finds the
      project skewed after every history, however often it is synced. */
  lemma SkewedForever(rules: Rules, sha: Hash, embed: Embed, disk: Disk, steps: seq<Step>, p: string)
    requires CollisionFree(sha) && HexLike(sha)
    requires var s := Run(rules, sha, Initial(embed, disk), steps);
      LineSafe(s.embed.Keys) && LineSafe(s.lock.files.Keys) && p in s.embed
    requires rules.dest(p).None?
    ensures var s := Run(rules, sha, Initial(embed, disk), steps); Skewed(sha, ManifestOf(sha, s.embed), s.lock)
  {
    var s := Run(rules, sha, Initial(embed, disk), steps);
    NoDestNeverLocked(rules, sha, embed, disk, steps, p);
    LockHoldsShippedHashes(rules, sha, embed, disk, steps);
    LockClean(sha, s);
    ManifestCovers(sha, s.embed);
    SkewedExactly(sha, ManifestOf(sha, s.embed), s.lock);
    assert p in ManifestShas(ManifestOf(sha, s.embed)) && p !in LockShas(s.lock);
  }

  lemma ScriptsHaveNoDest(path: string)
    requires "scripts/" <= Relative(path)
    ensures DestFor(path).None?
  {
    var rel := Relative(path);
    assert rel[0] == 's' && rel[1] == 'c' && rel[2] == 'r';
    assert ROUTER[0] == 't';
  }

  // ---- When a full sync clears the skew ----

  /** The outcome brings the path's lock entry up to date. */
  predicate Settled(o: Outcome) {
    match o.item.action
    case Skip => true
    case FastForward => !o.conflicted
    case Create => (o.written && !o.conflicted) || o.item.lockSha == o.item.embedSha
    case _ => false
  }

  lemma SettledStamps(sha: Hash, s: State, rules: Rules, o: Outcome)
    requires CollisionFree(sha) && Inv(sha, s) && Verdict(rules, sha, s, o.item)
    requires !Acts(rules, o.item) ==> !o.written && !o.conflicted
    ensures Settled(o) <==> Stamp(s.lock.files, o) == Some(LockEntry(o.item.path, o.item.embedSha))
  {
    assert o.item.embedSha != "";
  }

  /** The same, told from the plan's item, the rules and the files: a skipped item; a
      fast-forward, of a router only when its regions can be replaced; a create of one
      of the four classes that are written, or one that the lock already agrees with.
      An item in conflict never. */
  predicate Settles(rules: Rules, embed: Embed, item: Item, disk: Disk) {
    var dest := rules.dest(item.path);
    match item.action
    case Skip => true
    case FastForward =>
      item.class_.ManagedRegion? && dest.Some? && dest.value in disk && item.path in embed ==>
        rules.splice(disk[dest.value], rules.render(embed[item.path])).Some?
    case Create => (dest.Some? && item.class_ in {Managed, ManagedRegion, ContentOwned, Scaffold}) || item.lockSha == item.embedSha
    case _ => false
  }

  lemma SettlesIs(rules: Rules, embed: Embed, item: Item, disk: Disk, o: Outcome)
    requires item.path in embed
    requires var effect := ItemEffect(rules, embed, item, disk);
      o.item == item && o.written == effect.written && o.conflicted == effect.conflicted
    ensures Settled(o) <==> Settles(rules, embed, item, disk)
  {
  }

  lemma {:induction false} OutcomeAt(rules: Rules, embed: Embed, plan: seq<Item>, disk: Disk, k: nat)
    requires Applicable(rules, embed, plan) && k < |plan|
    ensures Applicable(rules, embed, plan[..k]) && (Acts(rules, plan[k]) ==> plan[k].path in embed)
    ensures var o, effect := OutcomesAfter(rules, embed, plan, disk)[k], ItemEffect(rules, embed, plan[k], DiskAfter(rules, embed, plan[..k], disk));
      o.written == effect.written && o.conflicted == effect.conflicted
  {
    var n := |plan| - 1;
    assert plan[n] in plan;
    if k < n {
      OutcomeAt(rules, embed, plan[..n], disk, k);
      assert plan[..n][..k] == plan[..k];
    }
  }

  /** The k-th item settles over the files as its turn comes. */
  ghost predicate SettlesAt(rules: Rules, embed: Embed, plan: seq<Item>, disk: Disk, k: nat) {
    k < |plan| && Applicable(rules, embed, plan[..k]) && Settles(rules, embed, plan[k], DiskAfter(rules, embed, plan[..k], disk))
  }

  /** After a full sync the project is no longer skewed exactly when every item of the
      plan settles. An item in conflict keeps its old lock entry, so any conflict keeps
      the skew. */
  lemma SyncClearsSkewExactly(rules: Rules, sha: Hash, s: State)
    requires CollisionFree(sha) && HexLike(sha) && Inv(sha, s) && LineSafe(s.embed.Keys)
    ensures var plan := Work(rules, sha, s, Sync);
      !Skewed(sha, ManifestOf(sha, s.embed), Next(rules, sha, s, Sync).lock) <==>
        forall k :: 0 <= k < |plan| ==> SettlesAt(rules, s.embed, plan, s.disk, k)
  {
    ClearsWhenSettled(rules, sha, s);
    PlanPaths(rules, sha, s);
    AllSettle(rules, s.embed, Work(rules, sha, s, Sync), s.disk);
  }

  lemma AllSettle(rules: Rules, embed: Embed, plan: seq<Item>, disk: Disk)
    requires Applicable(rules, embed, plan) && forall k :: 0 <= k < |plan| ==> plan[k].path in embed
    ensures (forall o :: o in OutcomesAfter(rules, embed, plan, disk) ==> Settled(o)) <==>
      forall k :: 0 <= k < |plan| ==> SettlesAt(rules, embed, plan, disk, k)
  {
    var outcomes := OutcomesAfter(rules, embed, plan, disk);
    forall k | 0 <= k < |plan| ensures Settled(outcomes[k]) <==> SettlesAt(rules, embed, plan, disk, k) {
      OutcomeAt(rules, embed, plan, disk, k);
      SettlesIs(rules, embed, plan[k], DiskAfter(rules, embed, plan[..k], disk), outcomes[k]);
    }
    assert (forall o :: o in outcomes ==> Settled(o)) <==> forall k :: 0 <= k < |plan| ==> Settled(outcomes[k]);
  }

  lemma ClearsWhenSettled(rules: Rules, sha: Hash, s: State)
    requires CollisionFree(sha) && HexLike(sha) && Inv(sha, s) && LineSafe(s.embed.Keys)
    ensures !Skewed(sha, ManifestOf(sha, s.embed), Next(rules, sha, s, Sync).lock) <==>
      forall o :: o in OutcomesAfter(rules, s.embed, Work(rules, sha, s, Sync), s.disk) ==> Settled(o)
  {
    var plan := Work(rules, sha, s, Sync);
    var lock := Next(rules, sha, s, Sync).lock;
    InvStep(rules, sha, s, Sync);
    LockPaths(rules, sha, s);
    LockClean(sha, Next(rules, sha, s, Sync));
    ManifestCovers(sha, s.embed);
    SkewedExactly(sha, ManifestOf(sha, s.embed), lock);
    PlanPaths(rules, sha, s);
    SameShas(sha, s, plan, lock);
    AllSettled(rules, sha, s, plan);
  }

  /** Under the program's rules the condition can be read off the files before the
      sync: nothing that is applied before an outdated router touches AGENTS.md. */
  lemma SyncInDirClearsSkewExactly(dir: string, sha: Hash, s: State)
    requires CollisionFree(sha) && HexLike(sha) && Inv(sha, s) && LineSafe(s.embed.Keys) && Rooted(s.embed)
    ensures var rules := RulesIn(dir);
      !Skewed(sha, ManifestOf(sha, s.embed), Next(rules, sha, s, Sync).lock) <==>
        forall item :: item in Work(rules, sha, s, Sync) ==> Settles(rules, s.embed, item, s.disk)
  {
    var rules := RulesIn(dir);
    var plan := Work(rules, sha, s, Sync);
    SyncClearsSkewExactly(rules, sha, s);
    forall k | 0 <= k < |plan| ensures SettlesAt(rules, s.embed, plan, s.disk, k) <==> Settles(rules, s.embed, plan[k], s.disk) {
      OutcomeAt(rules, s.embed, plan, s.disk, k);
      SettlesEarly(dir, sha, s, plan, k);
    }
    assert (forall item :: item in plan ==> Settles(rules, s.embed, item, s.disk)) <==>
      forall k :: 0 <= k < |plan| ==> Settles(rules, s.embed, plan[k], s.disk);
  }

  lemma SettlesEarly(dir: string, sha: Hash, s: State, plan: seq<Item>, k: nat)
    requires CollisionFree(sha) && Inv(sha, s) && Rooted(s.embed) && OnePerPath(plan) && k < |plan|
    requires Applicable(RulesIn(dir), s.embed, plan[..k])
    requires forall item :: item in plan ==> item in PlanFor(RulesIn(dir), sha, s.embed, s.lock, s.disk)
    ensures Settles(RulesIn(dir), s.embed, plan[k], DiskAfter(RulesIn(dir), s.embed, plan[..k], s.disk)) <==>
      Settles(RulesIn(dir), s.embed, plan[k], s.disk)
  {
    var item := plan[k];
    if item.action.FastForward? && item.class_.ManagedRegion? && RulesIn(dir).dest(item.path).Some? {
      RouterAsBefore(dir, sha, s, plan, k);
    }
    SettlesLocal(RulesIn(dir), s.embed, item, DiskAfter(RulesIn(dir), s.embed, plan[..k], s.disk), s.disk);
  }

  lemma RouterAsBefore(dir: string, sha: Hash, s: State, plan: seq<Item>, k: nat)
    requires CollisionFree(sha) && Inv(sha, s) && Rooted(s.embed) && OnePerPath(plan) && k < |plan|
    requires Applicable(RulesIn(dir), s.embed, plan[..k])
    requires forall item :: item in plan ==> item in PlanFor(RulesIn(dir), sha, s.embed, s.lock, s.disk)
    requires plan[k].action.FastForward? && plan[k].class_.ManagedRegion? && RulesIn(dir).dest(plan[k].path).Some?
    ensures AgreeAt(DiskAfter(RulesIn(dir), s.embed, plan[..k], s.disk), s.disk, RulesIn(dir).dest(plan[k].path).value)
  {
    assert plan[k] in plan;
    OutdatedRouter(dir, sha, s, plan[k]);
    OthersBefore(plan, k);
    RouterUntouched(dir, sha, s, plan[..k]);
  }

  lemma OthersBefore(plan: seq<Item>, k: nat)
    requires OnePerPath(plan) && k < |plan|
    ensures forall other :: other in plan[..k] ==> other in plan && other.path != plan[k].path
  {
    forall other | other in plan[..k] ensures other in plan && other.path != plan[k].path {
      var i :| 0 <= i < k && plan[..k][i] == other;
      assert plan[i] == other;
    }
  }

  lemma OutdatedRouter(dir: string, sha: Hash, s: State, item: Item)
    requires CollisionFree(sha) && Inv(sha, s) && Rooted(s.embed) && item in PlanFor(RulesIn(dir), sha, s.embed, s.lock, s.disk)
    requires item.action.FastForward? && item.class_.ManagedRegion? && RulesIn(dir).dest(item.path).Some?
    ensures item.path == ROUTER_PATH && RulesIn(dir).dest(item.path) == Some(AGENTS) && AGENTS in s.disk
  {
    PlanItems(RulesIn(dir), sha, s.embed, s.lock, s.disk, item);
    RouterPath(item.path);
    assert ShippedSha(sha, s.shipped, item.path, s.lock.files[item.path].sha256);
  }

  lemma SettlesLocal(rules: Rules, embed: Embed, item: Item, disk: Disk, disk': Disk)
    requires item.action.FastForward? && item.class_.ManagedRegion? && rules.dest(item.path).Some? ==>
      AgreeAt(disk, disk', rules.dest(item.path).value)
    ensures Settles(rules, embed, item, disk) <==> Settles(rules, embed, item, disk')
  {
  }

  lemma {:induction false} RouterUntouched(dir: string, sha: Hash, s: State, plan: seq<Item>)
    requires CollisionFree(sha) && Rooted(s.embed) && Applicable(RulesIn(dir), s.embed, plan) && AGENTS in s.disk
    requires forall item :: item in plan ==> item.path != ROUTER_PATH && item in PlanFor(RulesIn(dir), sha, s.embed, s.lock, s.disk)
    ensures var disk := DiskAfter(RulesIn(dir), s.embed, plan, s.disk); AGENTS in disk && disk[AGENTS] == s.disk[AGENTS]
  {
    if plan != [] {
      var n := |plan| - 1;
      assert plan[n] in plan;
      RouterUntouched(dir, sha, s, plan[..n]);
      NotTheRouter(dir, sha, s, plan[n], DiskAfter(RulesIn(dir), s.embed, plan[..n], s.disk));
    }
  }

  lemma NotTheRouter(dir: string, sha: Hash, s: State, item: Item, disk: Disk)
    requires CollisionFree(sha) && Rooted(s.embed) && AGENTS in s.disk && AGENTS in disk
    requires item.path != ROUTER_PATH && item in PlanFor(RulesIn(dir), sha, s.embed, s.lock, s.disk)
    requires Acts(RulesIn(dir), item) ==> item.path in s.embed
    ensures var after := ItemEffect(RulesIn(dir), s.embed, item, disk).disk; AGENTS in after && after[AGENTS] == disk[AGENTS]
  {
    ItemTouches(RulesIn(dir), s.embed, item, disk, AGENTS);
    if Acts(RulesIn(dir), item) {
      NoTouch(dir, sha, s, item, disk, ItemEffect(RulesIn(dir), s.embed, item, disk).disk[AGENTS]);
    }
  }

  lemma NoTouch(dir: string, sha: Hash, s: State, item: Item, disk: Disk, after: string)
    requires CollisionFree(sha) && Rooted(s.embed) && AGENTS in s.disk && AGENTS in disk
    requires item.path != ROUTER_PATH && item in PlanFor(RulesIn(dir), sha, s.embed, s.lock, s.disk)
    requires Acts(RulesIn(dir), item) && item.path in s.embed
    ensures !Touch(RulesIn(dir), s.embed, item, AGENTS, disk, after)
  {
    PresentItem(RulesIn(dir), sha, s, item, AGENTS);
    AgentsIsTheRouter(item.path);
    ScaffoldLeaves(RulesIn(dir), s.embed, item, disk, AGENTS, after);
  }

  lemma PresentItem(rules: Rules, sha: Hash, s: State, item: Item, f: string)
    requires CollisionFree(sha) && item in PlanFor(rules, sha, s.embed, s.lock, s.disk) && f in s.disk
    ensures item.class_ == Classify(item.path)
    ensures rules.dest(item.path) == Some(f) ==> !item.action.Create?
  {
    PlanItems(rules, sha, s.embed, s.lock, s.disk, item);
    assert sha(s.disk[f]) != "";
  }

  lemma ScaffoldLeaves(rules: Rules, embed: Embed, item: Item, disk: Disk, f: string, after: string)
    requires Acts(rules, item) && item.path in embed && f in disk
    requires rules.dest(item.path) == Some(f) ==> item.class_.Scaffold? && !item.action.Create?
    requires rules.dest(item.path).value + NEW_SUFFIX != f
    ensures !Touch(rules, embed, item, f, disk, after)
  {
  }

  /** Among the classes that are updated, only the router goes to AGENTS.md, and it is
      no side file. */
  lemma AgentsIsTheRouter(p: string)
    requires EMBED_ROOT + "/" <= p && p != ROUTER_PATH && DestFor(p).Some?
    ensures DestFor(p) == Some(AGENTS) ==> Classify(p).Scaffold?
    ensures DestFor(p).value + NEW_SUFFIX != AGENTS
  {
    var side := DestFor(p).value + NEW_SUFFIX;
    assert side[|side| - 1] == NEW_SUFFIX[|NEW_SUFFIX| - 1] == 'w';
    assert AGENTS[|AGENTS| - 1] == 'd';
    if DestFor(p) == Some(AGENTS) {
      ToAgents(p, Relative(p));
    }
  }

  lemma ToAgents(p: string, rel: string)
    requires EMBED_ROOT + "/" <= p && p != ROUTER_PATH && rel == Relative(p) && DestFor(p) == Some(AGENTS)
    ensures Classify(p).Scaffold?
  {
    assert p == EMBED_ROOT + "/" + rel;
    assert AGENTS[0] == 'A' && HANDOFF[0] == 'H';
    assert "scaffolds/" <= rel;
    assert rel[0] == 's' && rel[1] == 'c' && rel[2] == 'a';
  }

  lemma AllSettled(rules: Rules, sha: Hash, s: State, plan: seq<Item>)
    requires CollisionFree(sha) && Inv(sha, s) && Applicable(rules, s.embed, plan) && OnePerPath(plan)
    requires forall item :: item in plan ==> item in PlanFor(rules, sha, s.embed, s.lock, s.disk)
    ensures var files := LockAfter(rules, s.embed, plan, s.lock, s.disk).files;
      (forall o :: o in OutcomesAfter(rules, s.embed, plan, s.disk) ==> Settled(o)) <==>
      (forall k :: 0 <= k < |plan| ==> plan[k].path in files && files[plan[k].path].sha256 == plan[k].embedSha)
  {
    var outcomes := OutcomesAfter(rules, s.embed, plan, s.disk);
    forall k | 0 <= k < |plan|
      ensures var files := LockAfter(rules, s.embed, plan, s.lock, s.disk).files;
        Settled(outcomes[k]) <==> plan[k].path in files && files[plan[k].path].sha256 == plan[k].embedSha
    {
      SettledAt(rules, sha, s, plan, k);
    }
    assert (forall o :: o in outcomes ==> Settled(o)) <==> forall k :: 0 <= k < |plan| ==> Settled(outcomes[k]);
  }

  lemma SettledAt(rules: Rules, sha: Hash, s: State, plan: seq<Item>, k: nat)
    requires CollisionFree(sha) && Inv(sha, s) && k < |plan| && Applicable(rules, s.embed, plan) && OnePerPath(plan)
    requires forall item :: item in plan ==> item in PlanFor(rules, sha, s.embed, s.lock, s.disk)
    ensures var files := LockAfter(rules, s.embed, plan, s.lock, s.disk).files;
      Settled(OutcomesAfter(rules, s.embed, plan, s.disk)[k]) <==>
        plan[k].path in files && files[plan[k].path].sha256 == plan[k].embedSha
  {
    var outcomes := OutcomesAfter(rules, s.embed, plan, s.disk);
    assert plan[k] in plan;
    IdleOutcome(rules, s.embed, plan, s.disk, k);
    VerdictOf(rules, sha, s, plan[k]);
    StampAllAt(s.lock.files, outcomes, k);
    SettledStamped(sha, s, rules, outcomes[k], StampAll(s.lock.files, outcomes));
  }

  lemma SettledStamped(sha: Hash, s: State, rules: Rules, o: Outcome, files: map<string, LockEntry>)
    requires CollisionFree(sha) && Inv(sha, s) && Verdict(rules, sha, s, o.item)
    requires !Acts(rules, o.item) ==> !o.written && !o.conflicted
    requires Stamp(s.lock.files, o) == if o.item.path in files then Some(files[o.item.path]) else None
    ensures Settled(o) <==> o.item.path in files && files[o.item.path].sha256 == o.item.embedSha
  {
    SettledStamps(sha, s, rules, o);
  }

  lemma LockPaths(rules: Rules, sha: Hash, s: State)
    ensures LockAfter(rules, s.embed, Work(rules, sha, s, Sync), s.lock, s.disk).files.Keys <= s.embed.Keys
  {
    var plan := Work(rules, sha, s, Sync);
    var outcomes := OutcomesAfter(rules, s.embed, plan, s.disk);
    forall p | p in StampAll(s.lock.files, outcomes) ensures p in s.embed {
      StampAllFrom(s.lock.files, outcomes, p);
      var k :| 0 <= k < |outcomes| && outcomes[k].item.path == p;
      assert plan[k] in plan;
      PlanItems(rules, sha, s.embed, s.lock, s.disk, plan[k]);
    }
  }

  lemma PlanPaths(rules: Rules, sha: Hash, s: State)
    ensures var plan := Work(rules, sha, s, Sync);
      && (forall k :: 0 <= k < |plan| ==> plan[k].path in s.embed && plan[k].embedSha == sha(s.embed[plan[k].path]))
      && (forall p :: p in s.embed ==> exists k :: 0 <= k < |plan| && plan[k].path == p)
  {
    var plan := Work(rules, sha, s, Sync);
    forall k | 0 <= k < |plan| ensures plan[k].path in s.embed && plan[k].embedSha == sha(s.embed[plan[k].path]) {
      PlanItems(rules, sha, s.embed, s.lock, s.disk, plan[k]);
    }
    var m := ManifestOf(sha, s.embed);
    ManifestCovers(sha, s.embed);
    OneItemPerPath(m, s.lock, DiskHashes(rules, sha, s.embed, s.disk));
    forall p | p in s.embed ensures exists k :: 0 <= k < |plan| && plan[k].path == p {
      assert p in DiskHashes(rules, sha, s.embed, s.disk);
      assert InPlan(plan, p);
    }
  }

  lemma SameShas(sha: Hash, s: State, plan: seq<Item>, lock: Lock)
    requires forall k :: 0 <= k < |plan| ==> plan[k].path in s.embed && plan[k].embedSha == sha(s.embed[plan[k].path])
    requires forall p :: p in s.embed ==> exists k :: 0 <= k < |plan| && plan[k].path == p
    requires lock.files.Keys <= s.embed.Keys
    ensures (map p | p in s.embed :: sha(s.embed[p])) == LockShas(lock) <==>
      forall k :: 0 <= k < |plan| ==> plan[k].path in lock.files && lock.files[plan[k].path].sha256 == plan[k].embedSha
  {
    var shipped := map p | p in s.embed :: sha(s.embed[p]);
    if forall k :: 0 <= k < |plan| ==> plan[k].path in lock.files && lock.files[plan[k].path].sha256 == plan[k].embedSha {
      forall p | p in shipped ensures p in LockShas(lock) && LockShas(lock)[p] == shipped[p] {
        var k :| 0 <= k < |plan| && plan[k].path == p;
      }
      assert shipped.Keys == LockShas(lock).Keys;
    }
    if shipped == LockShas(lock) {
      forall k | 0 <= k < |plan| ensures plan[k].path in lock.files && lock.files[plan[k].path].sha256 == plan[k].embedSha {
        assert plan[k].path in shipped && plan[k].path in LockShas(lock);
      }
    }
  }

  // ---- What an auto-apply does to the lock ----

  /** An auto-apply that applies anything leaves a lock with the applied paths and
      no other. */
  lemma AutoApplyForgets(rules: Rules, sha: Hash, s: State)
    requires CollisionFree(sha) && Inv(sha, s) && Work(rules, sha, s, Auto) != []
    ensures Next(rules, sha, s, Auto).lock.files.Keys == set item | item in Work(rules, sha, s, Auto) :: item.path
  {
    AutoStamps(rules, sha, s);
    StampedPaths(rules, sha, s, Work(rules, sha, s, Auto));
  }

  lemma AutoStamps(rules: Rules, sha: Hash, s: State)
    requires Work(rules, sha, s, Auto) != []
    ensures Next(rules, sha, s, Auto).lock == LockAfter(rules, s.embed, Work(rules, sha, s, Auto), s.lock, s.disk)
  {
  }

  lemma StampedPaths(rules: Rules, sha: Hash, s: State, plan: seq<Item>)
    requires CollisionFree(sha) && Inv(sha, s) && Applicable(rules, s.embed, plan) && OnePerPath(plan)
    requires forall item :: item in plan ==> AutoApplicable(item) && item in PlanFor(rules, sha, s.embed, s.lock, s.disk)
    ensures LockAfter(rules, s.embed, plan, s.lock, s.disk).files.Keys == set item | item in plan :: item.path
  {
    var outcomes := OutcomesAfter(rules, s.embed, plan, s.disk);
    var files := StampAll(s.lock.files, outcomes);
    forall p ensures p in files <==> exists k :: 0 <= k < |plan| && plan[k].path == p {
      if k :| 0 <= k < |plan| && plan[k].path == p {
        CandidateStamped(rules, sha, s, plan, k);
      }
      if p in files {
        StampAllFrom(s.lock.files, outcomes, p);
        var k :| 0 <= k < |outcomes| && outcomes[k].item.path == p;
        assert plan[k].path == p;
      }
    }
    SameSet(plan, files.Keys);
  }

  lemma CandidateStamped(rules: Rules, sha: Hash, s: State, plan: seq<Item>, k: nat)
    requires CollisionFree(sha) && Inv(sha, s) && k < |plan| && Applicable(rules, s.embed, plan) && OnePerPath(plan)
    requires forall item :: item in plan ==> AutoApplicable(item) && item in PlanFor(rules, sha, s.embed, s.lock, s.disk)
    ensures plan[k].path in LockAfter(rules, s.embed, plan, s.lock, s.disk).files
  {
    assert plan[k] in plan;
    IdleOutcome(rules, s.embed, plan, s.disk, k);
    SettledAt(rules, sha, s, plan, k);
  }

  lemma SameSet(plan: seq<Item>, paths: set<string>)
    requires forall p :: p in paths <==> exists k :: 0 <= k < |plan| && plan[k].path == p
    ensures paths == set item | item in plan :: item.path
  {
    forall p ensures p in paths <==> p in set item | item in plan :: item.path {
      if p in paths {
        var k :| 0 <= k < |plan| && plan[k].path == p;
        assert plan[k] in plan;
      }
      if item :| item in plan && item.path == p {
        var k :| 0 <= k < |plan| && plan[k] == item;
      }
    }
  }

  lemma AppliedWasLocked(rules: Rules, sha: Hash, s: State, item: Item)
    requires item in Work(rules, sha, s, Auto)
    ensures item.path in s.lock.files
  {
    assert item in PlanFor(rules, sha, s.embed, s.lock, s.disk) && AutoApplicable(item);
    PlanItems(rules, sha, s.embed, s.lock, s.disk, item);
  }

  /** A path outside the lock stays outside it until a full sync, whatever else
      happens: upgrades, edits, auto-applies, syncs that are cut short. */
  lemma {:induction false} StaysUnlocked(rules: Rules, sha: Hash, s: State, steps: seq<Step>, p: string)
    requires CollisionFree(sha) && Inv(sha, s) && p !in s.lock.files
    requires forall i :: 0 <= i < |steps| ==> !steps[i].Sync?
    ensures Inv(sha, Run(rules, sha, s, steps)) && p !in Run(rules, sha, s, steps).lock.files
  {
    if steps != [] {
      var n := |steps| - 1;
      var before := Run(rules, sha, s, steps[..n]);
      assert forall i :: 0 <= i < n ==> steps[..n][i] == steps[i];
      StaysUnlocked(rules, sha, s, steps[..n], p);
      InvStep(rules, sha, before, steps[n]);
      StaysUnlockedStep(rules, sha, before, steps[n], p);
    }
  }

  lemma StaysUnlockedStep(rules: Rules, sha: Hash, s: State, step: Step, p: string)
    requires CollisionFree(sha) && Inv(sha, s) && p !in s.lock.files && !step.Sync?
    ensures p !in Next(rules, sha, s, step).lock.files
  {
    if step.Auto? && Work(rules, sha, s, Auto) != [] {
      AutoApplyForgets(rules, sha, s);
      forall item | item in Work(rules, sha, s, Auto) ensures item.path != p {
        AppliedWasLocked(rules, sha, s, item);
      }
    }
  }

  lemma UnlockedVerdict(rules: Rules, sha: Hash, s: State, item: Item)
    requires item in PlanFor(rules, sha, s.embed, s.lock, s.disk) && item.path !in s.lock.files
    ensures !item.action.FastForward?
    ensures item.action.Conflict? <==> item.diskSha != "" && item.diskSha != sha(s.embed[item.path])
  {
    PlanItems(rules, sha, s.embed, s.lock, s.disk, item);
  }

  /** So every other installed file stops following the binary: after an auto-apply
      that applied anything, and any further history without a full sync, a path that
      it did not apply is never fast-forwarded, and even its unedited old version is a
      conflict once the binary ships another. */
  lemma AutoApplyFreezesOthers(rules: Rules, sha: Hash, s: State, steps: seq<Step>, item: Item)
    requires CollisionFree(sha) && Inv(sha, s) && Work(rules, sha, s, Auto) != []
    requires forall applied :: applied in Work(rules, sha, s, Auto) ==> applied.path != item.path
    requires forall i :: 0 <= i < |steps| ==> !steps[i].Sync?
    requires var t := Run(rules, sha, Next(rules, sha, s, Auto), steps); item in PlanFor(rules, sha, t.embed, t.lock, t.disk)
    ensures var t := Run(rules, sha, Next(rules, sha, s, Auto), steps);
      && item.path !in t.lock.files && !item.action.FastForward?
      && (item.action.Conflict? <==> item.diskSha != "" && item.diskSha != sha(t.embed[item.path]))
  {
    AutoApplyForgets(rules, sha, s);
    InvStep(rules, sha, s, Auto);
    StaysUnlocked(rules, sha, Next(rules, sha, s, Auto), steps, item.path);
    UnlockedVerdict(rules, sha, Run(rules, sha, Next(rules, sha, s, Auto), steps), item);
  }

  /** And a full sync takes such a path back exactly when its file is the shipped one,
      or is gone and can be written: an old version in conflict stays outside. */
  lemma SyncTakesBackExactly(rules: Rules, sha: Hash, s: State, k: nat)
    requires CollisionFree(sha) && Inv(sha, s)
    requires var plan := Work(rules, sha, s, Sync); k < |plan| && plan[k].path !in s.lock.files
    ensures var item := Work(rules, sha, s, Sync)[k];
      item.path in Next(rules, sha, s, Sync).lock.files <==>
        item.diskSha == item.embedSha
        || (item.diskSha == "" && rules.dest(item.path).Some? && item.class_ in {Managed, ManagedRegion, ContentOwned, Scaffold})
  {
    var plan := Work(rules, sha, s, Sync);
    assert plan[k] in plan;
    PlanPaths(rules, sha, s);
    VerdictOf(rules, sha, s, plan[k]);
    OutcomeAt(rules, s.embed, plan, s.disk, k);
    var o := OutcomesAfter(rules, s.embed, plan, s.disk)[k];
    SettlesIs(rules, s.embed, plan[k], DiskAfter(rules, s.embed, plan[..k], s.disk), o);
    StampAllAt(s.lock.files, OutcomesAfter(rules, s.embed, plan, s.disk), k);
    IdleOutcome(rules, s.embed, plan, s.disk, k);
    FirstStamp(rules, sha, s, o);
  }

  /** A path outside the lock is stamped exactly when its outcome is settled. */
  lemma FirstStamp(rules: Rules, sha: Hash, s: State, o: Outcome)
    requires CollisionFree(sha) && Verdict(rules, sha, s, o.item) && o.item.path !in s.lock.files
    requires Settled(o) <==> Settles(rules, s.embed, o.item, s.disk)
    requires !Acts(rules, o.item) ==> !o.written && !o.conflicted
    ensures Stamp(s.lock.files, o).Some? <==>
      o.item.diskSha == o.item.embedSha
      || (o.item.diskSha == "" && rules.dest(o.item.path).Some? && o.item.class_ in {Managed, ManagedRegion, ContentOwned, Scaffold})
  {
    assert o.item.embedSha != "";
  }

  /** One outdated path and one that is up to date, both unedited: an auto-apply drops
      the second one's entry, and its next version finds the file in conflict. */
  lemma OtherIsDropped(rules: Rules, sha: Hash, s: State, a: string, b: string, next: string)
    requires CollisionFree(sha) && Inv(sha, s) && s.embed.Keys == {a, b} && a != b
    requires Unedited(rules, sha, s, a) && Classify(a).Managed? && sha(s.embed[a]) != s.lock.files[a].sha256
    requires Unedited(rules, sha, s, b) && sha(s.embed[b]) == s.lock.files[b].sha256 && next != s.embed[b]
    requires Footprint(rules, a) !! Footprint(rules, b)
    ensures var t := Next(rules, sha, s, Auto);
      && b !in t.lock.files
      && exists item :: item in PlanFor(rules, sha, t.embed[b := next], t.lock, t.disk) && item.path == b && item.action.Conflict?
  {
    OnlyFirstApplied(rules, sha, s, a, b);
    AutoApplyForgets(rules, sha, s);
    OtherKeepsFile(rules, sha, s, a, b);
    var t := Next(rules, sha, s, Auto);
    var u := t.(embed := t.embed[b := next]);
    PlanVerdict(rules, sha, u, b);
    DroppedConflicts(rules, sha, u, b, rules.dest(b).value);
  }

  lemma OnlyFirstApplied(rules: Rules, sha: Hash, s: State, a: string, b: string)
    requires s.embed.Keys == {a, b}
    requires Unedited(rules, sha, s, a) && Classify(a).Managed? && sha(s.embed[a]) != s.lock.files[a].sha256
    requires b in s.lock.files && sha(s.embed[b]) == s.lock.files[b].sha256
    ensures Work(rules, sha, s, Auto) != [] && forall item :: item in Work(rules, sha, s, Auto) ==> item.path == a
  {
    OutdatedIsApplied(rules, sha, s, a);
    forall item | item in Work(rules, sha, s, Auto) ensures item.path == a {
      OnlyOutdated(rules, sha, s, item);
    }
  }

  /** The installed file is the one that the lock records. */
  ghost predicate Unedited(rules: Rules, sha: Hash, s: State, p: string) {
    p in s.lock.files && rules.dest(p).Some? && rules.dest(p).value in s.disk
    && sha(s.disk[rules.dest(p).value]) == s.lock.files[p].sha256
  }

  lemma OutdatedIsApplied(rules: Rules, sha: Hash, s: State, p: string)
    requires p in s.embed && Classify(p).Managed? && Unedited(rules, sha, s, p) && sha(s.embed[p]) != s.lock.files[p].sha256
    ensures VerdictOn(rules, sha, s, p) in Work(rules, sha, s, Auto)
  {
    PlanVerdict(rules, sha, s, p);
    assert AutoApplicable(VerdictOn(rules, sha, s, p));
  }

  lemma OnlyOutdated(rules: Rules, sha: Hash, s: State, item: Item)
    requires item in Work(rules, sha, s, Auto)
    ensures item.path in s.embed && item.path in s.lock.files && s.lock.files[item.path].sha256 != sha(s.embed[item.path])
  {
    AppliedWasLocked(rules, sha, s, item);
    PlanItems(rules, sha, s.embed, s.lock, s.disk, item);
  }

  lemma OtherKeepsFile(rules: Rules, sha: Hash, s: State, a: string, b: string)
    requires Footprint(rules, a) !! Footprint(rules, b) && rules.dest(b).Some? && rules.dest(b).value in s.disk
    requires forall item :: item in Work(rules, sha, s, Auto) ==> item.path == a
    ensures AgreeAt(Next(rules, sha, s, Auto).disk, s.disk, rules.dest(b).value)
  {
    assert rules.dest(b).value in Footprint(rules, b);
    FrameAfter(rules, s.embed, Work(rules, sha, s, Auto), s.disk, rules.dest(b).value);
  }

  lemma DroppedConflicts(rules: Rules, sha: Hash, s: State, p: string, f: string)
    requires CollisionFree(sha) && p in s.embed && p !in s.lock.files
    requires rules.dest(p) == Some(f) && f in s.disk && s.disk[f] != s.embed[p]
    ensures VerdictOn(rules, sha, s, p).action.Conflict?
  {
    assert sha(s.disk[f]) != "";
  }

  /** Under the program's rules, with two skills. */
  lemma OtherSkillIsDropped(dir: string, sha: Hash, was: string, now: string, other: string, next: string)
    requires CollisionFree(sha) && was != now && other != next
    ensures var rules, a, b := RulesIn(dir), EMBED_ROOT + "/skills/a", EMBED_ROOT + "/skills/b";
      var s := TwoSkills(sha, a, b, was, now, other);
      var t := Next(rules, sha, s, Auto);
      && b in s.lock.files && b !in t.lock.files
      && exists item :: item in PlanFor(rules, sha, t.embed[b := next], t.lock, t.disk) && item.path == b && item.action.Conflict?
  {
    var a, b := EMBED_ROOT + "/skills/a", EMBED_ROOT + "/skills/b";
    SkillPaths(dir, a, b);
    InvTwoSkills(sha, a, b, was, now, other);
    OtherIsDropped(RulesIn(dir), sha, TwoSkills(sha, a, b, was, now, other), a, b, next);
  }

  /** Two installed skills as an earlier binary shipped them; this one has a new text
      for the first. */
  function TwoSkills(sha: Hash, a: string, b: string, was: string, now: string, other: string): State {
    State(map[a := now, b := other],
          Lock(LOCK_FORMAT_VERSION, map[a := LockEntry(a, sha(was)), b := LockEntry(b, sha(other))]),
          map[".claude/skills/a" := was, ".claude/skills/b" := other],
          {(a, was), (a, now), (b, other)})
  }

  lemma SkillPaths(dir: string, a: string, b: string)
    requires a == EMBED_ROOT + "/skills/a" && b == EMBED_ROOT + "/skills/b"
    ensures a != b && Classify(a) == Classify(b) == Managed
    ensures RulesIn(dir).dest(a) == Some(".claude/skills/a") && RulesIn(dir).dest(b) == Some(".claude/skills/b")
    ensures Footprint(RulesIn(dir), a) !! Footprint(RulesIn(dir), b)
  {
    assert "/skills/a" == "/skills/" + "a" && "/skills/b" == "/skills/" + "b";
    assert ".claude/skills/a" == ".claude/skills/" + "a" && ".claude/skills/b" == ".claude/skills/" + "b";
    SkillAt(dir, a, "a");
    SkillAt(dir, b, "b");
    assert a[|a| - 1] != b[|b| - 1];
    var f, g := ".claude/skills/a", ".claude/skills/b";
    assert f[15] != g[15] && |f| == |g| && |f + NEW_SUFFIX| > |g| && |g + NEW_SUFFIX| > |f|;
    assert (f + NEW_SUFFIX)[15] == f[15] && (g + NEW_SUFFIX)[15] == g[15];
  }

  lemma InvTwoSkills(sha: Hash, a: string, b: string, was: string, now: string, other: string)
    requires a != b
    ensures Inv(sha, TwoSkills(sha, a, b, was, now, other))
  {
    var s := TwoSkills(sha, a, b, was, now, other);
    assert (a, was) in s.shipped && (b, other) in s.shipped;
  }
}
