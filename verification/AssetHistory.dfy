/** Whole histories of a project's installed assets: binary upgrades, arbitrary user
    edits, full and partial syncs, auto-applies and lost locks, in any order. */
module AssetHistory {
  import opened Results
  import opened AssetPlan
  import opened AssetDigest
  import opened AssetApply

  /** `shipped` records every embedded path with the bytes that some binary so far
      has shipped for it. */
  datatype State = State(embed: Embed, lock: Lock, disk: Disk, shipped: set<(string, string)>)

  /** A sync or auto-apply that is cut short has worked through a prefix of its items
      and has not stamped the lock. */
  datatype Step =
    | Upgrade(embed: Embed)
    | Edit(file: string, content: Option<string>)
    | LoseLock
    | Sync
    | SyncCut(done: nat)
    | Auto
    | AutoCut(done: nat)

  function EmptyLock(): Lock {
    Lock(LOCK_FORMAT_VERSION, map[])
  }

  function Contents(embed: Embed): set<(string, string)> {
    set p | p in embed :: (p, embed[p])
  }

  /** The items that a step of the program works through. */
  function Work(rules: Rules, sha: Hash, s: State, step: Step): (plan: seq<Item>)
    ensures Applicable(rules, s.embed, plan) && OnePerPath(plan)
    ensures forall item :: item in plan ==> item in PlanFor(rules, sha, s.embed, s.lock, s.disk)
    ensures step.Auto? || step.AutoCut? ==> forall item :: item in plan ==> AutoApplicable(item)
  {
    PlanApplicable(rules, sha, s.embed, s.lock, s.disk);
    Chosen(step, PlanFor(rules, sha, s.embed, s.lock, s.disk))
  }

  /** The part of a plan that a step works through. */
  function Chosen(step: Step, plan: seq<Item>): (some: seq<Item>)
    requires OnePerPath(plan)
    ensures OnePerPath(some) && forall item :: item in some ==> item in plan
    ensures step.Auto? || step.AutoCut? ==> forall item :: item in some ==> AutoApplicable(item)
  {
    CandidatesOnePerPath(plan);
    match step
    case Sync => plan
    case SyncCut(done) => if done < |plan| then plan[..done] else plan
    case Auto => Candidates(plan)
    case AutoCut(done) => if done < |Candidates(plan)| then Candidates(plan)[..done] else Candidates(plan)
    case _ => []
  }

  lemma {:induction false} CandidatesOnePerPath(plan: seq<Item>)
    requires OnePerPath(plan)
    ensures OnePerPath(Candidates(plan))
  {
    if plan != [] {
      var n := |plan| - 1;
      CandidatesOnePerPath(plan[..n]);
      forall item | item in Candidates(plan[..n]) ensures item.path != plan[n].path {
        var i :| 0 <= i < n && plan[..n][i] == item;
        assert plan[i].path != plan[n].path;
      }
    }
  }

  function Next(rules: Rules, sha: Hash, s: State, step: Step): State {
    var plan := Work(rules, sha, s, step);
    match step
    case Upgrade(embed) => s.(embed := embed, shipped := s.shipped + Contents(embed))
    case Edit(file, content) => s.(disk := if content.Some? then s.disk[file := content.value] else s.disk - {file})
    case LoseLock => s.(lock := EmptyLock())
    case Sync => s.(disk := DiskAfter(rules, s.embed, plan, s.disk), lock := LockAfter(rules, s.embed, plan, s.lock, s.disk))
    case SyncCut(_) => s.(disk := DiskAfter(rules, s.embed, plan, s.disk))
    case Auto =>
      s.(disk := DiskAfter(rules, s.embed, plan, s.disk),
         lock := if plan == [] then s.lock else LockAfter(rules, s.embed, plan, s.lock, s.disk))
    case AutoCut(_) => s.(disk := DiskAfter(rules, s.embed, plan, s.disk))
  }

  function Run(rules: Rules, sha: Hash, s: State, steps: seq<Step>): State {
    if steps == [] then s
    else Next(rules, sha, Run(rules, sha, s, steps[..|steps| - 1]), steps[|steps| - 1])
  }

  function Initial(embed: Embed, disk: Disk): State {
    State(embed, EmptyLock(), disk, Contents(embed))
  }

  // ---- The lock records shipped bytes only ----

  ghost predicate ShippedSha(sha: Hash, shipped: set<(string, string)>, path: string, recorded: string) {
    exists bytes :: (path, bytes) in shipped && sha(bytes) == recorded
  }

  ghost predicate Inv(sha: Hash, s: State) {
    && Contents(s.embed) <= s.shipped
    && (forall p :: p in s.lock.files ==> ShippedSha(sha, s.shipped, p, s.lock.files[p].sha256))
  }

  /** A stamped entry comes from the path's own outcome. */
  lemma {:induction false} StampAllFrom(prior: map<string, LockEntry>, outcomes: seq<Outcome>, p: string)
    requires p in StampAll(prior, outcomes)
    ensures exists o :: o in outcomes && o.item.path == p && Stamp(prior, o) == Some(StampAll(prior, outcomes)[p])
  {
    var n := |outcomes| - 1;
    var stamp := Stamp(prior, outcomes[n]);
    if stamp.Some? && outcomes[n].item.path == p {
      assert outcomes[n] in outcomes;
    } else {
      StampAllFrom(prior, outcomes[..n], p);
    }
  }

  lemma LockAfterShipped(rules: Rules, sha: Hash, s: State, plan: seq<Item>, p: string)
    requires Inv(sha, s) && Applicable(rules, s.embed, plan)
    requires forall item :: item in plan ==> item in PlanFor(rules, sha, s.embed, s.lock, s.disk)
    requires p in LockAfter(rules, s.embed, plan, s.lock, s.disk).files
    ensures ShippedSha(sha, s.shipped, p, LockAfter(rules, s.embed, plan, s.lock, s.disk).files[p].sha256)
  {
    var outcomes := OutcomesAfter(rules, s.embed, plan, s.disk);
    StampAllFrom(s.lock.files, outcomes, p);
    var o :| o in outcomes && o.item.path == p && Stamp(s.lock.files, o) == Some(StampAll(s.lock.files, outcomes)[p]);
    assert o.item in plan;
    PlanItems(rules, sha, s.embed, s.lock, s.disk, o.item);
    StampShipped(sha, s, o);
  }

  lemma StampShipped(sha: Hash, s: State, o: Outcome)
    requires Inv(sha, s) && o.item.path in s.embed && o.item.embedSha == sha(s.embed[o.item.path])
    requires Stamp(s.lock.files, o).Some?
    ensures ShippedSha(sha, s.shipped, o.item.path, Stamp(s.lock.files, o).value.sha256)
  {
    assert (o.item.path, s.embed[o.item.path]) in Contents(s.embed);
  }

  lemma InvStep(rules: Rules, sha: Hash, s: State, step: Step)
    requires Inv(sha, s)
    ensures Inv(sha, Next(rules, sha, s, step))
  {
    var s' := Next(rules, sha, s, step);
    forall p | p in s'.lock.files ensures ShippedSha(sha, s'.shipped, p, s'.lock.files[p].sha256) {
      if (step.Sync? || step.Auto?) && s'.lock != s.lock {
        LockAfterShipped(rules, sha, s, Work(rules, sha, s, step), p);
      } else {
        assert p in s.lock.files;
        var bytes :| (p, bytes) in s.shipped && sha(bytes) == s.lock.files[p].sha256;
        assert (p, bytes) in s'.shipped;
      }
    }
  }

  /** After any history, the lock holds only hashes of bytes that a binary shipped
      for that very path. */
  lemma {:induction false} LockHoldsShippedHashes(rules: Rules, sha: Hash, embed: Embed, disk: Disk, steps: seq<Step>)
    ensures Inv(sha, Run(rules, sha, Initial(embed, disk), steps))
  {
    if steps != [] {
      LockHoldsShippedHashes(rules, sha, embed, disk, steps[..|steps| - 1]);
      InvStep(rules, sha, Run(rules, sha, Initial(embed, disk), steps[..|steps| - 1]), steps[|steps| - 1]);
    }
  }

  // ---- What a step may do to a file ----

  /** The bytes at f were shipped for a path whose file is replaced on an update. */
  ghost predicate WasShipped(rules: Rules, shipped: set<(string, string)>, f: string, bytes: string) {
    exists p :: (p, bytes) in shipped && rules.dest(p) == Some(f) && (Classify(p).Managed? || Classify(p).ContentOwned?)
  }

  /** The item is in conflict over the files as they are: an edited file that is
      replaced as a whole, or a router whose regions cannot be replaced. */
  predicate Collides(rules: Rules, embed: Embed, item: Item, disk: Disk)
    requires Acts(rules, item) && item.path in embed
  {
    var dest := rules.dest(item.path).value;
    || (item.class_.Managed? && item.action.Conflict?)
    || (item.class_.ManagedRegion? && !item.action.Create? && dest in disk
        && rules.splice(disk[dest], rules.render(embed[item.path])).None?)
  }

  /** f is the side file of the k-th item, which is in conflict when its turn comes. */
  ghost predicate SideFileAt(rules: Rules, embed: Embed, plan: seq<Item>, disk: Disk, k: nat, f: string) {
    && k < |plan| && Applicable(rules, embed, plan[..k]) && Acts(rules, plan[k]) && plan[k].path in embed
    && f == rules.dest(plan[k].path).value + NEW_SUFFIX
    && Collides(rules, embed, plan[k], DiskAfter(rules, embed, plan[..k], disk))
  }

  ghost predicate SideFile(rules: Rules, embed: Embed, plan: seq<Item>, disk: Disk, f: string) {
    exists k: nat :: SideFileAt(rules, embed, plan, disk, k, f)
  }

  /** The new text is the old one with only its marker regions replaced. */
  ghost predicate RegionsOnly(rules: Rules, embed: Embed, plan: seq<Item>, f: string, before: string, after: string) {
    exists item :: item in plan && item.path in embed && item.class_.ManagedRegion? && rules.dest(item.path) == Some(f)
      && rules.splice(before, rules.render(embed[item.path])) == Some(after)
  }

  ghost predicate Allowed(rules: Rules, s: State, plan: seq<Item>, f: string, after: string)
    requires f in s.disk
  {
    || after == s.disk[f]
    || WasShipped(rules, s.shipped, f, s.disk[f])
    || SideFile(rules, s.embed, plan, s.disk, f)
    || RegionsOnly(rules, s.embed, plan, f, s.disk[f], after)
  }

  /** No two router templates go to one file. */
  ghost predicate OneRouterPerFile(rules: Rules, embed: Embed) {
    forall p, q :: p in embed && q in embed && p != q && Classify(p).ManagedRegion? && Classify(q).ManagedRegion? ==>
      rules.dest(p).None? || rules.dest(p) != rules.dest(q)
  }

  /** What one item does to a file that exists. */
  lemma ItemTouches(rules: Rules, embed: Embed, item: Item, disk: Disk, f: string)
    requires (Acts(rules, item) ==> item.path in embed) && f in disk
    ensures var after := ItemEffect(rules, embed, item, disk).disk;
      f in after && (after[f] != disk[f] ==> Acts(rules, item) && Touch(rules, embed, item, f, disk, after[f]))
  {
  }

  ghost predicate Touch(rules: Rules, embed: Embed, item: Item, f: string, disk: Disk, after: string)
    requires Acts(rules, item) && item.path in embed && f in disk
  {
    var dest := rules.dest(item.path).value;
    || (f == dest && item.action.Create?)
    || (f == dest && item.action.FastForward? && (item.class_.Managed? || item.class_.ContentOwned?))
    || (f == dest && item.class_.ManagedRegion? && rules.splice(disk[f], rules.render(embed[item.path])) == Some(after))
    || (f == dest + NEW_SUFFIX && Collides(rules, embed, item, disk))
  }

  /** Fast-forwarding means that the file holds shipped bytes, and creating means
      that there was no file. */
  lemma UpdatedWasShipped(rules: Rules, sha: Hash, s: State, item: Item, f: string)
    requires CollisionFree(sha) && Inv(sha, s) && item in PlanFor(rules, sha, s.embed, s.lock, s.disk)
    requires f in s.disk && rules.dest(item.path) == Some(f)
    ensures !item.action.Create?
    ensures item.action.FastForward? && (item.class_.Managed? || item.class_.ContentOwned?) ==>
      WasShipped(rules, s.shipped, f, s.disk[f])
  {
    PlanItems(rules, sha, s.embed, s.lock, s.disk, item);
    assert item.diskSha == sha(s.disk[f]) != "";
    if item.action.FastForward? {
      var bytes :| (item.path, bytes) in s.shipped && sha(bytes) == s.lock.files[item.path].sha256;
      assert bytes == s.disk[f];
    }
  }

  lemma {:induction false} WorkAllowed(rules: Rules, sha: Hash, s: State, plan: seq<Item>, f: string)
    requires CollisionFree(sha) && Inv(sha, s) && OneRouterPerFile(rules, s.embed)
    requires Applicable(rules, s.embed, plan) && OnePerPath(plan)
    requires forall item :: item in plan ==> item in PlanFor(rules, sha, s.embed, s.lock, s.disk)
    requires f in s.disk
    ensures f in DiskAfter(rules, s.embed, plan, s.disk)
    ensures Allowed(rules, s, plan, f, DiskAfter(rules, s.embed, plan, s.disk)[f])
  {
    if plan != [] {
      var n := |plan| - 1;
      var item := plan[n];
      assert item in plan;
      WorkAllowed(rules, sha, s, plan[..n], f);
      var disk := DiskAfter(rules, s.embed, plan[..n], s.disk);
      ItemTouches(rules, s.embed, item, disk, f);
      AllowedLonger(rules, s, plan, f, disk[f]);
      if ItemEffect(rules, s.embed, item, disk).disk[f] != disk[f] {
        LastAllowed(rules, sha, s, plan, f, disk, ItemEffect(rules, s.embed, item, disk).disk[f]);
      }
    }
  }

  /** The last item's change is allowed, given that what came before it was. */
  lemma LastAllowed(rules: Rules, sha: Hash, s: State, plan: seq<Item>, f: string, disk: Disk, after: string)
    requires CollisionFree(sha) && Inv(sha, s) && OneRouterPerFile(rules, s.embed) && OnePerPath(plan) && plan != []
    requires forall item :: item in plan ==> item in PlanFor(rules, sha, s.embed, s.lock, s.disk)
    requires Applicable(rules, s.embed, plan[..|plan| - 1]) && disk == DiskAfter(rules, s.embed, plan[..|plan| - 1], s.disk)
    requires f in s.disk && f in disk && Allowed(rules, s, plan[..|plan| - 1], f, disk[f])
    requires var item := plan[|plan| - 1];
      Acts(rules, item) && item.path in s.embed && Touch(rules, s.embed, item, f, disk, after)
    ensures Allowed(rules, s, plan, f, after)
  {
    var n := |plan| - 1;
    var item := plan[n];
    if f == rules.dest(item.path).value {
      UpdatedWasShipped(rules, sha, s, item, f);
      if item.class_.ManagedRegion? {
        NotSplicedBefore(rules, sha, s, plan, f, disk[f]);
        SplicedAllowed(rules, s, plan, f, disk[f], after);
      }
    } else {
      assert SideFileAt(rules, s.embed, plan, s.disk, n, f);
    }
  }

  lemma SplicedAllowed(rules: Rules, s: State, plan: seq<Item>, f: string, before: string, after: string)
    requires plan != [] && f in s.disk && Allowed(rules, s, plan[..|plan| - 1], f, before)
    requires !RegionsOnly(rules, s.embed, plan[..|plan| - 1], f, s.disk[f], before)
    requires var item := plan[|plan| - 1];
      && item.path in s.embed && item.class_.ManagedRegion? && rules.dest(item.path) == Some(f)
      && rules.splice(before, rules.render(s.embed[item.path])) == Some(after)
    ensures Allowed(rules, s, plan, f, after)
  {
    if before == s.disk[f] {
      assert plan[|plan| - 1] in plan;
      assert RegionsOnly(rules, s.embed, plan, f, s.disk[f], after);
    } else if SideFile(rules, s.embed, plan[..|plan| - 1], s.disk, f) {
      SideFileLonger(rules, s.embed, plan, s.disk, f);
    }
  }

  lemma SideFileLonger(rules: Rules, embed: Embed, plan: seq<Item>, disk: Disk, f: string)
    requires plan != [] && SideFile(rules, embed, plan[..|plan| - 1], disk, f)
    ensures SideFile(rules, embed, plan, disk, f)
  {
    var n := |plan| - 1;
    var k: nat :| SideFileAt(rules, embed, plan[..n], disk, k, f);
    assert plan[..n][..k] == plan[..k];
    assert SideFileAt(rules, embed, plan, disk, k, f);
  }

  lemma AllowedLonger(rules: Rules, s: State, plan: seq<Item>, f: string, after: string)
    requires plan != [] && f in s.disk && Allowed(rules, s, plan[..|plan| - 1], f, after)
    ensures Allowed(rules, s, plan, f, after)
  {
    var n := |plan| - 1;
    assert forall item :: item in plan[..n] ==> item in plan;
    if SideFile(rules, s.embed, plan[..n], s.disk, f) {
      SideFileLonger(rules, s.embed, plan, s.disk, f);
    }
  }

  /** When the last item is a router, nothing before it has edited its file in part. */
  lemma NotSplicedBefore(rules: Rules, sha: Hash, s: State, plan: seq<Item>, f: string, after: string)
    requires OneRouterPerFile(rules, s.embed) && OnePerPath(plan) && plan != [] && f in s.disk
    requires forall item :: item in plan ==> item in PlanFor(rules, sha, s.embed, s.lock, s.disk)
    requires rules.dest(plan[|plan| - 1].path) == Some(f)
    ensures plan[|plan| - 1].class_.ManagedRegion? ==> !RegionsOnly(rules, s.embed, plan[..|plan| - 1], f, s.disk[f], after)
  {
    var n := |plan| - 1;
    PlanItems(rules, sha, s.embed, s.lock, s.disk, plan[n]);
    forall item | item in plan[..n] && item.class_.ManagedRegion? && rules.dest(item.path) == Some(f)
      ensures !plan[n].class_.ManagedRegion?
    {
      var i :| 0 <= i < n && plan[..n][i] == item;
      assert plan[i] == item && plan[i] in plan && plan[i].path != plan[n].path;
      PlanItems(rules, sha, s.embed, s.lock, s.disk, item);
    }
  }

  /** Safety over whole histories: at any point of any history, what a step of the
      program does to an existing file is to leave it, to replace bytes that an
      earlier binary shipped for it, to replace marker regions, or to write the side
      file of a conflict. It never deletes one. */
  lemma OverwritesOnlyShipped(rules: Rules, sha: Hash, embed: Embed, disk: Disk, steps: seq<Step>, step: Step, f: string)
    requires CollisionFree(sha)
    requires var s := Run(rules, sha, Initial(embed, disk), steps); OneRouterPerFile(rules, s.embed) && f in s.disk
    requires !step.Edit?
    ensures var s := Run(rules, sha, Initial(embed, disk), steps); var s' := Next(rules, sha, s, step);
      f in s'.disk && Allowed(rules, s, Work(rules, sha, s, step), f, s'.disk[f])
  {
    var s := Run(rules, sha, Initial(embed, disk), steps);
    LockHoldsShippedHashes(rules, sha, embed, disk, steps);
    WorkAllowed(rules, sha, s, Work(rules, sha, s, step), f);
  }

  // ---- The files of one path ----

  /** The files that syncing one path may touch. */
  function Footprint(rules: Rules, path: string): set<string> {
    var dest := rules.dest(path);
    if dest.Some? then {dest.value, dest.value + NEW_SUFFIX} else {}
  }

  ghost predicate AgreeAt(a: Disk, b: Disk, f: string) {
    (f in a <==> f in b) && (f in a ==> a[f] == b[f])
  }

  /** An action changes its own files only. */
  lemma ItemFrame(rules: Rules, embed: Embed, item: Item, disk: Disk, f: string)
    requires (Acts(rules, item) ==> item.path in embed) && f !in Footprint(rules, item.path)
    ensures AgreeAt(ItemEffect(rules, embed, item, disk).disk, disk, f)
  {
  }

  lemma {:induction false} FrameAfter(rules: Rules, embed: Embed, plan: seq<Item>, disk: Disk, f: string)
    requires Applicable(rules, embed, plan)
    requires forall item :: item in plan ==> f !in Footprint(rules, item.path)
    ensures AgreeAt(DiskAfter(rules, embed, plan, disk), disk, f)
  {
    if plan != [] {
      var n := |plan| - 1;
      assert plan[n] in plan;
      FrameAfter(rules, embed, plan[..n], disk, f);
      ItemFrame(rules, embed, plan[n], DiskAfter(rules, embed, plan[..n], disk), f);
    }
  }

  // ---- What becomes of a side file ----

  /** The text that goes to the side file of an item. */
  function SideText(rules: Rules, embed: Embed, item: Item): string
    requires item.path in embed
  {
    if item.class_.ManagedRegion? then rules.render(embed[item.path]) else embed[item.path]
  }

  lemma CollisionWrites(rules: Rules, embed: Embed, item: Item, disk: Disk)
    requires Acts(rules, item) && item.path in embed && Collides(rules, embed, item, disk)
    ensures ItemEffect(rules, embed, item, disk).disk == disk[rules.dest(item.path).value + NEW_SUFFIX := SideText(rules, embed, item)]
  {
  }

  lemma {:induction false} SideFileWritten(rules: Rules, embed: Embed, plan: seq<Item>, disk: Disk, k: nat, f: string)
    requires Applicable(rules, embed, plan) && SideFileAt(rules, embed, plan, disk, k, f)
    requires forall j :: k < j < |plan| ==> f !in Footprint(rules, plan[j].path)
    ensures f in DiskAfter(rules, embed, plan, disk) && DiskAfter(rules, embed, plan, disk)[f] == SideText(rules, embed, plan[k])
  {
    var n := |plan| - 1;
    if k == n {
      CollisionWrites(rules, embed, plan[n], DiskAfter(rules, embed, plan[..n], disk));
    } else {
      assert plan[..n][..k] == plan[..k] && plan[..n][k] == plan[k];
      assert forall j :: k < j < n ==> plan[..n][j] == plan[j];
      SideFileWritten(rules, embed, plan[..n], disk, k, f);
      assert plan[n] in plan;
      ItemFrame(rules, embed, plan[n], DiskAfter(rules, embed, plan[..n], disk), f);
    }
  }

  /** The exemption is exact: after a step that meets a conflict, the side file holds
      the shipped text, whatever it held before, unless a later item of the same step
      owns that very file. */
  lemma SideFileIsReplaced(rules: Rules, sha: Hash, s: State, step: Step, k: nat, f: string)
    requires var plan := Work(rules, sha, s, step);
      && SideFileAt(rules, s.embed, plan, s.disk, k, f)
      && forall j :: k < j < |plan| ==> f !in Footprint(rules, plan[j].path)
    ensures var plan, s' := Work(rules, sha, s, step), Next(rules, sha, s, step);
      f in s'.disk && s'.disk[f] == SideText(rules, s.embed, plan[k])
  {
    SideFileWritten(rules, s.embed, Work(rules, sha, s, step), s.disk, k, f);
  }

  /** What a user wrote into a side file is lost: an edited skill and notes beside it,
      under the program's rules, before and after one sync. */
  lemma NotesAreLost(dir: string, sha: Hash, mine: string, notes: string, shipped: string)
    requires CollisionFree(sha) && mine != shipped
    ensures var skill, f := EMBED_ROOT + "/skills/a", ".claude/skills/a";
      var s := Initial(map[skill := shipped], map[f := mine, f + NEW_SUFFIX := notes]);
      var s' := Next(RulesIn(dir), sha, s, Sync);
      f + NEW_SUFFIX in s'.disk && s'.disk[f + NEW_SUFFIX] == shipped
  {
    var rules, skill, f := RulesIn(dir), EMBED_ROOT + "/skills/a", ".claude/skills/a";
    var s := Initial(map[skill := shipped], map[f := mine, f + NEW_SUFFIX := notes]);
    assert "/skills/a" == "/skills/" + "a" && f == ".claude/skills/" + "a";
    SkillAt(dir, skill, "a");
    var item := Item(skill, Managed, Conflict, sha(shipped), "", sha(mine));
    OnlyItem(rules, sha, s, skill, item);
    assert Work(rules, sha, s, Sync)[..0] == [];
    assert SideFileAt(rules, s.embed, Work(rules, sha, s, Sync), s.disk, 0, f + NEW_SUFFIX);
    SideFileIsReplaced(rules, sha, s, Sync, 0, f + NEW_SUFFIX);
  }

  /** The plan's item for an embedded path, from the texts and the lock alone. */
  function VerdictOn(rules: Rules, sha: Hash, s: State, path: string): Item
    requires path in s.embed
  {
    var lockSha := if path in s.lock.files then Some(s.lock.files[path].sha256) else None;
    var diskSha := HashAt(rules, sha, s.disk, path);
    Item(path, Classify(path), ActionFor(Some(sha(s.embed[path])), lockSha, diskSha), sha(s.embed[path]),
         LockShaOr(s.lock.files, path), diskSha)
  }

  lemma PlanVerdict(rules: Rules, sha: Hash, s: State, path: string)
    requires path in s.embed
    ensures VerdictOn(rules, sha, s, path) in PlanFor(rules, sha, s.embed, s.lock, s.disk)
  {
    ManifestCovers(sha, s.embed);
    PlanItems(rules, sha, s.embed, s.lock, s.disk, VerdictOn(rules, sha, s, path));
  }

  /** A binary that ships one file makes a plan of one item. */
  lemma OnlyItem(rules: Rules, sha: Hash, s: State, path: string, item: Item)
    requires s.embed.Keys == {path} && item == VerdictOn(rules, sha, s, path)
    ensures Work(rules, sha, s, Sync) == [item]
  {
    PlanVerdict(rules, sha, s, path);
    var plan := Work(rules, sha, s, Sync);
    forall j | 0 <= j < |plan| ensures plan[j] == item {
      assert plan[j] in plan;
      PlanItems(rules, sha, s.embed, s.lock, s.disk, plan[j]);
    }
    assert plan[0].path == plan[|plan| - 1].path;
  }

  lemma SkillAt(dir: string, skill: string, name: string)
    requires skill == EMBED_ROOT + "/skills/" + name
    ensures RulesIn(dir).dest(skill) == Some(".claude/skills/" + name) && Classify(skill) == Managed
  {
    var rel := "skills/" + name;
    assert skill == EMBED_ROOT + "/" + rel && Relative(skill) == rel;
    assert rel[|"skills/"|..] == name;
  }
}
