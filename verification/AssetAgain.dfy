/** Syncing twice: exactly when a second full sync leaves every file as it is. */
module AssetAgain {
  import opened Results
  import opened Order
  import opened AssetPlan
  import opened AssetDigest
  import opened AssetSplice
  import opened AssetApply
  import opened AssetHistory
  import opened AssetSkew

  ghost predicate Apart(rules: Rules, embed: Embed) {
    forall p, q :: p in embed && q in embed && p != q ==> Footprint(rules, p) !! Footprint(rules, q)
  }

  ghost predicate AgreeOn(a: Disk, b: Disk, files: set<string>) {
    forall f :: f in files ==> AgreeAt(a, b, f)
  }

  /** An action looks at its own files only. */
  lemma ItemLocal(rules: Rules, embed: Embed, item: Item, a: Disk, b: Disk)
    requires (Acts(rules, item) ==> item.path in embed) && AgreeOn(a, b, Footprint(rules, item.path))
    ensures var x, y := ItemEffect(rules, embed, item, a), ItemEffect(rules, embed, item, b);
      AgreeOn(x.disk, y.disk, Footprint(rules, item.path)) && x.written == y.written && x.conflicted == y.conflicted
  {
    if Acts(rules, item) {
      var f, data := rules.dest(item.path).value, embed[item.path];
      assert AgreeAt(a, b, f);
      match item.class_ {
        case ManagedRegion => RegionLocal(rules, f, rules.render(data), item.action, a, b, Footprint(rules, item.path));
        case ContentOwned => ContentLocal(rules, f, data, item.action, a, b, Footprint(rules, item.path));
        case _ =>
      }
    }
  }

  lemma RegionLocal(rules: Rules, f: string, rendered: string, action: Action, a: Disk, b: Disk, files: set<string>)
    requires AgreeAt(a, b, f) && AgreeOn(a, b, files)
    ensures var x, y := RegionEffect(rules, a, f, rendered, action), RegionEffect(rules, b, f, rendered, action);
      AgreeOn(x.disk, y.disk, files) && x.written == y.written && x.conflicted == y.conflicted
  {
  }

  lemma ContentLocal(rules: Rules, f: string, data: string, action: Action, a: Disk, b: Disk, files: set<string>)
    requires AgreeAt(a, b, f) && AgreeOn(a, b, files)
    ensures var x, y := ContentEffect(rules, a, f, data, action), ContentEffect(rules, b, f, data, action);
      AgreeOn(x.disk, y.disk, files) && x.written == y.written && x.conflicted == y.conflicted
  {
  }

  /** Items with separate files do what they would do alone. */
  lemma {:induction false} AloneAt(rules: Rules, embed: Embed, plan: seq<Item>, disk: Disk, k: nat)
    requires Apart(rules, embed) && OnePerPath(plan) && Applicable(rules, embed, plan) && k < |plan|
    requires forall item :: item in plan ==> item.path in embed
    ensures var alone := ItemEffect(rules, embed, plan[k], disk); var o := OutcomesAfter(rules, embed, plan, disk)[k];
      && AgreeOn(DiskAfter(rules, embed, plan, disk), alone.disk, Footprint(rules, plan[k].path))
      && o.written == alone.written && o.conflicted == alone.conflicted
  {
    var n := |plan| - 1;
    assert plan[k] in plan && plan[n] in plan;
    var before := DiskAfter(rules, embed, plan[..n], disk);
    if k < n {
      assert plan[..n][k] == plan[k] && plan[k].path != plan[n].path;
      AloneAt(rules, embed, plan[..n], disk, k);
      forall f | f in Footprint(rules, plan[k].path) ensures AgreeAt(DiskAfter(rules, embed, plan, disk), before, f) {
        ItemFrame(rules, embed, plan[n], before, f);
      }
    } else {
      forall f | f in Footprint(rules, plan[n].path) ensures AgreeAt(before, disk, f) {
        forall item | item in plan[..n] ensures f !in Footprint(rules, item.path) {
          var i :| 0 <= i < n && plan[..n][i] == item;
          assert plan[i] in plan && plan[i].path != plan[n].path;
        }
        FrameAfter(rules, embed, plan[..n], disk, f);
      }
      ItemLocal(rules, embed, plan[n], before, disk);
    }
  }

  /** Splicing a spliced text still finds its regions. */
  ghost predicate Respliceable(rules: Rules) {
    forall current, template :: rules.splice(current, template).Some? ==>
      rules.splice(rules.splice(current, template).value, template).Some?
  }

  /** A router in conflict whose spliced text would come out differently if it were
      spliced again. */
  predicate Unstable(rules: Rules, embed: Embed, item: Item, disk: Disk) {
    && item.class_.ManagedRegion? && item.action.Conflict? && item.path in embed
    && rules.dest(item.path).Some? && rules.dest(item.path).value in disk
    && var rendered := rules.render(embed[item.path]);
       var merged := rules.splice(disk[rules.dest(item.path).value], rendered);
       merged.Some? && merged.value != embed[item.path] && rules.splice(merged.value, rendered) != merged
  }

  /** What the action on a file with embedded bytes `data` is decided from. */
  ghost predicate Decided(sha: Hash, data: string, lock: Option<string>, has: bool, bytes: string, action: Action) {
    action == ActionFor(Some(sha(data)), lock, if has then sha(bytes) else "")
  }

  function BytesAt(disk: Disk, f: string): string {
    if f in disk then disk[f] else ""
  }

  function LockedSha(l: Lock, p: string): Option<string> {
    if p in l.files then Some(l.files[p].sha256) else None
  }

  lemma SameWrite(disk: Disk, f: string, bytes: string)
    requires f in disk && disk[f] == bytes
    ensures disk[f := bytes] == disk
  {
  }

  predicate Quiet(action: Action) {
    action.Skip? || action.Leave?
  }

  lemma AgainManaged(sha: Hash, f: string, data: string, lock: Option<string>, lock': Option<string>, disk: Disk, disk': Disk, a: Action, b: Action)
    requires CollisionFree(sha) && lock != Some("")
    requires Decided(sha, data, lock, f in disk, BytesAt(disk, f), a) && Decided(sha, data, lock', f in disk', BytesAt(disk', f), b)
    requires var after := if Quiet(a) then disk else ManagedEffect(disk, f, data, a).disk;
      AgreeAt(disk', after, f) && AgreeAt(disk', after, f + NEW_SUFFIX)
    requires lock' == if a.Conflict? then lock else Some(sha(data))
    ensures Quiet(b) || ManagedEffect(disk', f, data, b).disk == disk'
  {
    Longer(f);
    if a.Conflict? {
      SameWrite(disk', f + NEW_SUFFIX, data);
    }
  }

  lemma Longer(f: string)
    ensures f + NEW_SUFFIX != f
  {
    assert |f + NEW_SUFFIX| > |f|;
  }

  lemma AgainContent(rules: Rules, sha: Hash, f: string, data: string, lock: Option<string>, lock': Option<string>, disk: Disk, disk': Disk, a: Action, b: Action)
    requires CollisionFree(sha) && lock != Some("")
    requires Decided(sha, data, lock, f in disk, BytesAt(disk, f), a) && Decided(sha, data, lock', f in disk', BytesAt(disk', f), b)
    requires AgreeAt(disk', if Quiet(a) then disk else ContentEffect(rules, disk, f, data, a).disk, f)
    requires lock' == if a.Conflict? then lock else Some(sha(data))
    ensures Quiet(b) || ContentEffect(rules, disk', f, data, b).disk == disk'
  {
  }

  lemma AgainScaffold(sha: Hash, f: string, data: string, lock: Option<string>, lock': Option<string>, disk: Disk, disk': Disk, a: Action, b: Action)
    requires CollisionFree(sha) && lock != Some("")
    requires Decided(sha, data, lock, f in disk, BytesAt(disk, f), a) && Decided(sha, data, lock', f in disk', BytesAt(disk', f), b)
    requires AgreeAt(disk', if Quiet(a) then disk else ScaffoldEffect(disk, f, data, a).disk, f)
    requires lock' == if a.Conflict? then lock else Some(sha(data))
    ensures Quiet(b) || ScaffoldEffect(disk', f, data, b).disk == disk'
  {
  }

  lemma AgainRouter(rules: Rules, sha: Hash, f: string, data: string, lock: Option<string>, lock': Option<string>, disk: Disk, disk': Disk, a: Action, b: Action)
    requires CollisionFree(sha) && lock != Some("") && Respliceable(rules)
    requires Decided(sha, data, lock, f in disk, BytesAt(disk, f), a) && Decided(sha, data, lock', f in disk', BytesAt(disk', f), b)
    requires var after := if Quiet(a) then Effect(disk, false, false) else RegionEffect(rules, disk, f, rules.render(data), a);
      && AgreeAt(disk', after.disk, f) && AgreeAt(disk', after.disk, f + NEW_SUFFIX)
      && lock' == (if a.Conflict? || after.conflicted then lock else Some(sha(data)))
    ensures var rendered := rules.render(data);
      (Quiet(b) || RegionEffect(rules, disk', f, rendered, b).disk == disk') <==>
        !(a.Conflict? && f in disk && var merged := rules.splice(disk[f], rendered);
          merged.Some? && merged.value != data && rules.splice(merged.value, rendered) != merged)
  {
    Longer(f);
    var rendered := rules.render(data);
    if !Quiet(a) && !a.Create? {
      assert f in disk;
      var merged := rules.splice(disk[f], rendered);
      if merged.None? {
        SameWrite(disk', f + NEW_SUFFIX, rendered);
      }
    }
  }

  /** What two plans for one path are decided from. */
  ghost predicate DecidedTwice(rules: Rules, sha: Hash, embed: Embed, first: Item, second: Item, disk: Disk, disk': Disk, l: Option<string>, l': Option<string>)
    requires first.path in embed
  {
    rules.dest(first.path).Some? && second.path == first.path && first.class_ == second.class_
    && var f, data, alone := rules.dest(first.path).value, embed[first.path], ItemEffect(rules, embed, first, disk);
      && Decided(sha, data, l, f in disk, BytesAt(disk, f), first.action)
      && Decided(sha, data, l', f in disk', BytesAt(disk', f), second.action)
      && AgreeAt(disk', alone.disk, f) && AgreeAt(disk', alone.disk, f + NEW_SUFFIX)
      && (alone.conflicted ==> first.class_.Managed? || first.class_.ManagedRegion?)
      && l' == (if first.action.Conflict? || alone.conflicted then l
                else if alone.written || first.action.Skip? || first.action.FastForward? then Some(sha(data)) else l)
  }

  lemma DecidedFrom(rules: Rules, sha: Hash, embed: Embed, lock: Lock, disk: Disk, item: Item)
    requires CollisionFree(sha) && item.path in embed && item in PlanFor(rules, sha, embed, lock, disk) && rules.dest(item.path).Some?
    ensures var f := rules.dest(item.path).value;
      Decided(sha, embed[item.path], LockedSha(lock, item.path), f in disk, BytesAt(disk, f), item.action)
    ensures item.class_ == Classify(item.path) && item.embedSha == sha(embed[item.path]) != ""
  {
    PlanItems(rules, sha, embed, lock, disk, item);
  }

  lemma OnlyTheseConflict(rules: Rules, embed: Embed, item: Item, disk: Disk)
    requires item.path in embed && ItemEffect(rules, embed, item, disk).conflicted
    ensures item.class_.Managed? || item.class_.ManagedRegion?
  {
  }

  /** The files and the lock entry that the first sync left for a path. */
  ghost predicate LeftBy(rules: Rules, embed: Embed, first: Item, lock: Lock, lock': Lock, disk: Disk, disk': Disk)
    requires first.path in embed
  {
    var alone := ItemEffect(rules, embed, first, disk);
    && AgreeOn(disk', alone.disk, Footprint(rules, first.path))
    && Stamp(lock.files, Outcome(first, rules.dest(first.path), alone.written, alone.conflicted))
       == (if first.path in lock'.files then Some(lock'.files[first.path]) else None)
  }

  lemma TwiceDecided(rules: Rules, sha: Hash, embed: Embed, lock: Lock, lock': Lock, disk: Disk, disk': Disk, first: Item, second: Item)
    requires first.path in embed && rules.dest(first.path).Some? && second.path == first.path && first.class_ == second.class_
    requires first.embedSha == sha(embed[first.path]) != "" && !first.action.Leave?
    requires var f := rules.dest(first.path).value;
      && Decided(sha, embed[first.path], LockedSha(lock, first.path), f in disk, BytesAt(disk, f), first.action)
      && Decided(sha, embed[first.path], LockedSha(lock', first.path), f in disk', BytesAt(disk', f), second.action)
    requires LeftBy(rules, embed, first, lock, lock', disk, disk')
    ensures DecidedTwice(rules, sha, embed, first, second, disk, disk', LockedSha(lock, first.path), LockedSha(lock', first.path))
  {
    var f, alone := rules.dest(first.path).value, ItemEffect(rules, embed, first, disk);
    assert AgreeAt(disk', alone.disk, f) && AgreeAt(disk', alone.disk, f + NEW_SUFFIX);
    if alone.conflicted {
      OnlyTheseConflict(rules, embed, first, disk);
    }
    StampedAs(lock.files, Outcome(first, rules.dest(first.path), alone.written, alone.conflicted), lock', sha(embed[first.path]));
  }

  lemma StampedAs(prior: map<string, LockEntry>, o: Outcome, lock': Lock, shipped: string)
    requires o.item.embedSha == shipped != "" && !o.item.action.Leave?
    requires Stamp(prior, o) == if o.item.path in lock'.files then Some(lock'.files[o.item.path]) else None
    ensures var l := if o.item.path in prior then Some(prior[o.item.path].sha256) else None;
      LockedSha(lock', o.item.path) ==
        if o.item.action.Conflict? || o.conflicted then l
        else if o.written || o.item.action.Skip? || o.item.action.FastForward? then Some(shipped) else l
  {
  }

  lemma AgainByClass(rules: Rules, sha: Hash, embed: Embed, first: Item, second: Item, disk: Disk, disk': Disk, l: Option<string>, l': Option<string>)
    requires CollisionFree(sha) && Respliceable(rules) && l != Some("")
    requires first.path in embed && DecidedTwice(rules, sha, embed, first, second, disk, disk', l, l')
    ensures ItemEffect(rules, embed, second, disk').disk == disk' <==> !Unstable(rules, embed, first, disk)
  {
    var f, data, a, b := rules.dest(first.path).value, embed[first.path], first.action, second.action;
    match first.class_ {
      case Managed => AgainManaged(sha, f, data, l, l', disk, disk', a, b);
      case ManagedRegion => AgainRouter(rules, sha, f, data, l, l', disk, disk', a, b);
      case ContentOwned => AgainContent(rules, sha, f, data, l, l', disk, disk', a, b);
      case Scaffold => AgainScaffold(sha, f, data, l, l', disk, disk', a, b);
      case _ =>
    }
  }

  /** Both items of a path, as decided from the files and locks before them. */
  ghost predicate Ready(rules: Rules, sha: Hash, embed: Embed, lock: Lock, lock': Lock, disk: Disk, disk': Disk, first: Item, second: Item)
    requires first.path in embed
  {
    rules.dest(first.path).Some? ==>
      var f := rules.dest(first.path).value;
      && first.class_ == second.class_ && first.embedSha == sha(embed[first.path]) != "" && !first.action.Leave?
      && Decided(sha, embed[first.path], LockedSha(lock, first.path), f in disk, BytesAt(disk, f), first.action)
      && Decided(sha, embed[first.path], LockedSha(lock', first.path), f in disk', BytesAt(disk', f), second.action)
  }

  /** A verdict, as decided from the files and the lock before it. */
  ghost predicate DecidedItem(rules: Rules, sha: Hash, embed: Embed, lock: Lock, disk: Disk, item: Item)
    requires item.path in embed
  {
    rules.dest(item.path).Some? ==>
      var f := rules.dest(item.path).value;
      && Decided(sha, embed[item.path], LockedSha(lock, item.path), f in disk, BytesAt(disk, f), item.action)
      && item.class_ == Classify(item.path) && item.embedSha == sha(embed[item.path]) != ""
  }

  lemma DecidedItems(rules: Rules, sha: Hash, embed: Embed, lock: Lock, disk: Disk, item: Item)
    requires CollisionFree(sha) && item.path in embed && item in PlanFor(rules, sha, embed, lock, disk)
    ensures DecidedItem(rules, sha, embed, lock, disk, item)
  {
    if rules.dest(item.path).Some? {
      DecidedFrom(rules, sha, embed, lock, disk, item);
    }
  }

  lemma ReadyAt(rules: Rules, sha: Hash, embed: Embed, lock: Lock, lock': Lock, disk: Disk, disk': Disk, first: Item, second: Item)
    requires first.path in embed && second.path == first.path
    requires DecidedItem(rules, sha, embed, lock, disk, first) && DecidedItem(rules, sha, embed, lock', disk', second)
    ensures Ready(rules, sha, embed, lock, lock', disk, disk', first, second)
  {
  }

  /** One path: the second sync leaves all files exactly when the path is not an
      unstable router. */
  lemma Again(rules: Rules, sha: Hash, embed: Embed, lock: Lock, lock': Lock, disk: Disk, disk': Disk, first: Item, second: Item)
    requires CollisionFree(sha) && Respliceable(rules) && LockedSha(lock, first.path) != Some("")
    requires first.path in embed && second.path == first.path
    requires Ready(rules, sha, embed, lock, lock', disk, disk', first, second)
    requires LeftBy(rules, embed, first, lock, lock', disk, disk')
    ensures ItemEffect(rules, embed, second, disk').disk == disk' <==> !Unstable(rules, embed, first, disk)
  {
    if rules.dest(first.path).Some? {
      TwiceDecided(rules, sha, embed, lock, lock', disk, disk', first, second);
      AgainByClass(rules, sha, embed, first, second, disk, disk', LockedSha(lock, first.path), LockedSha(lock', first.path));
    }
  }

  /** Both plans list the same paths in the same order. */
  lemma SamePaths(rules: Rules, sha: Hash, embed: Embed, lock: Lock, lock': Lock, disk: Disk, disk': Disk)
    ensures var plan, plan' := PlanFor(rules, sha, embed, lock, disk), PlanFor(rules, sha, embed, lock', disk');
      |plan| == |plan'| && forall k :: 0 <= k < |plan| ==> plan[k].path == plan'[k].path && plan[k].path in embed
  {
    ManifestCovers(sha, embed);
    assert DiskHashes(rules, sha, embed, disk).Keys == DiskHashes(rules, sha, embed, disk').Keys == embed.Keys;
    assert ByPath(ManifestOf(sha, embed).files).Keys == embed.Keys;
    var paths := Sorted(embed.Keys + embed.Keys);
    assert forall k :: 0 <= k < |paths| ==> paths[k] in paths;
  }

  lemma {:induction false} AllQuiet(rules: Rules, embed: Embed, plan: seq<Item>, disk: Disk)
    requires Applicable(rules, embed, plan)
    requires forall item :: item in plan ==> item.path in embed && ItemEffect(rules, embed, item, disk).disk == disk
    ensures DiskAfter(rules, embed, plan, disk) == disk
  {
    if plan != [] {
      AllQuiet(rules, embed, plan[..|plan| - 1], disk);
      assert plan[|plan| - 1] in plan;
    }
  }

  /** When files are kept apart, a plan changes nothing exactly when none of its
      items would alone. */
  lemma QuietExactly(rules: Rules, embed: Embed, plan: seq<Item>, disk: Disk)
    requires Apart(rules, embed) && OnePerPath(plan) && Applicable(rules, embed, plan)
    requires forall item :: item in plan ==> item.path in embed
    ensures DiskAfter(rules, embed, plan, disk) == disk <==>
      forall k :: 0 <= k < |plan| ==> ItemEffect(rules, embed, plan[k], disk).disk == disk
  {
    if DiskAfter(rules, embed, plan, disk) == disk {
      forall k | 0 <= k < |plan| ensures ItemEffect(rules, embed, plan[k], disk).disk == disk {
        AloneAt(rules, embed, plan, disk, k);
        assert plan[k] in plan;
        forall f ensures AgreeAt(ItemEffect(rules, embed, plan[k], disk).disk, disk, f) {
          if f !in Footprint(rules, plan[k].path) {
            ItemFrame(rules, embed, plan[k], disk, f);
          }
        }
        SameDisk(ItemEffect(rules, embed, plan[k], disk).disk, disk);
      }
    }
    if forall k :: 0 <= k < |plan| ==> ItemEffect(rules, embed, plan[k], disk).disk == disk {
      AllQuiet(rules, embed, plan, disk);
    }
  }

  lemma SameDisk(a: Disk, b: Disk)
    requires forall f :: AgreeAt(a, b, f)
    ensures a == b
  {
    forall f ensures f in a <==> f in b {
      assert AgreeAt(a, b, f);
    }
    forall f | f in a ensures a[f] == b[f] {
      assert AgreeAt(a, b, f);
    }
  }

  /** A second full sync by the same binary leaves every file as the first left it
      exactly when no router is unstable. */
  lemma SyncTwiceExactly(rules: Rules, sha: Hash, s: State)
    requires CollisionFree(sha) && Respliceable(rules) && Inv(sha, s) && Apart(rules, s.embed)
    ensures var s1 := Next(rules, sha, s, Sync); var s2 := Next(rules, sha, s1, Sync);
      s2.disk == s1.disk <==> forall item :: item in Work(rules, sha, s, Sync) ==> !Unstable(rules, s.embed, item, s.disk)
  {
    var s1 := Next(rules, sha, s, Sync);
    var plan, plan' := Work(rules, sha, s, Sync), Work(rules, sha, s1, Sync);
    SamePaths(rules, sha, s.embed, s.lock, s1.lock, s.disk, s1.disk);
    PlansTwice(rules, sha, s, plan, plan', s1.lock, s1.disk);
  }

  lemma PlansTwice(rules: Rules, sha: Hash, s: State, plan: seq<Item>, plan': seq<Item>, lock': Lock, disk': Disk)
    requires CollisionFree(sha) && Respliceable(rules) && Inv(sha, s) && Apart(rules, s.embed)
    requires plan == PlanFor(rules, sha, s.embed, s.lock, s.disk) && plan' == PlanFor(rules, sha, s.embed, lock', disk')
    requires Applicable(rules, s.embed, plan) && OnePerPath(plan) && Applicable(rules, s.embed, plan') && OnePerPath(plan')
    requires disk' == DiskAfter(rules, s.embed, plan, s.disk) && lock' == LockAfter(rules, s.embed, plan, s.lock, s.disk)
    requires |plan| == |plan'| && forall k :: 0 <= k < |plan| ==> plan[k].path == plan'[k].path && plan[k].path in s.embed
    ensures DiskAfter(rules, s.embed, plan', disk') == disk' <==>
      forall item :: item in plan ==> !Unstable(rules, s.embed, item, s.disk)
  {
    forall k | 0 <= k < |plan|
      ensures plan'[k].path in s.embed
      ensures ItemEffect(rules, s.embed, plan'[k], disk').disk == disk' <==> !Unstable(rules, s.embed, plan[k], s.disk)
    {
      TwiceAt(rules, sha, s, plan, plan', k, lock', disk');
    }
    Combined(rules, s.embed, plan, plan', s.disk, disk');
  }

  lemma Combined(rules: Rules, embed: Embed, plan: seq<Item>, plan': seq<Item>, disk: Disk, disk': Disk)
    requires Apart(rules, embed) && OnePerPath(plan') && Applicable(rules, embed, plan') && |plan| == |plan'|
    requires forall k :: 0 <= k < |plan| ==> plan'[k].path in embed
    requires forall k :: 0 <= k < |plan| ==>
      (ItemEffect(rules, embed, plan'[k], disk').disk == disk' <==> !Unstable(rules, embed, plan[k], disk))
    ensures DiskAfter(rules, embed, plan', disk') == disk' <==>
      forall item :: item in plan ==> !Unstable(rules, embed, item, disk)
  {
    QuietExactly(rules, embed, plan', disk');
    NoneUnstable(rules, embed, plan, disk);
  }

  lemma NoneUnstable(rules: Rules, embed: Embed, plan: seq<Item>, disk: Disk)
    ensures (forall item :: item in plan ==> !Unstable(rules, embed, item, disk)) <==>
      forall k :: 0 <= k < |plan| ==> !Unstable(rules, embed, plan[k], disk)
  {
  }

  lemma LeftAt(rules: Rules, embed: Embed, plan: seq<Item>, lock: Lock, disk: Disk, k: nat)
    requires Apart(rules, embed) && OnePerPath(plan) && Applicable(rules, embed, plan) && k < |plan|
    requires forall item :: item in plan ==> item.path in embed
    ensures plan[k].path in embed
    ensures LeftBy(rules, embed, plan[k], lock, LockAfter(rules, embed, plan, lock, disk), disk, DiskAfter(rules, embed, plan, disk))
  {
    assert plan[k] in plan;
    AloneAt(rules, embed, plan, disk, k);
    OutcomeDest(rules, embed, plan, disk, k);
    StampAllAt(lock.files, OutcomesAfter(rules, embed, plan, disk), k);
  }

  lemma TwiceAt(rules: Rules, sha: Hash, s: State, plan: seq<Item>, plan': seq<Item>, k: nat, lock': Lock, disk': Disk)
    requires CollisionFree(sha) && Respliceable(rules) && Inv(sha, s) && Apart(rules, s.embed)
    requires plan == PlanFor(rules, sha, s.embed, s.lock, s.disk) && plan' == PlanFor(rules, sha, s.embed, lock', disk')
    requires Applicable(rules, s.embed, plan) && OnePerPath(plan) && Applicable(rules, s.embed, plan')
    requires disk' == DiskAfter(rules, s.embed, plan, s.disk) && lock' == LockAfter(rules, s.embed, plan, s.lock, s.disk)
    requires k < |plan| == |plan'| && plan'[k].path == plan[k].path
    requires forall item :: item in plan ==> item.path in s.embed
    ensures plan'[k].path in s.embed
    ensures ItemEffect(rules, s.embed, plan'[k], disk').disk == disk' <==> !Unstable(rules, s.embed, plan[k], s.disk)
  {
    LeftAt(rules, s.embed, plan, s.lock, s.disk, k);
    assert plan[k] in plan && plan'[k] in plan';
    NonEmptyLock(sha, s, plan[k].path);
    DecidedItems(rules, sha, s.embed, s.lock, s.disk, plan[k]);
    DecidedItems(rules, sha, s.embed, lock', disk', plan'[k]);
    ReadyAt(rules, sha, s.embed, s.lock, lock', s.disk, disk', plan[k], plan'[k]);
    Again(rules, sha, s.embed, s.lock, lock', s.disk, disk', plan[k], plan'[k]);
  }

  lemma NonEmptyLock(sha: Hash, s: State, p: string)
    requires CollisionFree(sha) && Inv(sha, s)
    ensures LockedSha(s.lock, p) != Some("")
  {
    if p in s.lock.files {
      var bytes :| (p, bytes) in s.shipped && sha(bytes) == s.lock.files[p].sha256;
    }
  }

  lemma {:induction false} OutcomeDest(rules: Rules, embed: Embed, plan: seq<Item>, disk: Disk, k: nat)
    requires Applicable(rules, embed, plan) && k < |plan|
    ensures OutcomesAfter(rules, embed, plan, disk)[k].dest == rules.dest(plan[k].path)
  {
    var n := |plan| - 1;
    if k < n {
      OutcomeDest(rules, embed, plan[..n], disk, k);
    }
  }

  // ---- The program's own rules ----

  lemma RulesResplice(dir: string)
    ensures Respliceable(RulesIn(dir))
  {
    forall current, template | Spliced(MANAGED, current, template).Some?
      ensures Spliced(MANAGED, Spliced(MANAGED, current, template).value, template).Some?
    {
      SpliceIdempotentExactly(current, template);
    }
  }

  /** The installed router was in conflict, did not become the raw template, and a
      region of the template swallowed a line break of the project's. */
  ghost predicate Swallows(dir: string, embed: Embed, item: Item, disk: Disk)
    requires item.path in embed
  {
    && item.class_.ManagedRegion? && item.action.Conflict? && DestFor(item.path).Some? && DestFor(item.path).value in disk
    && var current, rendered := disk[DestFor(item.path).value], Render(embed[item.path], dir);
       Spliced(MANAGED, current, rendered).Some? && Spliced(MANAGED, current, rendered).value != embed[item.path]
       && Eaten(Parse(MANAGED, current, 0), Parse(MANAGED, rendered, 0)) > 0
  }

  lemma UnstableExactly(dir: string, embed: Embed, item: Item, disk: Disk)
    requires item.path in embed
    ensures Unstable(RulesIn(dir), embed, item, disk) <==> Swallows(dir, embed, item, disk)
  {
    if DestFor(item.path).Some? && DestFor(item.path).value in disk {
      var current, rendered := disk[DestFor(item.path).value], Render(embed[item.path], dir);
      if Spliced(MANAGED, current, rendered).Some? {
        SpliceIdempotentExactly(current, rendered);
      }
    }
  }

  /** Under the program's rules: a second full sync leaves every file as the first left
      it exactly when no template region swallowed a line break of the project's. */
  lemma SyncTwiceInDir(dir: string, sha: Hash, s: State)
    requires CollisionFree(sha) && Inv(sha, s) && Apart(RulesIn(dir), s.embed)
    ensures var rules := RulesIn(dir); var s1 := Next(rules, sha, s, Sync); var s2 := Next(rules, sha, s1, Sync);
      s2.disk == s1.disk <==>
        forall item :: item in Work(rules, sha, s, Sync) && item.path in s.embed ==> !Swallows(dir, s.embed, item, s.disk)
  {
    var rules := RulesIn(dir);
    RulesResplice(dir);
    SyncTwiceExactly(rules, sha, s);
    forall item | item in Work(rules, sha, s, Sync)
      ensures item.path in s.embed && (Unstable(rules, s.embed, item, s.disk) <==> Swallows(dir, s.embed, item, s.disk))
    {
      PlanItems(rules, sha, s.embed, s.lock, s.disk, item);
      UnstableExactly(dir, s.embed, item, s.disk);
    }
  }
}
