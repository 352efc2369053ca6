/** `harmonik sync-assets --apply` and the supervisor's auto-apply: where an asset is
    installed, what each action does to the project's files, and the lock that is
    stamped afterwards. Files are text keyed by their path under the project root. */
module AssetApply {
  import opened Order
  import opened Results
  import opened AssetPlan
  import opened AssetDigest
  import opened AssetSplice
  import opened Texts

  /** What a binary embeds, and what is under a project root. */
  type Embed = map<string, string>
  type Disk = map<string, string>

  function TrimSuffix(s: string, suffix: string): string {
    if |suffix| <= |s| && s[|s| - |suffix|..] == suffix then s[..|s| - |suffix|] else s
  }

  const AGENTS := "AGENTS.md"
  const HANDOFF := "HANDOFF.md"
  const ROUTER := "templates/AGENTS.template.md"

  /** The project-relative destination of an embedded path, if it has one. */
  function DestFor(embedPath: string): Option<string> {
    var rel := Relative(embedPath);
    if "skills/" <= rel then Some(".claude/skills/" + rel[|"skills/"|..])
    else if rel == ROUTER then Some(AGENTS)
    else if "context/" <= rel then
      var base := rel[|"context/"|..];
      Some(if base == "HANDOFF.md.tmpl" then HANDOFF else ".harmonik/context/" + TrimSuffix(base, ".tmpl"))
    else if "scaffolds/" <= rel then Some(rel[|"scaffolds/"|..])
    else None
  }

  function EntryFor(sha: Hash, embed: Embed, path: string): FileEntry
    requires path in embed
  {
    FileEntry(path, sha(embed[path]), Classify(path))
  }

  const MANIFEST_FORMAT_VERSION := 1

  method BuildManifest(sha: Hash, embed: Embed) returns (m: Manifest)
    ensures m == ManifestOf(sha, embed)
  {
    var files := HashFiles(sha, embed, Sorted(embed.Keys));
    m := Manifest(MANIFEST_FORMAT_VERSION, files);
  }

  method HashFiles(sha: Hash, embed: Embed, paths: seq<string>) returns (files: seq<FileEntry>)
    requires forall p :: p in paths ==> p in embed
    ensures files == ManifestFiles(sha, embed, paths)
  {
    files := [];
    for i := 0 to |paths|
      invariant |files| == i
      invariant forall j :: 0 <= j < i ==> files[j] == EntryFor(sha, embed, paths[j])
    {
      assert paths[i] in paths;
      files := files + [EntryFor(sha, embed, paths[i])];
    }
  }

  function ManifestFiles(sha: Hash, embed: Embed, paths: seq<string>): (r: seq<FileEntry>)
    requires forall p :: p in paths ==> p in embed
    ensures |r| == |paths|
    ensures forall i :: 0 <= i < |paths| ==> r[i] == EntryFor(sha, embed, paths[i])
  {
    seq(|paths|, i requires 0 <= i < |paths| => EntryFor(sha, embed, paths[i]))
  }

  function ManifestOf(sha: Hash, embed: Embed): Manifest {
    Manifest(MANIFEST_FORMAT_VERSION, ManifestFiles(sha, embed, Sorted(embed.Keys)))
  }

  lemma {:induction false} ManifestFilesByPath(sha: Hash, embed: Embed, paths: seq<string>)
    requires forall p :: p in paths ==> p in embed
    ensures ByPath(ManifestFiles(sha, embed, paths)) == Entries(sha, embed, paths)
  {
    if paths != [] {
      var n := |paths| - 1;
      ManifestFilesByPath(sha, embed, paths[..n]);
      ManifestFilesSnoc(sha, embed, paths);
      EntriesSnoc(sha, embed, paths[..n], paths[n]);
      assert paths == paths[..n] + [paths[n]];
    }
  }

  lemma ManifestFilesSnoc(sha: Hash, embed: Embed, paths: seq<string>)
    requires paths != [] && forall p :: p in paths ==> p in embed
    ensures var n := |paths| - 1;
      ByPath(ManifestFiles(sha, embed, paths)) == ByPath(ManifestFiles(sha, embed, paths[..n]))[paths[n] := EntryFor(sha, embed, paths[n])]
  {
    var n := |paths| - 1;
    assert ManifestFiles(sha, embed, paths)[..n] == ManifestFiles(sha, embed, paths[..n]);
  }

  function Entries(sha: Hash, embed: Embed, paths: seq<string>): map<string, FileEntry>
    requires forall p :: p in paths ==> p in embed
  {
    map p | p in paths :: EntryFor(sha, embed, p)
  }

  lemma EntriesSnoc(sha: Hash, embed: Embed, paths: seq<string>, last: string)
    requires (forall p :: p in paths ==> p in embed) && last in embed
    ensures Entries(sha, embed, paths)[last := EntryFor(sha, embed, last)] == Entries(sha, embed, paths + [last])
  {
  }

  /** A built manifest covers exactly the embedded files, each path once. */
  lemma ManifestCovers(sha: Hash, embed: Embed)
    ensures UniquePaths(ManifestOf(sha, embed))
    ensures ByPath(ManifestOf(sha, embed).files) == map p | p in embed :: EntryFor(sha, embed, p)
    ensures ManifestShas(ManifestOf(sha, embed)) == map p | p in embed :: sha(embed[p])
  {
    var paths := Sorted(embed.Keys);
    ManifestFilesByPath(sha, embed, paths);
    assert Entries(sha, embed, paths) == map p | p in embed :: EntryFor(sha, embed, p);
    ShasOf(sha, embed, ManifestOf(sha, embed));
    forall i, j | 0 <= i < j < |paths| ensures paths[i] != paths[j] {
      LessAsymmetric(paths[i], paths[j]);
    }
  }

  lemma ShasOf(sha: Hash, embed: Embed, m: Manifest)
    requires ByPath(m.files) == map p | p in embed :: EntryFor(sha, embed, p)
    ensures ManifestShas(m) == map p | p in embed :: sha(embed[p])
  {
  }

  // ---- The rules of installation ----

  const PROJECT_DIR := "$PROJECT_DIR"

  /** Every occurrence of $PROJECT_DIR replaced, from left to right. */
  function Render(template: string, dir: string): string
    decreases |template|
  {
    if template == "" then ""
    else if PROJECT_DIR <= template then dir + Render(template[|PROJECT_DIR|..], dir)
    else [template[0]] + Render(template[1..], dir)
  }

  /** The span of a TIER header: only white space may come before it. */
  function TierSpan(s: string): (r: Option<Region>)
    ensures r.Some? ==> r.value.start <= r.value.end <= |s|
  {
    var open := Find(s, TIER.open, 0);
    if open < 0 || exists i :: 0 <= i < open && !IsSpace(s[i]) then None
    else
      var close := Find(s, TIER.close, open);
      if close < 0 then None else Some(Region(open, BodyEnd(TIER, s, close)))
  }

  /** The template's header on the current body. */
  function ReplaceTierHeader(current: string, template: string): Option<string> {
    var c, t := TierSpan(current), TierSpan(template);
    if c.None? || t.None? then None
    else Some(template[t.value.start..t.value.end] + current[c.value.end..])
  }

  /** Where an embedded path goes, how a router template is rendered, and the two
      partial updates; the executor is defined over any such rules. */
  datatype Rules = Rules(
    dest: string -> Option<string>,
    render: string -> string,
    splice: (string, string) -> Option<string>,
    header: (string, string) -> Option<string>)

  /** The rules of the program, for a project directory. */
  function RulesIn(dir: string): Rules {
    Rules(DestFor, template => Render(template, dir),
          (current, template) => Spliced(MANAGED, current, template), ReplaceTierHeader)
  }

  // ---- Hashing what is installed ----

  function HashAt(rules: Rules, sha: Hash, disk: Disk, path: string): string {
    var dest := rules.dest(path);
    if dest.Some? && dest.value in disk then sha(disk[dest.value]) else ""
  }

  function DiskHashes(rules: Rules, sha: Hash, embed: Embed, disk: Disk): map<string, string> {
    map p | p in embed :: HashAt(rules, sha, disk, p)
  }

  method BuildDiskHashes(rules: Rules, sha: Hash, m: Manifest, disk: Disk) returns (hashes: map<string, string>)
    ensures hashes == map p | p in ByPath(m.files) :: HashAt(rules, sha, disk, p)
  {
    hashes := map[];
    for i := 0 to |m.files|
      invariant hashes == map p | p in ByPath(m.files[..i]) :: HashAt(rules, sha, disk, p)
    {
      assert m.files[..i + 1][..i] == m.files[..i];
      var dest := rules.dest(m.files[i].path);
      if dest.None? {
        hashes := hashes[m.files[i].path := ""];
        continue;
      }
      hashes := hashes[m.files[i].path := if dest.value in disk then sha(disk[dest.value]) else ""];
    }
    assert m.files[..|m.files|] == m.files;
  }

  // ---- The actions ----

  const NEW_SUFFIX := ".harmonik-new"

  /** What happened to one item; an outcome that is neither was skipped. */
  datatype Outcome = Outcome(item: Item, dest: Option<string>, written: bool, conflicted: bool)

  /** The files and the outcome flags that one action leaves. */
  datatype Effect = Effect(disk: Disk, written: bool, conflicted: bool)

  function ManagedEffect(disk: Disk, dest: string, data: string, action: Action): Effect {
    if action.Conflict? then Effect(disk[dest + NEW_SUFFIX := data], false, true)
    else Effect(disk[dest := data], true, false)
  }

  function RegionEffect(rules: Rules, disk: Disk, dest: string, rendered: string, action: Action): Effect {
    if action.Create? || dest !in disk then Effect(disk[dest := rendered], true, false)
    else
      var merged := rules.splice(disk[dest], rendered);
      if merged.None? then Effect(disk[dest + NEW_SUFFIX := rendered], false, true)
      else if merged.value == disk[dest] then Effect(disk, false, false)
      else Effect(disk[dest := merged.value], true, false)
  }

  function ContentEffect(rules: Rules, disk: Disk, dest: string, data: string, action: Action): Effect {
    if action.Conflict? then Effect(disk, false, false)
    else if action.Create? || dest !in disk then Effect(disk[dest := data], true, false)
    else
      var merged := rules.header(disk[dest], data);
      if merged.None? || merged.value == disk[dest] then Effect(disk, false, false)
      else Effect(disk[dest := merged.value], true, false)
  }

  function ScaffoldEffect(disk: Disk, dest: string, data: string, action: Action): Effect {
    if action.Create? then Effect(disk[dest := data], true, false) else Effect(disk, false, false)
  }

  predicate Acts(rules: Rules, item: Item) {
    rules.dest(item.path).Some? && !item.action.Leave? && !item.action.Skip?
  }

  function ItemEffect(rules: Rules, embed: Embed, item: Item, disk: Disk): Effect
    requires Acts(rules, item) ==> item.path in embed
  {
    if !Acts(rules, item) then Effect(disk, false, false)
    else
      var dest, data := rules.dest(item.path).value, embed[item.path];
      match item.class_
      case Managed => ManagedEffect(disk, dest, data, item.action)
      case ManagedRegion => RegionEffect(rules, disk, dest, rules.render(data), item.action)
      case ContentOwned => ContentEffect(rules, disk, dest, data, item.action)
      case Scaffold => ScaffoldEffect(disk, dest, data, item.action)
      case _ => Effect(disk, false, false)
  }

  ghost predicate Applicable(rules: Rules, embed: Embed, plan: seq<Item>) {
    forall item :: item in plan && Acts(rules, item) ==> item.path in embed
  }

  function DiskAfter(rules: Rules, embed: Embed, plan: seq<Item>, disk: Disk): Disk
    requires Applicable(rules, embed, plan)
  {
    if plan == [] then disk
    else ItemEffect(rules, embed, plan[|plan| - 1], DiskAfter(rules, embed, plan[..|plan| - 1], disk)).disk
  }

  function OutcomesAfter(rules: Rules, embed: Embed, plan: seq<Item>, disk: Disk): (r: seq<Outcome>)
    requires Applicable(rules, embed, plan)
    ensures |r| == |plan| && forall i :: 0 <= i < |plan| ==> r[i].item == plan[i]
  {
    if plan == [] then []
    else
      var item, before := plan[|plan| - 1], plan[..|plan| - 1];
      var effect := ItemEffect(rules, embed, item, DiskAfter(rules, embed, before, disk));
      OutcomesAfter(rules, embed, before, disk) + [Outcome(item, rules.dest(item.path), effect.written, effect.conflicted)]
  }

  lemma AfterStep(rules: Rules, embed: Embed, plan: seq<Item>, disk: Disk, i: nat)
    requires i < |plan| && Applicable(rules, embed, plan[..i]) && (Acts(rules, plan[i]) ==> plan[i].path in embed)
    ensures Applicable(rules, embed, plan[..i + 1])
    ensures var effect := ItemEffect(rules, embed, plan[i], DiskAfter(rules, embed, plan[..i], disk));
      && DiskAfter(rules, embed, plan[..i + 1], disk) == effect.disk
      && OutcomesAfter(rules, embed, plan[..i + 1], disk) == OutcomesAfter(rules, embed, plan[..i], disk)
           + [Outcome(plan[i], rules.dest(plan[i].path), effect.written, effect.conflicted)]
  {
    assert plan[..i + 1][..i] == plan[..i];
    assert plan[..i + 1] == plan[..i] + [plan[i]];
  }

  /** The switch on the asset class. */
  method ApplyItem(rules: Rules, embed: Embed, item: Item, dest: string, disk: Disk) returns (effect: Effect)
    requires Acts(rules, item) && item.path in embed && dest == rules.dest(item.path).value
    ensures effect == ItemEffect(rules, embed, item, disk)
  {
    var data := embed[item.path];
    effect := Effect(disk, false, false);
    match item.class_ {
      case Managed => effect := ManagedEffect(disk, dest, data, item.action);
      case ManagedRegion => effect := RegionEffect(rules, disk, dest, rules.render(data), item.action);
      case ContentOwned => effect := ContentEffect(rules, disk, dest, data, item.action);
      case Scaffold => effect := ScaffoldEffect(disk, dest, data, item.action);
      case _ =>
    }
  }

  /** Code 1 stands for an item whose embedded file cannot be read; what was done
      before it stays done. */
  method ApplyPlan(rules: Rules, embed: Embed, plan: seq<Item>, disk: Disk)
    returns (disk': Disk, outcomes: seq<Outcome>, code: nat)
    ensures code == 0 <==> Applicable(rules, embed, plan)
    ensures code == 0 ==> disk' == DiskAfter(rules, embed, plan, disk) && outcomes == OutcomesAfter(rules, embed, plan, disk)
    ensures code != 0 ==> exists k :: 0 <= k < |plan| && Applicable(rules, embed, plan[..k]) && disk' == DiskAfter(rules, embed, plan[..k], disk)
  {
    disk', outcomes := disk, [];
    for i := 0 to |plan|
      invariant Applicable(rules, embed, plan[..i])
      invariant disk' == DiskAfter(rules, embed, plan[..i], disk)
      invariant outcomes == OutcomesAfter(rules, embed, plan[..i], disk)
    {
      var item := plan[i];
      assert item in plan;
      var dest := rules.dest(item.path);
      if item.action.Leave? || dest.None? || item.action.Skip? {
        AfterStep(rules, embed, plan, disk, i);
        outcomes := outcomes + [Outcome(item, dest, false, false)];
        continue;
      }
      if item.path !in embed {
        return disk', outcomes, 1;
      }
      AfterStep(rules, embed, plan, disk, i);
      var effect := ApplyItem(rules, embed, item, dest.value, disk');
      disk' := effect.disk;
      outcomes := outcomes + [Outcome(item, dest, effect.written, effect.conflicted)];
    }
    assert plan[..|plan|] == plan;
    code := 0;
  }

  // ---- The lock ----

  /** The lock entry that an outcome leaves for its path, if any. */
  function Stamp(prior: map<string, LockEntry>, o: Outcome): Option<LockEntry> {
    var path := o.item.path;
    var kept := if path in prior then Some(LockEntry(path, prior[path].sha256)) else None;
    if o.conflicted || o.item.action.Conflict? then kept
    else if o.item.action.Leave? then None
    else if (o.written || o.item.action.Skip? || o.item.action.FastForward?) && o.item.embedSha != "" then
      Some(LockEntry(path, o.item.embedSha))
    else kept
  }

  function StampAll(prior: map<string, LockEntry>, outcomes: seq<Outcome>): map<string, LockEntry> {
    if outcomes == [] then map[]
    else
      var before, o := StampAll(prior, outcomes[..|outcomes| - 1]), outcomes[|outcomes| - 1];
      var stamp := Stamp(prior, o);
      if stamp.Some? then before[o.item.path := stamp.value] else before
  }

  method LockFromOutcomes(prior: Lock, outcomes: seq<Outcome>) returns (l: Lock)
    ensures l == Lock(LOCK_FORMAT_VERSION, StampAll(prior.files, outcomes))
  {
    var files: map<string, LockEntry> := map[];
    for i := 0 to |outcomes|
      invariant files == StampAll(prior.files, outcomes[..i])
    {
      assert outcomes[..i + 1][..i] == outcomes[..i];
      var o := outcomes[i];
      var path := o.item.path;
      if o.conflicted || o.item.action.Conflict? {
        if path in prior.files {
          files := files[path := LockEntry(path, prior.files[path].sha256)];
        }
      } else if o.item.action.Leave? {
      } else if o.written || o.item.action.Skip? || o.item.action.FastForward? {
        if o.item.embedSha != "" {
          files := files[path := LockEntry(path, o.item.embedSha)];
        } else if path in prior.files {
          files := files[path := LockEntry(path, prior.files[path].sha256)];
        }
      } else if path in prior.files {
        files := files[path := LockEntry(path, prior.files[path].sha256)];
      }
    }
    assert outcomes[..|outcomes|] == outcomes;
    l := Lock(LOCK_FORMAT_VERSION, files);
  }

  // ---- The two commands ----

  function PlanFor(rules: Rules, sha: Hash, embed: Embed, lock: Lock, disk: Disk): seq<Item> {
    Planned(ManifestOf(sha, embed), lock, DiskHashes(rules, sha, embed, disk))
  }

  /** The plan's items are the verdicts on the embedded paths, one each. */
  lemma PlanItems(rules: Rules, sha: Hash, embed: Embed, lock: Lock, disk: Disk, item: Item)
    ensures item in PlanFor(rules, sha, embed, lock, disk) <==>
      item.path in embed && item == ItemFor(item.path, ByPath(ManifestOf(sha, embed).files), lock.files, DiskHashes(rules, sha, embed, disk))
    ensures item in PlanFor(rules, sha, embed, lock, disk) ==>
      item.class_ == Classify(item.path) && item.embedSha == sha(embed[item.path]) && item.diskSha == HashAt(rules, sha, disk, item.path)
      && item.lockSha == LockShaOr(lock.files, item.path)
      && item.action == ActionFor(Some(item.embedSha), if item.path in lock.files then Some(item.lockSha) else None, item.diskSha)
  {
    ManifestCovers(sha, embed);
    PlannedItem(ManifestOf(sha, embed), lock, DiskHashes(rules, sha, embed, disk), item);
  }

  lemma PlanApplicable(rules: Rules, sha: Hash, embed: Embed, lock: Lock, disk: Disk)
    ensures Applicable(rules, embed, PlanFor(rules, sha, embed, lock, disk)) && OnePerPath(PlanFor(rules, sha, embed, lock, disk))
  {
    forall item | item in PlanFor(rules, sha, embed, lock, disk) ensures item.path in embed {
      PlanItems(rules, sha, embed, lock, disk, item);
    }
    PlanOnePerPath(ManifestOf(sha, embed), lock, DiskHashes(rules, sha, embed, disk));
  }

  /** Manifest, disk hashes and plan, as both commands make them. */
  method MakePlan(rules: Rules, sha: Hash, embed: Embed, lock: Lock, disk: Disk) returns (plan: seq<Item>)
    ensures plan == PlanFor(rules, sha, embed, lock, disk)
    ensures Applicable(rules, embed, plan)
  {
    var manifest := BuildManifest(sha, embed);
    var hashes := BuildDiskHashes(rules, sha, manifest, disk);
    ManifestCovers(sha, embed);
    assert hashes == DiskHashes(rules, sha, embed, disk);
    plan := Reconcile(manifest, lock, hashes);
    PlanApplicable(rules, sha, embed, lock, disk);
  }

  /** The lock that the outcomes of applying `plan` leave. */
  function LockAfter(rules: Rules, embed: Embed, plan: seq<Item>, lock: Lock, disk: Disk): Lock
    requires Applicable(rules, embed, plan)
  {
    Lock(LOCK_FORMAT_VERSION, StampAll(lock.files, OutcomesAfter(rules, embed, plan, disk)))
  }

  /** sync-assets --apply with the gate open, from files and lock to files and lock. */
  method SyncAssets(rules: Rules, sha: Hash, embed: Embed, lock: Lock, disk: Disk) returns (lock': Lock, disk': Disk)
    ensures var plan := PlanFor(rules, sha, embed, lock, disk);
      && Applicable(rules, embed, plan)
      && disk' == DiskAfter(rules, embed, plan, disk)
      && lock' == LockAfter(rules, embed, plan, lock, disk)
  {
    var plan := MakePlan(rules, sha, embed, lock, disk);
    var outcomes, code;
    disk', outcomes, code := ApplyPlan(rules, embed, plan, disk);
    lock' := LockFromOutcomes(lock, outcomes);
  }

  function Candidates(plan: seq<Item>): (r: seq<Item>)
    ensures forall item :: item in r <==> item in plan && AutoApplicable(item)
  {
    if plan == [] then []
    else
      var before, item := Candidates(plan[..|plan| - 1]), plan[|plan| - 1];
      if AutoApplicable(item) then before + [item] else before
  }

  /** The auto-apply hook: it applies the candidates only, and stamps the lock from
      their outcomes only. */
  method AutoApply(rules: Rules, sha: Hash, embed: Embed, lock: Lock, disk: Disk) returns (lock': Lock, disk': Disk, applied: nat)
    ensures var some := Candidates(PlanFor(rules, sha, embed, lock, disk));
      && Applicable(rules, embed, some)
      && disk' == DiskAfter(rules, embed, some, disk)
      && lock' == (if some == [] then lock else LockAfter(rules, embed, some, lock, disk))
      && applied == WrittenCount(OutcomesAfter(rules, embed, some, disk))
  {
    var fullPlan := MakePlan(rules, sha, embed, lock, disk);
    var filtered := Filter(fullPlan);
    if |filtered| == 0 {
      return lock, disk, 0;
    }
    var outcomes, code;
    disk', outcomes, code := ApplyPlan(rules, embed, filtered, disk);
    lock' := LockFromOutcomes(lock, outcomes);
    applied := CountWritten(outcomes);
  }

  method Filter(fullPlan: seq<Item>) returns (filtered: seq<Item>)
    ensures filtered == Candidates(fullPlan)
  {
    filtered := [];
    for i := 0 to |fullPlan|
      invariant filtered == Candidates(fullPlan[..i])
    {
      assert fullPlan[..i + 1][..i] == fullPlan[..i];
      if fullPlan[i].class_ == Managed && fullPlan[i].action == FastForward {
        filtered := filtered + [fullPlan[i]];
      }
    }
    assert fullPlan[..|fullPlan|] == fullPlan;
  }

  function WrittenCount(outcomes: seq<Outcome>): nat {
    if outcomes == [] then 0
    else WrittenCount(outcomes[..|outcomes| - 1]) + if outcomes[|outcomes| - 1].written then 1 else 0
  }

  method CountWritten(outcomes: seq<Outcome>) returns (applied: nat)
    ensures applied == WrittenCount(outcomes)
  {
    applied := 0;
    for i := 0 to |outcomes|
      invariant applied == WrittenCount(outcomes[..i])
    {
      assert outcomes[..i + 1][..i] == outcomes[..i];
      if outcomes[i].written {
        applied := applied + 1;
      }
    }
    assert outcomes[..|outcomes|] == outcomes;
  }
}
