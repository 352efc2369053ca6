/** The asset planner: how an embedded asset is classified, the 3-way reconcile of
    manifest, lock and disk hashes, and the lock's two file forms. */
module AssetPlan {
  import opened Order
  import opened Results

  datatype AssetClass = Managed | ManagedRegion | ContentOwned | Scaffold | Script | Unclassified

  datatype FileEntry = FileEntry(path: string, sha256: string, class_: AssetClass)

  datatype Manifest = Manifest(formatVersion: int, files: seq<FileEntry>)

  datatype LockEntry = LockEntry(path: string, sha256: string)

  datatype Lock = Lock(formatVersion: int, files: map<string, LockEntry>)

  datatype Action = Skip | Create | FastForward | Conflict | Leave

  /** One verdict of the planner; the human-readable reason is not kept. */
  datatype Item = Item(path: string, class_: AssetClass, action: Action, embedSha: string, lockSha: string, diskSha: string)

  const EMBED_ROOT := "assets"
  const LOCK_FORMAT_VERSION := 1

  function TrimPrefix(s: string, prefix: string): string {
    if prefix <= s then s[|prefix|..] else s
  }

  function Relative(path: string): string {
    TrimPrefix(path, EMBED_ROOT + "/")
  }

  function Classify(path: string): AssetClass {
    var rel := Relative(path);
    if "skills/" <= rel then Managed
    else if "scripts/" <= rel then Script
    else if "templates/" <= rel then ManagedRegion
    else if "context/" <= rel then ContentOwned
    else if "scaffolds/" <= rel then Scaffold
    else Unclassified
  }

  // ---- The planner ----

  /** The entry that building a map from the files, in order, leaves for each path. */
  function ByPath(files: seq<FileEntry>): map<string, FileEntry> {
    if files == [] then map[]
    else ByPath(files[..|files| - 1])[files[|files| - 1].path := files[|files| - 1]]
  }

  /** A map lookup that yields "" for an absent key. */
  function ShaOr(m: map<string, string>, path: string): string {
    if path in m then m[path] else ""
  }

  function LockShaOr(files: map<string, LockEntry>, path: string): string {
    if path in files then files[path].sha256 else ""
  }

  function ActionFor(embed: Option<string>, lock: Option<string>, disk: string): Action {
    match embed
    case None => Leave
    case Some(embedSha) =>
      match lock
      case None => if disk == "" then Create else if disk == embedSha then Skip else Conflict
      case Some(lockSha) =>
        if embedSha == lockSha then (if disk == "" then Create else Skip)
        else if disk == embedSha then Skip
        else if disk == lockSha then FastForward
        else if disk == "" then Create
        else Conflict
  }

  function ItemFor(path: string, embed: map<string, FileEntry>, lock: map<string, LockEntry>, disk: map<string, string>): Item {
    var embedSha := if path in embed then Some(embed[path].sha256) else None;
    var lockSha := if path in lock then Some(lock[path].sha256) else None;
    Item(path, if path in embed then embed[path].class_ else Classify(path),
         ActionFor(embedSha, lockSha, ShaOr(disk, path)),
         if embedSha.Some? then embedSha.value else "", LockShaOr(lock, path), ShaOr(disk, path))
  }

  function ItemsFor(paths: seq<string>, embed: map<string, FileEntry>, lock: map<string, LockEntry>, disk: map<string, string>): (r: seq<Item>)
    ensures |r| == |paths|
    ensures forall i :: 0 <= i < |paths| ==> r[i] == ItemFor(paths[i], embed, lock, disk)
  {
    seq(|paths|, i requires 0 <= i < |paths| => ItemFor(paths[i], embed, lock, disk))
  }

  function Planned(m: Manifest, lock: Lock, disk: map<string, string>): seq<Item> {
    var embed := ByPath(m.files);
    ItemsFor(Sorted(embed.Keys + disk.Keys), embed, lock.files, disk)
  }

  method Reconcile(m: Manifest, lock: Lock, disk: map<string, string>) returns (items: seq<Item>)
    ensures items == Planned(m, lock, disk)
  {
    var embed: map<string, FileEntry> := map[];
    for i := 0 to |m.files|
      invariant embed == ByPath(m.files[..i])
    {
      assert m.files[..i + 1][..i] == m.files[..i];
      embed := embed[m.files[i].path := m.files[i]];
    }
    assert m.files[..|m.files|] == m.files;
    var paths := Sorted(embed.Keys + disk.Keys);
    items := [];
    for i := 0 to |paths|
      invariant |items| == i
      invariant forall j :: 0 <= j < i ==> items[j] == ItemFor(paths[j], embed, lock.files, disk)
    {
      var p := paths[i];
      var diskSha := if p in disk then disk[p] else "";
      var item := Item(p, Unclassified, Skip, if p in embed then embed[p].sha256 else "",
                       if p in lock.files then lock.files[p].sha256 else "", diskSha);
      if p !in embed {
        item := item.(class_ := Classify(p), action := Leave);
      } else if p !in lock.files {
        item := item.(class_ := embed[p].class_);
        if diskSha == "" {
          item := item.(action := Create);
        } else if diskSha == embed[p].sha256 {
          item := item.(action := Skip);
        } else {
          item := item.(action := Conflict);
        }
      } else {
        item := item.(class_ := embed[p].class_);
        var embedSha, lockSha := embed[p].sha256, lock.files[p].sha256;
        if embedSha == lockSha {
          item := item.(action := if diskSha == "" then Create else Skip);
        } else if diskSha == embedSha {
          item := item.(action := Skip);
        } else if diskSha == lockSha {
          item := item.(action := FastForward);
        } else if diskSha == "" {
          item := item.(action := Create);
        } else {
          item := item.(action := Conflict);
        }
      }
      items := items + [item];
    }
  }

  // ---- What a plan says ----

  lemma {:induction false} ByPathKeys(files: seq<FileEntry>, path: string)
    ensures path in ByPath(files) <==> exists i :: 0 <= i < |files| && files[i].path == path
    ensures path in ByPath(files) ==> ByPath(files)[path] in files && ByPath(files)[path].path == path
  {
    if files != [] {
      var n := |files| - 1;
      ByPathKeys(files[..n], path);
      assert files == files[..n] + [files[n]];
      if i :| 0 <= i < |files| && files[i].path == path {
        if i < n {
          assert files[..n][i].path == path;
        }
      }
    }
  }

  predicate InManifest(m: Manifest, path: string) {
    exists i :: 0 <= i < |m.files| && m.files[i].path == path
  }

  predicate InPlan(plan: seq<Item>, path: string) {
    exists i :: 0 <= i < |plan| && plan[i].path == path
  }

  /** The plan has one item for each path that the manifest or the disk map names,
      none for any other, in strictly ascending order. */
  lemma OneItemPerPath(m: Manifest, lock: Lock, disk: map<string, string>)
    ensures var plan := Planned(m, lock, disk);
      && (forall i, j :: 0 <= i < j < |plan| ==> Less(plan[i].path, plan[j].path))
      && (forall p :: InPlan(plan, p) <==> p in disk || InManifest(m, p))
  {
    var embed := ByPath(m.files);
    var paths := Sorted(embed.Keys + disk.Keys);
    var plan := Planned(m, lock, disk);
    forall p ensures InPlan(plan, p) <==> p in disk || InManifest(m, p) {
      ByPathKeys(m.files, p);
      assert p in paths <==> p in embed.Keys + disk.Keys;
      if p in paths {
        var i :| 0 <= i < |paths| && paths[i] == p;
        assert plan[i].path == p;
      }
      if i :| 0 <= i < |plan| && plan[i].path == p {
        assert paths[i] in paths;
      }
    }
  }

  /** The item of a path is the code's verdict on it. */
  lemma PlannedItem(m: Manifest, lock: Lock, disk: map<string, string>, item: Item)
    ensures item in Planned(m, lock, disk) <==>
      (item.path in ByPath(m.files) || item.path in disk) && item == ItemFor(item.path, ByPath(m.files), lock.files, disk)
  {
    var embed := ByPath(m.files);
    var paths := Sorted(embed.Keys + disk.Keys);
    var plan := Planned(m, lock, disk);
    assert item.path in paths <==> item.path in embed.Keys + disk.Keys;
    if item in plan {
      var k :| 0 <= k < |plan| && plan[k] == item;
      assert item.path == paths[k];
    }
    if item.path in paths && item == ItemFor(item.path, embed, lock.files, disk) {
      var k :| 0 <= k < |paths| && paths[k] == item.path;
      assert plan[k] == item;
    }
  }

  /** The documented matrix, read as a table over what is present where. */
  function Matrix(embed: Option<string>, lock: Option<string>, disk: Option<string>): Action {
    if embed.None? then Leave
    else if disk.None? then Create
    else if embed == lock || embed == disk then Skip
    else if disk == lock then FastForward
    else Conflict
  }

  function Present(sha: string): Option<string> {
    if sha == "" then None else Some(sha)
  }

  /** The code decides by that table for every non-empty manifest hash exactly when
      it is not asked about an absent file whose lock entry has an empty hash: that
      one it takes for a file equal to the lock. */
  lemma FollowsMatrixExactly(embed: Option<string>, lock: Option<string>, disk: string)
    requires embed != Some("")
    ensures ActionFor(embed, lock, disk) == Matrix(embed, lock, Present(disk)) <==>
      !(embed.Some? && lock == Some("") && disk == "")
  {
  }

  // ---- The lock file ----

  /** Every manifest entry at the hash the binary ships. */
  method LockFromManifest(m: Manifest) returns (l: Lock)
    ensures l == ShippedLock(m)
  {
    var files: map<string, LockEntry> := map[];
    for i := 0 to |m.files|
      invariant files == Stamps(ByPath(m.files[..i]))
    {
      assert m.files[..i + 1][..i] == m.files[..i];
      files := files[m.files[i].path := LockEntry(m.files[i].path, m.files[i].sha256)];
    }
    assert m.files[..|m.files|] == m.files;
    l := Lock(LOCK_FORMAT_VERSION, files);
  }

  function Stamps(embed: map<string, FileEntry>): map<string, LockEntry> {
    map p | p in embed :: LockEntry(p, embed[p].sha256)
  }

  function ShippedLock(m: Manifest): Lock {
    Lock(LOCK_FORMAT_VERSION, Stamps(ByPath(m.files)))
  }

  /** The records of a lock file in order, and its format version. */
  datatype LockFile = LockFile(formatVersion: int, entries: seq<LockEntry>)

  function EntriesAt(paths: seq<string>, files: map<string, LockEntry>): (r: seq<LockEntry>)
    requires forall p :: p in paths ==> p in files
    ensures |r| == |paths|
    ensures forall i :: 0 <= i < |paths| ==> r[i] == LockEntry(paths[i], files[paths[i]].sha256)
  {
    seq(|paths|, i requires 0 <= i < |paths| => LockEntry(paths[i], files[paths[i]].sha256))
  }

  function Written(l: Lock): LockFile {
    LockFile(if l.formatVersion == 0 then LOCK_FORMAT_VERSION else l.formatVersion,
             EntriesAt(Sorted(l.files.Keys), l.files))
  }

  method WriteLock(l: Lock) returns (file: LockFile)
    ensures file == Written(l)
  {
    var paths := Sorted(l.files.Keys);
    var entries: seq<LockEntry> := [];
    for i := 0 to |paths|
      invariant |entries| == i
      invariant forall j :: 0 <= j < i ==> entries[j] == LockEntry(paths[j], l.files[paths[j]].sha256)
    {
      assert paths[i] in paths;
      var e := l.files[paths[i]];
      entries := entries + [e.(path := paths[i])];
    }
    assert entries == EntriesAt(paths, l.files);
    file := LockFile(if l.formatVersion == 0 then LOCK_FORMAT_VERSION else l.formatVersion, entries);
  }

  function EntryMap(entries: seq<LockEntry>): map<string, LockEntry> {
    if entries == [] then map[]
    else EntryMap(entries[..|entries| - 1])[entries[|entries| - 1].path := entries[|entries| - 1]]
  }

  /** An absent lock file is an empty lock, not an error. */
  method ReadLock(file: Option<LockFile>) returns (l: Lock)
    ensures file.None? ==> l == Lock(LOCK_FORMAT_VERSION, map[])
    ensures file.Some? ==> l == Lock(file.value.formatVersion, EntryMap(file.value.entries))
  {
    if file.None? {
      return Lock(LOCK_FORMAT_VERSION, map[]);
    }
    var entries := file.value.entries;
    var files: map<string, LockEntry> := map[];
    for i := 0 to |entries|
      invariant files == EntryMap(entries[..i])
    {
      assert entries[..i + 1][..i] == entries[..i];
      files := files[entries[i].path := LockEntry(entries[i].path, entries[i].sha256)];
    }
    assert entries[..|entries|] == entries;
    l := Lock(file.value.formatVersion, files);
  }

  ghost predicate WellKeyed(l: Lock) {
    forall p :: p in l.files ==> l.files[p].path == p
  }

  lemma {:induction false} EntryMapAt(paths: seq<string>, files: map<string, LockEntry>)
    requires forall p :: p in paths ==> p in files
    ensures EntryMap(EntriesAt(paths, files)) == map p | p in paths :: LockEntry(p, files[p].sha256)
  {
    if paths != [] {
      var n := |paths| - 1;
      EntryMapAt(paths[..n], files);
      assert EntriesAt(paths, files)[..n] == EntriesAt(paths[..n], files);
      assert paths == paths[..n] + [paths[n]];
    }
  }

  /** A written lock reads back as itself, and locks with the same entries are
      written identically. Version 0 comes back as the current version. */
  lemma LockRoundTrip(l: Lock)
    requires WellKeyed(l)
    ensures EntryMap(Written(l).entries) == l.files
    ensures Written(l).formatVersion == if l.formatVersion == 0 then 1 else l.formatVersion
    ensures Written(Lock(Written(l).formatVersion, EntryMap(Written(l).entries))) == Written(l)
  {
    EntryMapAt(Sorted(l.files.Keys), l.files);
  }

  // ---- Convergence of the documented actions ----

  /** The disk hash that an item's documented action leaves: create and
      fast-forward write the embedded bytes, every other action leaves the file. */
  function Applied(plan: seq<Item>, disk: map<string, string>): map<string, string> {
    if plan == [] then disk
    else
      var item := plan[|plan| - 1];
      var before := Applied(plan[..|plan| - 1], disk);
      if item.action.Create? || item.action.FastForward? then before[item.path := item.embedSha] else before
  }

  ghost predicate OnePerPath(plan: seq<Item>) {
    forall i, j :: 0 <= i < j < |plan| ==> plan[i].path != plan[j].path
  }

  predicate Writes(item: Item) {
    item.action.Create? || item.action.FastForward?
  }

  lemma {:induction false} AppliedKeeps(plan: seq<Item>, disk: map<string, string>, path: string)
    requires forall item :: item in plan && item.path == path ==> !Writes(item)
    ensures path in Applied(plan, disk) <==> path in disk
    ensures ShaOr(Applied(plan, disk), path) == ShaOr(disk, path)
  {
    if plan != [] {
      var n := |plan| - 1;
      assert plan[n] in plan;
      AppliedKeeps(plan[..n], disk, path);
    }
  }

  lemma {:induction false} AppliedAt(plan: seq<Item>, disk: map<string, string>, k: nat)
    requires OnePerPath(plan) && k < |plan|
    ensures ShaOr(Applied(plan, disk), plan[k].path) ==
      if Writes(plan[k]) then plan[k].embedSha else ShaOr(disk, plan[k].path)
  {
    var n := |plan| - 1;
    if k < n {
      assert plan[..n][k] == plan[k];
      AppliedAt(plan[..n], disk, k);
    } else {
      AppliedKeeps(plan[..n], disk, plan[n].path);
    }
  }

  /** Apply a plan and stamp the shipped lock: reconciling again finds only paths
      to skip or to leave, for any starting lock and disk. */
  lemma Converges(m: Manifest, lock: Lock, disk: map<string, string>, item: Item)
    requires forall e :: e in m.files ==> e.sha256 != ""
    requires item in Planned(m, ShippedLock(m), Applied(Planned(m, lock, disk), disk))
    ensures item.action.Skip? || item.action.Leave?
  {
    var embed := ByPath(m.files);
    var plan := Planned(m, lock, disk);
    var p := item.path;
    PlannedItem(m, ShippedLock(m), Applied(plan, disk), item);
    ByPathKeys(m.files, p);
    if p in embed {
      var first := ItemFor(p, embed, lock.files, disk);
      PlannedItem(m, lock, disk, first);
      PlanOnePerPath(m, lock, disk);
      var k :| 0 <= k < |plan| && plan[k] == first;
      AppliedAt(plan, disk, k);
      assert ShaOr(Applied(plan, disk), p) != "";
    }
  }

  lemma PlanOnePerPath(m: Manifest, lock: Lock, disk: map<string, string>)
    ensures OnePerPath(Planned(m, lock, disk))
  {
    var plan := Planned(m, lock, disk);
    OneItemPerPath(m, lock, disk);
    forall i, j | 0 <= i < j < |plan| ensures plan[i].path != plan[j].path {
      LessAsymmetric(plan[i].path, plan[j].path);
    }
  }
}
