/** The digests of manifest and lock, and the skew check that compares them. */
module AssetDigest {
  import opened Order
  import opened AssetPlan
  import opened Results

  /** The hash is a parameter of the model; where its values matter, it is taken to
      have no collisions and never to be empty. */
  type Hash = string -> string

  ghost predicate CollisionFree(sha: Hash) {
    && (forall a :: sha(a) != "")
    && (forall a, b :: sha(a) == sha(b) ==> a == b)
  }

  // ---- The digest texts ----

  function Line(path: string, sha: string): string {
    path + ":" + sha + "\n"
  }

  function Text(paths: seq<string>, shas: map<string, string>): string {
    if paths == [] then "" else Line(paths[0], ShaOr(shas, paths[0])) + Text(paths[1..], shas)
  }

  lemma {:induction false} TextSnoc(paths: seq<string>, last: string, shas: map<string, string>)
    ensures Text(paths + [last], shas) == Text(paths, shas) + Line(last, ShaOr(shas, last))
  {
    if paths == [] {
      assert [last][1..] == [];
      assert paths + [last] == [last];
    } else {
      TextSnoc(paths[1..], last, shas);
      assert (paths + [last])[1..] == paths[1..] + [last];
    }
  }

  function Digested(shas: map<string, string>): string {
    Text(Sorted(shas.Keys), shas)
  }

  function ManifestShas(m: Manifest): map<string, string> {
    map p | p in ByPath(m.files) :: ByPath(m.files)[p].sha256
  }

  function LockShas(l: Lock): map<string, string> {
    map p | p in l.files :: l.files[p].sha256
  }

  predicate UniquePaths(m: Manifest) {
    forall i, j :: 0 <= i < j < |m.files| ==> m.files[i].path != m.files[j].path
  }

  /** A manifest lists its paths as they come, so the sorted listing is the sorted
      set of paths only because no path comes twice. */
  method ManifestDigest(sha: Hash, m: Manifest) returns (digest: string)
    requires UniquePaths(m)
    ensures digest == sha(Digested(ManifestShas(m)))
  {
    var paths: set<string> := {};
    var shaByPath: map<string, string> := map[];
    for i := 0 to |m.files|
      invariant paths == ByPath(m.files[..i]).Keys
      invariant shaByPath == ManifestShas(Manifest(m.formatVersion, m.files[..i]))
    {
      assert m.files[..i + 1][..i] == m.files[..i];
      paths := paths + {m.files[i].path};
      shaByPath := shaByPath[m.files[i].path := m.files[i].sha256];
    }
    assert m.files[..|m.files|] == m.files;
    assert paths == shaByPath.Keys;
    var b := DigestText(Sorted(paths), shaByPath);
    digest := sha(b);
  }

  method LockDigest(sha: Hash, l: Lock) returns (digest: string)
    ensures digest == sha(Digested(LockShas(l)))
  {
    assert LockShas(l).Keys == l.files.Keys;
    var b := DigestText(Sorted(l.files.Keys), LockShas(l));
    digest := sha(b);
  }

  method DigestText(paths: seq<string>, shas: map<string, string>) returns (b: string)
    ensures b == Text(paths, shas)
  {
    b := "";
    for i := 0 to |paths|
      invariant b == Text(paths[..i], shas)
    {
      TextSnoc(paths[..i], paths[i], shas);
      assert paths[..i + 1] == paths[..i] + [paths[i]];
      b := b + paths[i];
      b := b + ":";
      b := b + ShaOr(shas, paths[i]);
      b := b + "\n";
    }
    assert paths[..|paths|] == paths;
  }

  // ---- What equal digests mean ----

  /** Newline-free paths, and hashes with neither a newline nor a colon. */
  ghost predicate Clean(shas: map<string, string>) {
    forall p :: p in shas ==> '\n' !in p && '\n' !in shas[p] && ':' !in shas[p]
  }

  lemma LineSplits(p: string, s: string, r: string, p': string, s': string, r': string)
    requires Line(p, s) + r == Line(p', s') + r'
    requires '\n' !in p && '\n' !in s && ':' !in s
    requires '\n' !in p' && '\n' !in s' && ':' !in s'
    ensures p == p' && s == s' && r == r'
  {
    var x, x' := p + ":" + s, p' + ":" + s';
    assert Line(p, s) + r == x + ("\n" + r);
    assert Line(p', s') + r' == x' + ("\n" + r');
    FirstBreak(x, r, x', r', '\n');
    // The last colon ends the path, so the same argument works from the right.
    assert x[|p|] == ':' && x'[|p'|] == ':';
    assert forall k :: |p| < k < |x| ==> x[k] == s[k - |p| - 1];
    assert forall k :: |p'| < k < |x'| ==> x'[k] == s'[k - |p'| - 1];
    assert |p| == |p'|;
    assert p == x[..|p|] && p' == x'[..|p|];
    assert s == x[|p| + 1..] && s' == x'[|p| + 1..];
  }

  lemma FirstBreak(x: string, r: string, x': string, r': string, c: char)
    requires x + ([c] + r) == x' + ([c] + r')
    requires c !in x && c !in x'
    ensures x == x' && r == r'
  {
    var whole := x + ([c] + r);
    assert whole[|x|] == c && whole[|x'|] == c;
    assert forall k :: 0 <= k < |x| ==> whole[k] == x[k];
    assert forall k :: 0 <= k < |x'| ==> whole[k] == x'[k];
    assert |x| == |x'|;
    assert x == whole[..|x|] && x' == whole[..|x|];
    assert r == whole[|x| + 1..] && r' == whole[|x| + 1..];
  }

  lemma {:induction false} TextsEqual(paths: seq<string>, a: map<string, string>, paths': seq<string>, b: map<string, string>)
    requires Clean(a) && Clean(b)
    requires (forall p :: p in paths ==> p in a) && (forall p :: p in paths' ==> p in b)
    requires Text(paths, a) == Text(paths', b)
    ensures paths == paths'
    ensures forall p :: p in paths ==> a[p] == b[p]
  {
    if paths != [] && paths' != [] {
      var p, p' := paths[0], paths'[0];
      LineSplits(p, a[p], Text(paths[1..], a), p', b[p'], Text(paths'[1..], b));
      TextsEqual(paths[1..], a, paths'[1..], b);
      assert paths == [p] + paths[1..] && paths' == [p] + paths'[1..];
    }
  }

  /** Two digest texts are equal exactly when the path-to-hash maps are. */
  lemma DigestedEqualExactly(a: map<string, string>, b: map<string, string>)
    requires Clean(a) && Clean(b)
    ensures Digested(a) == Digested(b) <==> a == b
  {
    if Digested(a) == Digested(b) {
      TextsEqual(Sorted(a.Keys), a, Sorted(b.Keys), b);
      assert forall p :: p in a <==> p in Sorted(a.Keys);
      assert forall p :: p in b <==> p in Sorted(b.Keys);
      assert a.Keys == b.Keys;
    }
  }

  predicate Skewed(sha: Hash, m: Manifest, l: Lock) {
    sha(Digested(ManifestShas(m))) != sha(Digested(LockShas(l)))
  }

  /** Skew means exactly that some path is shipped and recorded differently, or is
      only shipped, or is only recorded. */
  lemma SkewedExactly(sha: Hash, m: Manifest, l: Lock)
    requires CollisionFree(sha) && Clean(ManifestShas(m)) && Clean(LockShas(l))
    ensures Skewed(sha, m, l) <==> ManifestShas(m) != LockShas(l)
  {
    DigestedEqualExactly(ManifestShas(m), LockShas(l));
  }

  /** Without skew, reconciling finds nothing to fast-forward and no conflict,
      whatever is on disk: the check's early return can hide only restores of
      shipped files that are missing from disk. */
  lemma EarlyReturnHidesOnlyRestores(sha: Hash, m: Manifest, l: Lock, disk: map<string, string>, item: Item)
    requires CollisionFree(sha) && Clean(ManifestShas(m)) && Clean(LockShas(l))
    requires !Skewed(sha, m, l) && item in Planned(m, l, disk)
    ensures !item.action.FastForward? && !item.action.Conflict?
    ensures item.action.Create? <==> item.path in ManifestShas(m) && item.diskSha == ""
  {
    SkewedExactly(sha, m, l);
    PlannedItem(m, l, disk, item);
    var p := item.path;
    assert p in ByPath(m.files) <==> p in ManifestShas(m);
    assert p in l.files <==> p in LockShas(l);
    if p in ManifestShas(m) {
      assert ManifestShas(m)[p] == LockShas(l)[p];
    }
  }

  // ---- The skew check ----

  datatype SkewResult = SkewResult(skewed: bool, changed: nat, conflicts: nat, autoApply: nat,
                                   binaryDigest: string, lockDigest: string, neverSynced: bool)

  predicate Changes(item: Item) {
    !item.action.Skip? && !item.action.Leave?
  }

  predicate Conflicts(item: Item) {
    item.action.Conflict?
  }

  predicate AutoApplicable(item: Item) {
    item.class_.Managed? && item.action.FastForward?
  }

  function PathsWhere(items: seq<Item>, f: Item -> bool): set<string> {
    set i | 0 <= i < |items| && f(items[i]) :: items[i].path
  }

  lemma PathsWhereStep(items: seq<Item>, i: nat, f: Item -> bool)
    requires OnePerPath(items) && i < |items|
    ensures |PathsWhere(items[..i + 1], f)| == |PathsWhere(items[..i], f)| + if f(items[i]) then 1 else 0
  {
    var before, after := PathsWhere(items[..i], f), PathsWhere(items[..i + 1], f);
    forall p ensures p in after <==> p in before || (f(items[i]) && p == items[i].path) {
      if p in before {
        var k :| 0 <= k < i && f(items[..i][k]) && items[..i][k].path == p;
        assert items[..i + 1][k].path == p;
      }
      if f(items[i]) {
        assert items[..i + 1][i].path == items[i].path;
      }
      if p in after {
        var k :| 0 <= k < i + 1 && f(items[..i + 1][k]) && items[..i + 1][k].path == p;
        if k < i {
          assert items[..i][k].path == p;
        }
      }
    }
    assert forall k :: 0 <= k < i ==> items[..i][k].path != items[i].path;
    assert after == if f(items[i]) then before + {items[i].path} else before;
  }

  /** The manifest paths whose lock entry is absent or has another hash. */
  function Unstamped(m: Manifest, l: Lock): set<string> {
    set p | p in ByPath(m.files) && (p !in l.files || l.files[p].sha256 != ByPath(m.files)[p].sha256)
  }

  lemma UnstampedStep(m: Manifest, l: Lock, i: nat)
    requires UniquePaths(m) && i < |m.files|
    ensures var f := m.files[i];
      |Unstamped(Manifest(m.formatVersion, m.files[..i + 1]), l)| ==
      |Unstamped(Manifest(m.formatVersion, m.files[..i]), l)|
      + if f.path !in l.files || l.files[f.path].sha256 != f.sha256 then 1 else 0
  {
    var f := m.files[i];
    var before, after := Unstamped(Manifest(m.formatVersion, m.files[..i]), l), Unstamped(Manifest(m.formatVersion, m.files[..i + 1]), l);
    assert m.files[..i + 1][..i] == m.files[..i];
    ByPathKeys(m.files[..i], f.path);
    assert f.path !in ByPath(m.files[..i]);
    assert after == if f.path !in l.files || l.files[f.path].sha256 != f.sha256 then before + {f.path} else before;
  }

  /** `disk` is None when no disk hasher was given. */
  method CheckAssetSkew(sha: Hash, build: Result<Manifest>, read: Result<Lock>, disk: Option<Result<map<string, string>>>)
    returns (res: Result<SkewResult>)
    requires build.Ok? ==> UniquePaths(build.value)
    ensures res.Err? <==>
      (build.Err? || read.Err? || (Skewed(sha, build.value, read.value) && disk.Some? && disk.value.Err?))
    ensures res.Ok? ==> res.value.binaryDigest == sha(Digested(ManifestShas(build.value)))
    ensures res.Ok? ==> res.value.lockDigest == sha(Digested(LockShas(read.value)))
    ensures res.Ok? ==> res.value.skewed == Skewed(sha, build.value, read.value)
    ensures res.Ok? ==> (res.value.neverSynced <==> read.value.files == map[])
    ensures res.Ok? && !res.value.skewed ==> res.value.changed == res.value.conflicts == res.value.autoApply == 0
    ensures res.Ok? && res.value.skewed && disk.Some? ==>
      var plan := Planned(build.value, read.value, disk.value.value);
      && res.value.changed == |PathsWhere(plan, Changes)|
      && res.value.conflicts == |PathsWhere(plan, Conflicts)|
      && res.value.autoApply == |PathsWhere(plan, AutoApplicable)|
    ensures res.Ok? && res.value.skewed && disk.None? ==>
      && res.value.changed == |Unstamped(build.value, read.value)|
      && res.value.conflicts == res.value.autoApply == 0
  {
    if build.Err? {
      return Err(build.error);
    }
    if read.Err? {
      return Err(read.error);
    }
    var m, lock := build.value, read.value;
    var binaryDigest := ManifestDigest(sha, m);
    var lockDigest := LockDigest(sha, lock);
    var changed, conflicts, autoApply := 0, 0, 0;
    var neverSynced := |lock.files| == 0;
    if binaryDigest == lockDigest {
      return Ok(SkewResult(false, 0, 0, 0, binaryDigest, lockDigest, neverSynced));
    }
    if disk.Some? {
      if disk.value.Err? {
        return Err(disk.value.error);
      }
      var plan := Reconcile(m, lock, disk.value.value);
      PlanOnePerPath(m, lock, disk.value.value);
      changed, conflicts, autoApply := CountPlan(plan);
      return Ok(SkewResult(true, changed, conflicts, autoApply, binaryDigest, lockDigest, neverSynced));
    }
    changed := CountUnstamped(m, lock);
    res := Ok(SkewResult(true, changed, 0, 0, binaryDigest, lockDigest, neverSynced));
  }

  method CountPlan(plan: seq<Item>) returns (changed: nat, conflicts: nat, autoApply: nat)
    requires OnePerPath(plan)
    ensures changed == |PathsWhere(plan, Changes)|
    ensures conflicts == |PathsWhere(plan, Conflicts)|
    ensures autoApply == |PathsWhere(plan, AutoApplicable)|
  {
    changed, conflicts, autoApply := 0, 0, 0;
    for i := 0 to |plan|
      invariant changed == |PathsWhere(plan[..i], Changes)|
      invariant conflicts == |PathsWhere(plan[..i], Conflicts)|
      invariant autoApply == |PathsWhere(plan[..i], AutoApplicable)|
    {
      PathsWhereStep(plan, i, Changes);
      PathsWhereStep(plan, i, Conflicts);
      PathsWhereStep(plan, i, AutoApplicable);
      match plan[i].action
      case Skip =>
      case Leave =>
      case Conflict =>
        changed := changed + 1;
        conflicts := conflicts + 1;
      case _ =>
        changed := changed + 1;
        if plan[i].class_ == Managed && plan[i].action == FastForward {
          autoApply := autoApply + 1;
        }
    }
    assert plan[..|plan|] == plan;
  }

  method CountUnstamped(m: Manifest, lock: Lock) returns (changed: nat)
    requires UniquePaths(m)
    ensures changed == |Unstamped(m, lock)|
  {
    changed := 0;
    for i := 0 to |m.files|
      invariant changed == |Unstamped(Manifest(m.formatVersion, m.files[..i]), lock)|
    {
      UnstampedStep(m, lock, i);
      var f := m.files[i];
      if f.path !in lock.files || lock.files[f.path].sha256 != f.sha256 {
        changed := changed + 1;
      }
    }
    assert m.files[..|m.files|] == m.files;
  }

  // ---- The two counts ----

  /** Shipped files at their recorded hash that are missing from disk. */
  function Restores(m: Manifest, l: Lock, disk: map<string, string>): set<string> {
    set p | p in ByPath(m.files) && p !in Unstamped(m, l) && ShaOr(disk, p) == ""
  }

  /** Shipped files that are on disk as shipped although the lock does not say so. */
  function AlreadyThere(m: Manifest, l: Lock, disk: map<string, string>): set<string> {
    set p | p in Unstamped(m, l) && ShaOr(disk, p) == ByPath(m.files)[p].sha256
  }

  lemma ChangedPaths(m: Manifest, l: Lock, disk: map<string, string>, p: string)
    requires forall e :: e in m.files ==> e.sha256 != ""
    ensures p in PathsWhere(Planned(m, l, disk), Changes) <==>
      p in ByPath(m.files) && p !in AlreadyThere(m, l, disk) && (p in Unstamped(m, l) || p in Restores(m, l, disk))
  {
    var plan := Planned(m, l, disk);
    var item := ItemFor(p, ByPath(m.files), l.files, disk);
    PlannedItem(m, l, disk, item);
    ByPathKeys(m.files, p);
    if p in PathsWhere(plan, Changes) {
      var i :| 0 <= i < |plan| && Changes(plan[i]) && plan[i].path == p;
      PlannedItem(m, l, disk, plan[i]);
    }
    if item in plan && Changes(item) {
      var i :| 0 <= i < |plan| && plan[i] == item;
      assert Changes(plan[i]) && plan[i].path == p;
    }
  }

  /** The exact balance between the count taken with disk hashes and the count
      taken without: the second misses every restore and adds every file that is
      already there. It is the promised over-estimate if and only if there are no
      more restores than files already there. */
  lemma CountsBalance(m: Manifest, l: Lock, disk: map<string, string>)
    requires forall e :: e in m.files ==> e.sha256 != ""
    ensures |PathsWhere(Planned(m, l, disk), Changes)| + |AlreadyThere(m, l, disk)|
      == |Unstamped(m, l)| + |Restores(m, l, disk)|
    ensures |PathsWhere(Planned(m, l, disk), Changes)| <= |Unstamped(m, l)| <==>
      |Restores(m, l, disk)| <= |AlreadyThere(m, l, disk)|
  {
    forall p
      ensures p in PathsWhere(Planned(m, l, disk), Changes) <==>
        p !in AlreadyThere(m, l, disk) && (p in Unstamped(m, l) || p in Restores(m, l, disk))
    {
      ChangedPaths(m, l, disk, p);
    }
    Balance(PathsWhere(Planned(m, l, disk), Changes), AlreadyThere(m, l, disk), Unstamped(m, l), Restores(m, l, disk));
  }

  lemma Balance(changed: set<string>, there: set<string>, unstamped: set<string>, restores: set<string>)
    requires there <= unstamped && restores !! unstamped
    requires forall p :: p in changed <==> p !in there && (p in unstamped || p in restores)
    ensures |changed| + |there| == |unstamped| + |restores|
  {
    assert changed + there == unstamped + restores;
    assert changed !! there;
  }

  /** One shipped file at its recorded hash that the user has deleted: the count
      without disk hashes is too small. */
  lemma DeletedFileIsMissed(path: string, class_: AssetClass, h: string)
    requires h != ""
    ensures var m, l := Manifest(1, [FileEntry(path, h, class_)]), Lock(1, map[path := LockEntry(path, h)]);
      |Unstamped(m, l)| == 0 && |PathsWhere(Planned(m, l, map[]), Changes)| == 1
  {
    var m, l := Manifest(1, [FileEntry(path, h, class_)]), Lock(1, map[path := LockEntry(path, h)]);
    assert m.files[..0] == [];
    assert ByPath(m.files) == map[path := m.files[0]];
    assert Unstamped(m, l) == {} && AlreadyThere(m, l, map[]) == {} && Restores(m, l, map[]) == {path};
    CountsBalance(m, l, map[]);
  }
}
