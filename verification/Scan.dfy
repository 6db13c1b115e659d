/** The recursive scanner: from a root directory it appends the full path of
    every file not excluded, then, for each subdirectory not excluded, that
    subdirectory's path followed by everything found inside it. On Windows a
    reserved system folder that is itself a disk root is skipped. The pattern
    matcher is not part of this model: the exclusion tests are parameters. */
module Scan {
  import opened PathText
  import opened FileTree
  import opened Blocks

  datatype ScanConfig = ScanConfig(
    onWindows: bool,
    excludeFile: string -> bool,
    excludeDirectory: string -> bool)

  /** The `Files` and `Directories` lists of the operation details. */
  datatype Listing = Listing(files: seq<string>, directories: seq<string>)

  const NoEntries: Listing := Listing([], [])

  function Then(a: Listing, b: Listing): Listing {
    Listing(a.files + b.files, a.directories + b.directories)
  }

  lemma ThenAssociates(a: Listing, b: Listing, c: Listing)
    ensures Then(Then(a, b), c) == Then(a, Then(b, c))
  {
    assert (a.files + b.files) + c.files == a.files + (b.files + c.files);
    assert (a.directories + b.directories) + c.directories == a.directories + (b.directories + c.directories);
  }

  /** The Windows-only guard at the top of the scan: the path being scanned is
      a disk root and ends with a reserved folder name. */
  predicate SkipsReservedRoot(cfg: ScanConfig, path: string) {
    cfg.onWindows && IsPathAtDiskRoot(path) && EndsWithReservedName(path)
  }

  /** The file loop of one directory: the files no exclusion pattern matches,
      in listing order. */
  function KeptFiles(files: seq<string>, cfg: ScanConfig): (kept: seq<string>)
    ensures forall f :: multiset(kept)[f] == if cfg.excludeFile(f) then 0 else multiset(files)[f]
    ensures forall i :: 0 <= i < |kept| ==> !cfg.excludeFile(kept[i])
  {
    if |files| == 0 then []
    else
      assert files == [files[0]] + files[1..];
      (if cfg.excludeFile(files[0]) then [] else [files[0]]) + KeptFiles(files[1..], cfg)
  }

  // ---------------------------------------------------------------------
  // Reference: what one scan of a directory appends, defined by structure
  // ---------------------------------------------------------------------

  function Walk(t: Tree, cfg: ScanConfig): Listing
    decreases t, 0
  {
    if SkipsReservedRoot(cfg, t.path) then NoEntries
    else Then(Listing(KeptFiles(t.files, cfg), []), WalkForest(t.subdirs, cfg))
  }

  function WalkForest(ts: seq<Tree>, cfg: ScanConfig): Listing
    decreases ts
  {
    if |ts| == 0 then NoEntries
    else Then(WalkChild(ts[0], cfg), WalkForest(ts[1..], cfg))
  }

  /** One subdirectory entry: nothing if excluded, else its path and its contents. */
  function WalkChild(c: Tree, cfg: ScanConfig): Listing
    decreases c, 1
  {
    if cfg.excludeDirectory(c.path) then NoEntries
    else Then(Listing([], [c.path]), Walk(c, cfg))
  }

  // ---------------------------------------------------------------------
  // The scanner as written: it appends to the lists it is given
  // ---------------------------------------------------------------------

  /** `ScanForAllDirectoriesAndFiles(path, details)`: the lists in `acc` are
      extended, never rewritten, by exactly what the structural walk finds. */
  function ScanInto(t: Tree, cfg: ScanConfig, acc: Listing): (r: Listing)
    ensures r == Then(acc, Walk(t, cfg))
    ensures acc.files <= r.files && acc.directories <= r.directories
    ensures SkipsReservedRoot(cfg, t.path) ==> r == acc
    decreases t
  {
    if SkipsReservedRoot(cfg, t.path) then acc
    else
      var own := Listing(KeptFiles(t.files, cfg), []);
      assert Listing(acc.files + own.files, acc.directories) == Then(acc, own);
      ThenAssociates(acc, own, WalkForest(t.subdirs, cfg));
      ScanSubdirectories(t.subdirs, cfg, Then(acc, own))
  }

  /** The subdirectory loop: record each kept subdirectory, then recurse into it. */
  function ScanSubdirectories(ts: seq<Tree>, cfg: ScanConfig, acc: Listing): (r: Listing)
    ensures r == Then(acc, WalkForest(ts, cfg))
    decreases ts
  {
    if |ts| == 0 then acc
    else
      var d := ts[0];
      var rest := WalkForest(ts[1..], cfg);
      if cfg.excludeDirectory(d.path) then
        assert Then(NoEntries, rest) == rest;
        ScanSubdirectories(ts[1..], cfg, acc)
      else
        var recorded := Listing([], [d.path]);
        assert Listing(acc.files, acc.directories + [d.path]) == Then(acc, recorded);
        var next := ScanInto(d, cfg, Then(acc, recorded));
        ThenAssociates(acc, recorded, Walk(d, cfg));
        ThenAssociates(acc, Then(recorded, Walk(d, cfg)), rest);
        ScanSubdirectories(ts[1..], cfg, next)
  }

  /** A scan that starts from fresh, empty details lists. */
  function ScanForAllDirectoriesAndFiles(root: Tree, cfg: ScanConfig): (r: Listing)
    ensures r == Walk(root, cfg)
  {
    ScanInto(root, cfg, NoEntries)
  }

  /** A forest's scan: its first member's, then the rest's. */
  lemma WalkForestSplit(ts: seq<Tree>, cfg: ScanConfig)
    requires |ts| > 0
    ensures WalkForest(ts, cfg).files == WalkChild(ts[0], cfg).files + WalkForest(ts[1..], cfg).files
    ensures WalkForest(ts, cfg).directories == WalkChild(ts[0], cfg).directories + WalkForest(ts[1..], cfg).directories
  {
  }

  /** Below a directory the guard lets through, its own kept files are
      recorded first, then the files of its subdirectory loop. */
  lemma WalkFilesAreOwnThenForest(t: Tree, cfg: ScanConfig)
    requires !SkipsReservedRoot(cfg, t.path)
    ensures Walk(t, cfg).files == KeptFiles(t.files, cfg) + WalkForest(t.subdirs, cfg).files
  {
  }

  /** Below a directory the guard lets through, the directories recorded
      are those of its subdirectory loop. */
  lemma WalkDirectoriesAreForest(t: Tree, cfg: ScanConfig)
    requires !SkipsReservedRoot(cfg, t.path)
    ensures Walk(t, cfg).directories == WalkForest(t.subdirs, cfg).directories
  {
    assert [] + WalkForest(t.subdirs, cfg).directories == WalkForest(t.subdirs, cfg).directories;
  }

  /** A kept subdirectory contributes its path, then its own scan. */
  lemma KeptChild(c: Tree, cfg: ScanConfig)
    requires !cfg.excludeDirectory(c.path)
    ensures WalkChild(c, cfg).files == Walk(c, cfg).files
    ensures WalkChild(c, cfg).directories == [c.path] + Walk(c, cfg).directories
  {
    assert [] + Walk(c, cfg).files == Walk(c, cfg).files;
  }

  // ---------------------------------------------------------------------
  // What a scan records
  // ---------------------------------------------------------------------

  /** No recorded path matches the exclusion patterns for its kind. */
  predicate RespectsExclusions(l: Listing, cfg: ScanConfig) {
    && (forall f :: f in l.files ==> !cfg.excludeFile(f))
    && (forall d :: d in l.directories ==> !cfg.excludeDirectory(d))
  }

  lemma ThenRespectsExclusions(a: Listing, b: Listing, cfg: ScanConfig)
    requires RespectsExclusions(a, cfg) && RespectsExclusions(b, cfg)
    ensures RespectsExclusions(Then(a, b), cfg)
  {
  }

  /** Only entries of the tree are recorded and none matches its exclusion
      patterns; the root directory is not among the recorded directories. */
  lemma {:induction false} WalkRecordsOnlyKeptEntries(t: Tree, cfg: ScanConfig)
    ensures multiset(Walk(t, cfg).files) <= FileBag(t)
    ensures multiset(Walk(t, cfg).directories) <= DirBag(t)
    ensures RespectsExclusions(Walk(t, cfg), cfg)
    decreases t, 0
  {
    if !SkipsReservedRoot(cfg, t.path) {
      var own := Listing(KeptFiles(t.files, cfg), []);
      WalkForestRecordsOnlyKeptEntries(t.subdirs, cfg);
      assert multiset(own.files) <= multiset(t.files);
      assert RespectsExclusions(own, cfg);
      ThenRespectsExclusions(own, WalkForest(t.subdirs, cfg), cfg);
    }
  }

  lemma {:induction false} WalkForestRecordsOnlyKeptEntries(ts: seq<Tree>, cfg: ScanConfig)
    ensures multiset(WalkForest(ts, cfg).files) <= ForestFileBag(ts)
    ensures multiset(WalkForest(ts, cfg).directories) <= ForestDirBag(ts)
    ensures RespectsExclusions(WalkForest(ts, cfg), cfg)
    decreases ts
  {
    if |ts| > 0 {
      WalkChildRecordsOnlyKeptEntries(ts[0], cfg);
      WalkForestRecordsOnlyKeptEntries(ts[1..], cfg);
      ThenRespectsExclusions(WalkChild(ts[0], cfg), WalkForest(ts[1..], cfg), cfg);
    }
  }

  lemma {:induction false} WalkChildRecordsOnlyKeptEntries(c: Tree, cfg: ScanConfig)
    ensures multiset(WalkChild(c, cfg).files) <= FileBag(c)
    ensures multiset(WalkChild(c, cfg).directories) <= multiset{c.path} + DirBag(c)
    ensures RespectsExclusions(WalkChild(c, cfg), cfg)
    decreases c, 1
  {
    if !cfg.excludeDirectory(c.path) {
      var recorded := Listing([], [c.path]);
      WalkRecordsOnlyKeptEntries(c, cfg);
      ThenRespectsExclusions(recorded, Walk(c, cfg), cfg);
    }
  }

  /** The root directory itself is never added to the directory list. */
  lemma RootNeverRecorded(t: Tree, cfg: ScanConfig)
    requires UniquePaths(t)
    ensures t.path !in Walk(t, cfg).directories
  {
    WalkRecordsOnlyKeptEntries(t, cfg);
    assert (multiset{t.path} + DirBag(t) + FileBag(t))[t.path] <= 1;
    assert DirBag(t)[t.path] == 0;
    assert multiset(Walk(t, cfg).directories)[t.path] == 0;
  }

  /** Excluding a directory at any depth drops its whole subtree: the scan
      records no file beyond those the tree holds outside that subtree. */
  lemma {:induction false} ExcludedSubtreeFilesDropped(t: Tree, cfg: ScanConfig, route: seq<nat>)
    requires |route| > 0 && IsRoute(t, route) && cfg.excludeDirectory(Follow(t, route).path)
    ensures multiset(Walk(t, cfg).files) <= FileBag(t) - FileBag(Follow(t, route))
    decreases |route|, 1
  {
    if !SkipsReservedRoot(cfg, t.path) {
      var k := route[0];
      var c := t.subdirs[k];
      var gone := FileBag(Follow(t, route));
      assert Follow(t, route) == Follow(c, route[1..]);
      ChildFilesDropped(c, cfg, route[1..]);
      ForestFilesDropped(t.subdirs, cfg, k, gone);
      var own := KeptFiles(t.files, cfg);
      assert multiset(own) <= multiset(t.files);
      BagSumWithoutPart(multiset(own), multiset(WalkForest(t.subdirs, cfg).files),
                        multiset(t.files), ForestFileBag(t.subdirs), gone);
      assert Walk(t, cfg).files == own + WalkForest(t.subdirs, cfg).files;
    }
  }

  /** The same for directories: the excluded directory and every directory
      below it are missing from what the scan can record. */
  lemma {:induction false} ExcludedSubtreeDirectoriesDropped(t: Tree, cfg: ScanConfig, route: seq<nat>)
    requires |route| > 0 && IsRoute(t, route) && cfg.excludeDirectory(Follow(t, route).path)
    ensures var d := Follow(t, route);
      multiset(Walk(t, cfg).directories) <= DirBag(t) - (multiset{d.path} + DirBag(d))
    decreases |route|, 1
  {
    if !SkipsReservedRoot(cfg, t.path) {
      var k := route[0];
      var c := t.subdirs[k];
      var d := Follow(t, route);
      assert d == Follow(c, route[1..]);
      ChildDirectoriesDropped(c, cfg, route[1..]);
      ForestDirectoriesDropped(t.subdirs, cfg, k, multiset{d.path} + DirBag(d));
      WalkDirectoriesAreForest(t, cfg);
    }
  }

  /** One subdirectory entry whose subtree holds the excluded directory
      `Follow(c, rest)`, possibly `c` itself. */
  lemma {:induction false} ChildFilesDropped(c: Tree, cfg: ScanConfig, rest: seq<nat>)
    requires IsRoute(c, rest) && cfg.excludeDirectory(Follow(c, rest).path)
    ensures FileBag(Follow(c, rest)) <= FileBag(c)
    ensures multiset(WalkChild(c, cfg).files) <= FileBag(c) - FileBag(Follow(c, rest))
    decreases |rest|, 2
  {
    FollowWithin(c, rest);
    if !cfg.excludeDirectory(c.path) {
      assert |rest| > 0;
      ExcludedSubtreeFilesDropped(c, cfg, rest);
      KeptChild(c, cfg);
    }
  }

  lemma {:induction false} ChildDirectoriesDropped(c: Tree, cfg: ScanConfig, rest: seq<nat>)
    requires IsRoute(c, rest) && cfg.excludeDirectory(Follow(c, rest).path)
    ensures var d := Follow(c, rest);
      multiset{d.path} + DirBag(d) <= multiset{c.path} + DirBag(c)
    ensures var d := Follow(c, rest);
      multiset(WalkChild(c, cfg).directories) <= (multiset{c.path} + DirBag(c)) - (multiset{d.path} + DirBag(d))
    decreases |rest|, 2
  {
    var d := Follow(c, rest);
    var gone := multiset{d.path} + DirBag(d);
    if |rest| > 0 {
      FollowWithin(c, rest);
    }
    if !cfg.excludeDirectory(c.path) {
      assert |rest| > 0;
      ExcludedSubtreeDirectoriesDropped(c, cfg, rest);
      KeptChild(c, cfg);
      BagSumWithoutPart(multiset{c.path}, multiset(Walk(c, cfg).directories), multiset{c.path}, DirBag(c), gone);
    }
  }

  /** A forest whose member `k` records nothing of the bag `gone` records
      nothing of it as a whole. */
  lemma {:induction false} ForestFilesDropped(ts: seq<Tree>, cfg: ScanConfig, k: nat, gone: multiset<string>)
    requires k < |ts| && gone <= FileBag(ts[k])
    requires multiset(WalkChild(ts[k], cfg).files) <= FileBag(ts[k]) - gone
    ensures gone <= ForestFileBag(ts)
    ensures multiset(WalkForest(ts, cfg).files) <= ForestFileBag(ts) - gone
    decreases k
  {
    var head := WalkChild(ts[0], cfg).files;
    var rest := WalkForest(ts[1..], cfg).files;
    assert WalkForest(ts, cfg).files == head + rest;
    assert ForestFileBag(ts) == FileBag(ts[0]) + ForestFileBag(ts[1..]);
    if k == 0 {
      WalkForestRecordsOnlyKeptEntries(ts[1..], cfg);
      BagSumWithHeadPart(multiset(head), multiset(rest), FileBag(ts[0]), ForestFileBag(ts[1..]), gone);
    } else {
      assert ts[1..][k - 1] == ts[k];
      ForestFilesDropped(ts[1..], cfg, k - 1, gone);
      WalkChildRecordsOnlyKeptEntries(ts[0], cfg);
      BagSumWithoutPart(multiset(head), multiset(rest), FileBag(ts[0]), ForestFileBag(ts[1..]), gone);
    }
  }

  lemma {:induction false} ForestDirectoriesDropped(ts: seq<Tree>, cfg: ScanConfig, k: nat, gone: multiset<string>)
    requires k < |ts| && gone <= multiset{ts[k].path} + DirBag(ts[k])
    requires multiset(WalkChild(ts[k], cfg).directories) <= (multiset{ts[k].path} + DirBag(ts[k])) - gone
    ensures gone <= ForestDirBag(ts)
    ensures multiset(WalkForest(ts, cfg).directories) <= ForestDirBag(ts) - gone
    decreases k
  {
    var head := WalkChild(ts[0], cfg).directories;
    var rest := WalkForest(ts[1..], cfg).directories;
    var own := multiset{ts[0].path} + DirBag(ts[0]);
    assert WalkForest(ts, cfg).directories == head + rest;
    assert ForestDirBag(ts) == own + ForestDirBag(ts[1..]);
    if k == 0 {
      WalkForestRecordsOnlyKeptEntries(ts[1..], cfg);
      BagSumWithHeadPart(multiset(head), multiset(rest), own, ForestDirBag(ts[1..]), gone);
    } else {
      assert ts[1..][k - 1] == ts[k];
      ForestDirectoriesDropped(ts[1..], cfg, k - 1, gone);
      WalkChildRecordsOnlyKeptEntries(ts[0], cfg);
      BagSumWithoutPart(multiset(head), multiset(rest), own, ForestDirBag(ts[1..]), gone);
    }
  }

  /** Bags `h <= a` and `r <= b - c` together fit in `a + b` without `c`. */
  lemma BagSumWithoutPart<T>(h: multiset<T>, r: multiset<T>, a: multiset<T>, b: multiset<T>, c: multiset<T>)
    requires h <= a && c <= b && r <= b - c
    ensures c <= a + b
    ensures h + r <= (a + b) - c
  {
    forall p | p in h + r
      ensures (h + r)[p] <= ((a + b) - c)[p]
    {
      assert h[p] <= a[p] && r[p] <= b[p] - c[p];
    }
  }

  /** Bags `h <= a - c` and `r <= b` together fit in `a + b` without `c`. */
  lemma BagSumWithHeadPart<T>(h: multiset<T>, r: multiset<T>, a: multiset<T>, b: multiset<T>, c: multiset<T>)
    requires c <= a && h <= a - c && r <= b
    ensures c <= a + b
    ensures h + r <= (a + b) - c
  {
    forall p | p in h + r
      ensures (h + r)[p] <= ((a + b) - c)[p]
    {
      assert h[p] <= a[p] - c[p] && r[p] <= b[p];
    }
  }

  /** On a real file system (no path repeated), nothing from the subtree of
      a directory excluded at any depth, that directory included, appears in
      either list. */
  lemma ExcludedSubtreeAbsent(t: Tree, cfg: ScanConfig, route: seq<nat>, p: string)
    requires UniquePaths(t)
    requires |route| > 0 && IsRoute(t, route) && cfg.excludeDirectory(Follow(t, route).path)
    ensures p in FileBag(Follow(t, route)) ==> p !in Walk(t, cfg).files
    ensures p == Follow(t, route).path || p in DirBag(Follow(t, route)) ==> p !in Walk(t, cfg).directories
  {
    var d := Follow(t, route);
    assert (multiset{t.path} + DirBag(t) + FileBag(t))[p] <= 1;
    if p in FileBag(d) {
      ExcludedSubtreeFilesDropped(t, cfg, route);
      assert (FileBag(t) - FileBag(d))[p] == 0;
      assert multiset(Walk(t, cfg).files)[p] == 0;
    }
    if p == d.path || p in DirBag(d) {
      ExcludedSubtreeDirectoriesDropped(t, cfg, route);
      assert (multiset{d.path} + DirBag(d))[p] >= 1;
      assert (DirBag(t) - (multiset{d.path} + DirBag(d)))[p] == 0;
      assert multiset(Walk(t, cfg).directories)[p] == 0;
    }
  }

  // ---------------------------------------------------------------------
  // Completeness when nothing is excluded
  // ---------------------------------------------------------------------

  /** No exclusion pattern matches anywhere in the tree and the reserved-folder
      guard fires on no directory of it. */
  ghost predicate NothingExcluded(t: Tree, cfg: ScanConfig)
    decreases t
  {
    && !SkipsReservedRoot(cfg, t.path)
    && (forall i :: 0 <= i < |t.files| ==> !cfg.excludeFile(t.files[i]))
    && (forall i :: 0 <= i < |t.subdirs| ==> !cfg.excludeDirectory(t.subdirs[i].path))
    && (forall i :: 0 <= i < |t.subdirs| ==> NothingExcluded(t.subdirs[i], cfg))
  }

  /** With nothing excluded, every file and every directory below the root is
      recorded exactly as often as it occurs in the tree. */
  lemma {:induction false} WalkComplete(t: Tree, cfg: ScanConfig)
    requires NothingExcluded(t, cfg)
    ensures multiset(Walk(t, cfg).files) == FileBag(t)
    ensures multiset(Walk(t, cfg).directories) == DirBag(t)
    decreases t
  {
    assert forall f :: f in t.files ==> !cfg.excludeFile(f);
    assert multiset(KeptFiles(t.files, cfg)) == multiset(t.files);
    WalkForestComplete(t.subdirs, cfg);
  }

  lemma {:induction false} WalkForestComplete(ts: seq<Tree>, cfg: ScanConfig)
    requires forall i :: 0 <= i < |ts| ==> !cfg.excludeDirectory(ts[i].path) && NothingExcluded(ts[i], cfg)
    ensures multiset(WalkForest(ts, cfg).files) == ForestFileBag(ts)
    ensures multiset(WalkForest(ts, cfg).directories) == ForestDirBag(ts)
    decreases ts
  {
    if |ts| > 0 {
      WalkComplete(ts[0], cfg);
      WalkForestComplete(ts[1..], cfg);
    }
  }

  /** On a real file system, a scan with nothing excluded records each file
      and each directory below the root exactly once. */
  lemma ScanRecordsEachEntryOnce(t: Tree, cfg: ScanConfig, p: string)
    requires UniquePaths(t) && NothingExcluded(t, cfg)
    ensures p in FileBag(t) ==> multiset(ScanForAllDirectoriesAndFiles(t, cfg).files)[p] == 1
    ensures p in DirBag(t) ==> multiset(ScanForAllDirectoriesAndFiles(t, cfg).directories)[p] == 1
  {
    var l := ScanForAllDirectoriesAndFiles(t, cfg);
    WalkComplete(t, cfg);
    assert multiset(l.files) == FileBag(t) && multiset(l.directories) == DirBag(t);
    var u := multiset{t.path} + DirBag(t) + FileBag(t);
    assert u[p] <= 1;
    assert u[p] == multiset{t.path}[p] + DirBag(t)[p] + FileBag(t)[p];
  }

  // ---------------------------------------------------------------------
  // Order: files of a directory first, each directory before its subtree
  // ---------------------------------------------------------------------

  /** The scan enters every directory along `route`: none on the way down
      is excluded, and the reserved-folder guard fires on none above the
      last. */
  predicate Reaches(t: Tree, cfg: ScanConfig, route: seq<nat>)
    requires IsRoute(t, route)
    decreases |route|
  {
    |route| == 0 ||
      (&& !SkipsReservedRoot(cfg, t.path)
       && !cfg.excludeDirectory(t.subdirs[route[0]].path)
       && Reaches(t.subdirs[route[0]], cfg, route[1..]))
  }

  /** Whatever the scan records inside a directory it enters, at any depth,
      forms one contiguous block of each of the lists. */
  lemma SubtreeListingIsBlock(t: Tree, cfg: ScanConfig, route: seq<nat>)
    requires IsRoute(t, route) && Reaches(t, cfg, route)
    ensures exists i :: BlockAt(Walk(t, cfg).files, i, Walk(Follow(t, route), cfg).files)
    ensures exists j :: BlockAt(Walk(t, cfg).directories, j, Walk(Follow(t, route), cfg).directories)
  {
    var i := SubtreeFileOffset(t, cfg, route);
    var j := SubtreeDirectoryOffset(t, cfg, route);
  }

  lemma {:induction false} SubtreeFileOffset(t: Tree, cfg: ScanConfig, route: seq<nat>) returns (i: nat)
    requires IsRoute(t, route) && Reaches(t, cfg, route)
    ensures BlockAt(Walk(t, cfg).files, i, Walk(Follow(t, route), cfg).files)
    decreases |route|
  {
    if |route| == 0 {
      i := 0;
      BlockWhole(Walk(t, cfg).files);
    } else {
      var c := t.subdirs[route[0]];
      assert Follow(t, route) == Follow(c, route[1..]);
      var ci := SubtreeFileOffset(c, cfg, route[1..]);
      var fi := ChildFileOffset(t, cfg, route[0]);
      i := BlockWithin(Walk(t, cfg).files, fi, Walk(c, cfg).files, ci, Walk(Follow(t, route), cfg).files);
    }
  }

  lemma {:induction false} SubtreeDirectoryOffset(t: Tree, cfg: ScanConfig, route: seq<nat>) returns (j: nat)
    requires IsRoute(t, route) && Reaches(t, cfg, route)
    ensures BlockAt(Walk(t, cfg).directories, j, Walk(Follow(t, route), cfg).directories)
    decreases |route|
  {
    if |route| == 0 {
      j := 0;
      BlockWhole(Walk(t, cfg).directories);
    } else {
      var c := t.subdirs[route[0]];
      assert Follow(t, route) == Follow(c, route[1..]);
      var cj := SubtreeDirectoryOffset(c, cfg, route[1..]);
      var _, di := ChildDirectoryOffset(t, cfg, route[0]);
      j := BlockWithin(Walk(t, cfg).directories, di, Walk(c, cfg).directories, cj, Walk(Follow(t, route), cfg).directories);
    }
  }

  /** The files of a kept subdirectory form a block of its parent's files,
      after the parent's own. */
  lemma ChildFileOffset(t: Tree, cfg: ScanConfig, k: nat) returns (i: nat)
    requires !SkipsReservedRoot(cfg, t.path) && k < |t.subdirs| && !cfg.excludeDirectory(t.subdirs[k].path)
    ensures |KeptFiles(t.files, cfg)| <= i
    ensures BlockAt(Walk(t, cfg).files, i, Walk(t.subdirs[k], cfg).files)
  {
    WalkFilesAreOwnThenForest(t, cfg);
    var fi := ForestFileBlockOffset(t.subdirs, cfg, k);
    i := BlockAfter(Walk(t, cfg).files, KeptFiles(t.files, cfg), WalkForest(t.subdirs, cfg).files, fi,
                    Walk(t.subdirs[k], cfg).files);
  }

  /** The directories recorded inside a kept subdirectory form a block of
      its parent's, right after the subdirectory itself. */
  lemma ChildDirectoryOffset(t: Tree, cfg: ScanConfig, k: nat) returns (h: nat, j: nat)
    requires !SkipsReservedRoot(cfg, t.path) && k < |t.subdirs| && !cfg.excludeDirectory(t.subdirs[k].path)
    ensures j == h + 1
    ensures BlockAt(Walk(t, cfg).directories, h, [t.subdirs[k].path] + Walk(t.subdirs[k], cfg).directories)
    ensures BlockAt(Walk(t, cfg).directories, j, Walk(t.subdirs[k], cfg).directories)
  {
    WalkDirectoriesAreForest(t, cfg);
    h := ForestBlockOffset(t.subdirs, cfg, k);
    var cdirs := Walk(t.subdirs[k], cfg).directories;
    j := BlockAfterHead(Walk(t, cfg).directories, h, t.subdirs[k].path, cdirs);
  }

  /** A directory's own files are recorded before any file of its
      subdirectories, at every depth: for a directory `d` the scan enters,
      its kept files form a block, and the files of each kept subdirectory
      of `d` form a later block. */
  lemma OwnFilesFirst(t: Tree, cfg: ScanConfig, route: seq<nat>, m: nat)
    requires IsRoute(t, route) && Reaches(t, cfg, route)
    requires var d := Follow(t, route);
      !SkipsReservedRoot(cfg, d.path) && m < |d.subdirs| && !cfg.excludeDirectory(d.subdirs[m].path)
    ensures var d := Follow(t, route); var own := KeptFiles(d.files, cfg);
      exists i :: BlockAt(Walk(t, cfg).files, i, own)
        && exists j :: i + |own| <= j && BlockAt(Walk(t, cfg).files, j, Walk(d.subdirs[m], cfg).files)
  {
    var files := Walk(t, cfg).files;
    var d := Follow(t, route);
    var own := KeptFiles(d.files, cfg);
    var i := SubtreeFileOffset(t, cfg, route);
    WalkFilesAreOwnThenForest(d, cfg);
    BlockAtFront(Walk(d, cfg).files, own, WalkForest(d.subdirs, cfg).files);
    var at := BlockWithin(files, i, Walk(d, cfg).files, 0, own);
    var fm := ChildFileOffset(d, cfg, m);
    var after := BlockWithin(files, i, Walk(d, cfg).files, fm, Walk(d.subdirs[m], cfg).files);
  }

  /** Pre-order, at every depth: a kept subdirectory of a directory the scan
      enters is recorded immediately before the block of everything
      recorded inside it. */
  lemma DirectoryPrecedesItsSubtree(t: Tree, cfg: ScanConfig, route: seq<nat>, m: nat)
    requires IsRoute(t, route) && Reaches(t, cfg, route)
    requires var d := Follow(t, route);
      !SkipsReservedRoot(cfg, d.path) && m < |d.subdirs| && !cfg.excludeDirectory(d.subdirs[m].path)
    ensures var d := Follow(t, route);
      exists i :: BlockAt(Walk(t, cfg).directories, i, [d.subdirs[m].path] + Walk(d.subdirs[m], cfg).directories)
  {
    var d := Follow(t, route);
    var j := SubtreeDirectoryOffset(t, cfg, route);
    var dm, _ := ChildDirectoryOffset(d, cfg, m);
    var at := BlockWithin(Walk(t, cfg).directories, j, Walk(d, cfg).directories, dm,
                [d.subdirs[m].path] + Walk(d.subdirs[m], cfg).directories);
  }

  /** Where the files of kept member `k` sit among the files of a forest's scan. */
  lemma {:induction false} ForestFileBlockOffset(ts: seq<Tree>, cfg: ScanConfig, k: nat) returns (i: nat)
    requires k < |ts| && !cfg.excludeDirectory(ts[k].path)
    ensures BlockAt(WalkForest(ts, cfg).files, i, Walk(ts[k], cfg).files)
    decreases k
  {
    var whole := WalkForest(ts, cfg).files;
    var head := WalkChild(ts[0], cfg).files;
    var rest := WalkForest(ts[1..], cfg).files;
    WalkForestSplit(ts, cfg);
    if k == 0 {
      i := 0;
      KeptChild(ts[0], cfg);
      BlockAtFront(whole, Walk(ts[0], cfg).files, rest);
    } else {
      assert ts[1..][k - 1] == ts[k];
      var j := ForestFileBlockOffset(ts[1..], cfg, k - 1);
      i := BlockAfter(whole, head, rest, j, Walk(ts[k], cfg).files);
    }
  }

  lemma {:induction false} ForestBlockOffset(ts: seq<Tree>, cfg: ScanConfig, k: nat) returns (i: nat)
    requires k < |ts| && !cfg.excludeDirectory(ts[k].path)
    ensures BlockAt(WalkForest(ts, cfg).directories, i, [ts[k].path] + Walk(ts[k], cfg).directories)
    decreases k
  {
    var whole := WalkForest(ts, cfg).directories;
    var head := WalkChild(ts[0], cfg).directories;
    var rest := WalkForest(ts[1..], cfg).directories;
    WalkForestSplit(ts, cfg);
    if k == 0 {
      i := 0;
      KeptChild(ts[0], cfg);
      BlockAtFront(whole, [ts[0].path] + Walk(ts[0], cfg).directories, rest);
    } else {
      assert ts[1..][k - 1] == ts[k];
      var j := ForestBlockOffset(ts[1..], cfg, k - 1);
      i := BlockAfter(whole, head, rest, j, [ts[k].path] + Walk(ts[k], cfg).directories);
    }
  }
}
