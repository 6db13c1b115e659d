/** The delete engine: scan the tree, delete the scanned files in per-thread
    batches (each worker adding the length of every file it deletes to its
    own counter slot), then sweep whatever is left below the root (the
    root's remaining files, then every subdirectory recursively) and finally
    delete the root itself, which the sweep has emptied. Files the scan
    excluded are removed by the sweep without being counted. */
module Delete {
  import opened FileTree
  import opened Scan
  import opened Partition
  import opened Accounting

  // ---------------------------------------------------------------------
  // Workers and dispatch
  // ---------------------------------------------------------------------

  /** `DeleteFileBatch`: delete every file the batch visits, adding each
      one's length to the batch's own counter slot and to no other. */
  method DeleteFileBatch(files: seq<string>, b: Batch, size: string -> nat, counters: seq<int>)
    returns (after: seq<int>, deleted: seq<string>)
    requires b.threadNumber < |counters|
    ensures deleted == BatchFiles(files, b)
    ensures after == counters[b.threadNumber := counters[b.threadNumber] + SumOfSizes(deleted, size)]
  {
    after, deleted := DeleteEach(BatchFiles(files, b), b.threadNumber, size, counters);
  }

  /** The loop of `DeleteFileBatch` over the files it visits, adding to slot `t`. */
  method DeleteEach(visit: seq<string>, t: nat, size: string -> nat, counters: seq<int>)
    returns (after: seq<int>, deleted: seq<string>)
    requires t < |counters|
    ensures deleted == visit
    ensures after == counters[t := counters[t] + SumOfSizes(deleted, size)]
  {
    after, deleted := counters, [];
    for i := 0 to |visit|
      invariant deleted == visit[..i]
      invariant after == counters[t := counters[t] + SumOfSizes(deleted, size)]
    {
      var sourceFilePath := visit[i];
      assert (deleted + [sourceFilePath])[..i] == deleted;
      after := after[t := after[t] + size(sourceFilePath)];
      deleted := deleted + [sourceFilePath];
    }
  }

  /** The files and the bytes of each batch, as functions of the batch. */
  function DeleteVisits(files: seq<string>): Batch -> seq<string> {
    b => BatchFiles(files, b)
  }

  function DeleteLengths(files: seq<string>, size: string -> nat): Batch -> int {
    b => SumOfSizes(BatchFiles(files, b), size)
  }

  /** `visits` and `lengths` give, for every batch, the files its worker
      deletes and the bytes it counts for them. */
  ghost predicate Measures(visits: Batch -> seq<string>, lengths: Batch -> int, files: seq<string>, size: string -> nat) {
    forall b {:trigger BatchFiles(files, b)} ::
      visits(b) == BatchFiles(files, b) && lengths(b) == SumOfSizes(BatchFiles(files, b), size)
  }

  /** The batches' files, one batch after another, are the batches rejoined. */
  lemma {:induction false} JoinedVisits(files: seq<string>, bs: seq<Batch>, size: string -> nat,
                                        visits: Batch -> seq<string>, lengths: Batch -> int)
    requires Measures(visits, lengths, files, size)
    ensures Joined(bs, visits) == Rejoin(files, bs)
    decreases |bs|
  {
    if |bs| > 0 {
      var n := |bs| - 1;
      JoinedVisits(files, bs[..n], size, visits, lengths);
      assert visits(bs[n]) == BatchFiles(files, bs[n]);
    }
  }

  /** `DeleteFileBatch` as the pool runs it: the batch's files, and their
      bytes added to its own slot. */
  method RunDeleteBatch(files: seq<string>, b: Batch, size: string -> nat, counters: seq<int>,
                        ghost visits: Batch -> seq<string>, ghost lengths: Batch -> int)
    returns (after: seq<int>, gone: seq<string>)
    requires b.threadNumber < |counters| && Measures(visits, lengths, files, size)
    ensures gone == visits(b) && SumOfSizes(gone, size) == lengths(b)
    ensures after == counters[b.threadNumber := counters[b.threadNumber] + SumOfSizes(gone, size)]
  {
    after, gone := DeleteFileBatch(files, b, size, counters);
  }

  /** A batch that adds its files' lengths to one slot keeps the counters'
      total equal to the lengths of all files deleted so far. */
  lemma CountedStep(before: seq<int>, after: seq<int>, t: nat, deleted: seq<string>, gone: seq<string>, size: string -> nat)
    requires t < |before| && Sum(before) == SumOfSizes(deleted, size)
    requires after == before[t := before[t] + SumOfSizes(gone, size)]
    ensures Sum(after) == SumOfSizes(deleted + gone, size)
  {
    SumAfterSlotUpdate(before, t, SumOfSizes(gone, size));
    SumOfSizesAppend(deleted, gone, size);
  }

  /** The pool running every queued delete batch once, until `WaitForIdle`
      returns. Batches run here in queue order; each adds the bytes it
      deletes to the slot of its own thread number and to no other, so slot
      `t` ends up holding the bytes of the batches numbered `t`. `visits`
      and `lengths` name the files and the bytes of each batch. */
  method RunQueuedDeletes(files: seq<string>, bs: seq<Batch>, size: string -> nat,
                          ghost visits: Batch -> seq<string>, ghost lengths: Batch -> int)
    returns (counters: seq<int>, deleted: seq<string>)
    requires Measures(visits, lengths, files, size)
    requires forall k :: 0 <= k < |bs| ==> bs[k].threadNumber < |bs|
    ensures counters == BatchTally(|bs|, bs, lengths)
    ensures forall t :: 0 <= t < |bs| ==> counters[t] == SlotTotal(ThreadNumbers(bs), PerBatch(bs, lengths), t)
    ensures deleted == Joined(bs, visits) && deleted == Rejoin(files, bs)
    ensures Sum(counters) == SumOfSizes(deleted, size)
  {
    counters, deleted := Zeros(|bs|), [];
    for i := 0 to |bs|
      invariant counters == BatchTally(|bs|, bs[..i], lengths)
      invariant deleted == Joined(bs[..i], visits)
      invariant Sum(counters) == SumOfSizes(deleted, size)
    {
      var before := counters;
      var gone;
      counters, gone := RunDeleteBatch(files, bs[i], size, counters, visits, lengths);
      BatchTallyStep(|bs|, bs, lengths, i, SumOfSizes(gone, size), before, counters);
      CountedStep(before, counters, bs[i].threadNumber, deleted, gone, size);
      JoinedStep(bs, visits, i);
      deleted := deleted + gone;
    }
    assert bs[..|bs|] == bs;
    BatchTallySlots(|bs|, bs, lengths);
    JoinedVisits(files, bs, size, visits, lengths);
  }

  /** `DeleteAllFilesLimitedThreads` and the wait for the pool: every scanned
      file is deleted by exactly one batch, in list order overall, and the
      counters add up to the lengths of all of them; slot `t` holds the
      bytes of the batch of thread `t`, which is what the pool leaves
      whatever order it runs the batches in. */
  method DeleteAllFilesLimitedThreads(files: seq<string>, threads: nat, size: string -> nat)
    returns (counters: seq<int>, deleted: seq<string>)
    requires threads >= 1
    ensures |counters| == threads
    ensures forall k :: 0 <= k < threads ==>
      counters[k] == SumOfSizes(BatchFiles(files, MakeBatches(|files|, threads)[k]), size)
    ensures forall order :: IsSchedule(order, threads) ==>
      (forall j :: 0 <= j < |order| ==> order[j] < threads)
      && RunInOrder(Zeros(threads), order, PerBatch(MakeBatches(|files|, threads), DeleteLengths(files, size))) == counters
    ensures deleted == files
    ensures Sum(counters) == SumOfSizes(files, size)
  {
    var bs := MakeBatches(|files|, threads);
    ghost var lengths := DeleteLengths(files, size);
    counters, deleted := RunQueuedDeletes(files, bs, size, DeleteVisits(files), lengths);
    BatchesRejoinToFiles(files, threads);
    BatchTallyIsQueueTally(threads, bs, lengths);
    assert ThreadNumbers(bs) == Threads(threads);
    OneBatchPerThread(counters, PerBatch(bs, lengths));
    forall k | 0 <= k < threads
      ensures counters[k] == SumOfSizes(BatchFiles(files, bs[k]), size)
    {
      PerBatchAt(bs, lengths, k);
    }
  }

  // ---------------------------------------------------------------------
  // The tree once the batches are done
  // ---------------------------------------------------------------------

  /** The files of one directory listing that were not deleted. */
  function Unlisted(files: seq<string>, gone: set<string>): (kept: seq<string>)
    ensures forall f :: multiset(kept)[f] == if f in gone then 0 else multiset(files)[f]
  {
    if |files| == 0 then []
    else
      assert files == [files[0]] + files[1..];
      (if files[0] in gone then [] else [files[0]]) + Unlisted(files[1..], gone)
  }

  /** The tree with every file whose path is in `gone` deleted; directories
      are left in place. */
  function RemoveFiles(t: Tree, gone: set<string>): (r: Tree)
    ensures r.path == t.path
    decreases t, 1
  {
    Dir(t.path, Unlisted(t.files, gone), RemoveFilesForest(t.subdirs, gone))
  }

  function RemoveFilesForest(ts: seq<Tree>, gone: set<string>): (rs: seq<Tree>)
    ensures |rs| == |ts|
    decreases ts
  {
    if |ts| == 0 then [] else [RemoveFiles(ts[0], gone)] + RemoveFilesForest(ts[1..], gone)
  }

  /** Deleting the files in `gone` takes exactly those paths out of the
      tree's files and leaves every directory. */
  lemma {:induction false} RemoveFilesTakesOutGone(t: Tree, gone: set<string>, p: string)
    ensures FileBag(RemoveFiles(t, gone))[p] == if p in gone then 0 else FileBag(t)[p]
    ensures DirBag(RemoveFiles(t, gone)) == DirBag(t)
    decreases t, 1
  {
    RemoveFilesForestTakesOutGone(t.subdirs, gone, p);
  }

  lemma {:induction false} RemoveFilesForestTakesOutGone(ts: seq<Tree>, gone: set<string>, p: string)
    ensures ForestFileBag(RemoveFilesForest(ts, gone))[p] == if p in gone then 0 else ForestFileBag(ts)[p]
    ensures ForestDirBag(RemoveFilesForest(ts, gone)) == ForestDirBag(ts)
    decreases ts
  {
    if |ts| > 0 {
      var head := RemoveFiles(ts[0], gone);
      var rest := RemoveFilesForest(ts[1..], gone);
      RemoveFilesTakesOutGone(ts[0], gone, p);
      RemoveFilesForestTakesOutGone(ts[1..], gone, p);
      var rs := [head] + rest;
      assert rs[0] == head && rs[1..] == rest;
      assert ForestFileBag(rs) == FileBag(head) + ForestFileBag(rest);
      assert ForestDirBag(rs) == multiset{head.path} + DirBag(head) + ForestDirBag(rest);
    }
  }

  // ---------------------------------------------------------------------
  // The sweep
  // ---------------------------------------------------------------------

  /** One removal the file system performs. */
  datatype Removal = FileRemoved(path: string) | DirectoryRemoved(path: string)

  /** The file paths a run of removals deletes. */
  function RemovedFiles(rs: seq<Removal>): multiset<string> {
    if |rs| == 0 then multiset{}
    else (if rs[0].FileRemoved? then multiset{rs[0].path} else multiset{}) + RemovedFiles(rs[1..])
  }

  /** The directory paths a run of removals deletes. */
  function RemovedDirectories(rs: seq<Removal>): multiset<string> {
    if |rs| == 0 then multiset{}
    else (if rs[0].DirectoryRemoved? then multiset{rs[0].path} else multiset{}) + RemovedDirectories(rs[1..])
  }

  lemma {:induction false} RemovedFilesAppend(a: seq<Removal>, b: seq<Removal>)
    ensures RemovedFiles(a + b) == RemovedFiles(a) + RemovedFiles(b)
    decreases |a|
  {
    if |a| == 0 {
      assert a + b == b;
    } else {
      var ab := a + b;
      assert ab[0] == a[0] && ab[1..] == a[1..] + b;
      RemovedFilesAppend(a[1..], b);
      assert RemovedFiles(ab) == (if a[0].FileRemoved? then multiset{a[0].path} else multiset{}) + RemovedFiles(a[1..] + b);
    }
  }

  lemma {:induction false} RemovedDirectoriesAppend(a: seq<Removal>, b: seq<Removal>)
    ensures RemovedDirectories(a + b) == RemovedDirectories(a) + RemovedDirectories(b)
    decreases |a|
  {
    if |a| == 0 {
      assert a + b == b;
    } else {
      var ab := a + b;
      assert ab[0] == a[0] && ab[1..] == a[1..] + b;
      RemovedDirectoriesAppend(a[1..], b);
      assert RemovedDirectories(ab) == (if a[0].DirectoryRemoved? then multiset{a[0].path} else multiset{}) + RemovedDirectories(a[1..] + b);
    }
  }

  lemma RemovedAppend(a: seq<Removal>, b: seq<Removal>)
    ensures RemovedFiles(a + b) == RemovedFiles(a) + RemovedFiles(b)
    ensures RemovedDirectories(a + b) == RemovedDirectories(a) + RemovedDirectories(b)
  {
    RemovedFilesAppend(a, b);
    RemovedDirectoriesAppend(a, b);
  }

  /** Removing one directory removes its path and no file. */
  lemma RemovedOneDirectory(path: string)
    ensures RemovedFiles([DirectoryRemoved(path)]) == multiset{}
    ensures RemovedDirectories([DirectoryRemoved(path)]) == multiset{path}
  {
    assert [DirectoryRemoved(path)][1..] == [];
  }

  /** `FileInfo.Delete` on each file of a listing, in order. */
  function FileRemovals(files: seq<string>): (rs: seq<Removal>)
    ensures |rs| == |files| && forall i :: 0 <= i < |rs| ==> rs[i] == FileRemoved(files[i])
  {
    if |files| == 0 then [] else [FileRemoved(files[0])] + FileRemovals(files[1..])
  }

  lemma {:induction false} FileRemovalsRemoveListing(files: seq<string>)
    ensures RemovedFiles(FileRemovals(files)) == multiset(files)
    ensures RemovedDirectories(FileRemovals(files)) == multiset{}
  {
    if |files| > 0 {
      FileRemovalsRemoveListing(files[1..]);
      var rs := FileRemovals(files);
      assert rs[1..] == FileRemovals(files[1..]);
      assert files == [files[0]] + files[1..];
    }
  }

  /** `DirectoryInfo.Delete(true)`: the directory's files, then each
      subdirectory recursively, then the directory itself. */
  function DeleteRecursive(t: Tree): (rs: seq<Removal>)
    ensures |rs| > 0 && rs[|rs| - 1] == DirectoryRemoved(t.path)
    decreases t, 1
  {
    FileRemovals(t.files) + DeleteRecursiveForest(t.subdirs) + [DirectoryRemoved(t.path)]
  }

  /** Recursive deletes of a list of directories, one after another. */
  function DeleteRecursiveForest(ts: seq<Tree>): seq<Removal>
    decreases ts
  {
    if |ts| == 0 then [] else DeleteRecursiveForest(ts[..|ts| - 1]) + DeleteRecursive(ts[|ts| - 1])
  }

  /** A recursive delete removes exactly the files of the subtree and its
      directories, the root of the subtree included. */
  lemma {:induction false} DeleteRecursiveRemovesSubtree(t: Tree)
    ensures RemovedFiles(DeleteRecursive(t)) == FileBag(t)
    ensures RemovedDirectories(DeleteRecursive(t)) == multiset{t.path} + DirBag(t)
    decreases t, 1
  {
    var own := FileRemovals(t.files);
    var below := DeleteRecursiveForest(t.subdirs);
    var self := [DirectoryRemoved(t.path)];
    FileRemovalsRemoveListing(t.files);
    DeleteRecursiveForestRemovesForest(t.subdirs);
    RemovedAppend(own, below);
    RemovedAppend(own + below, self);
    RemovedOneDirectory(t.path);
  }

  lemma {:induction false} DeleteRecursiveForestRemovesForest(ts: seq<Tree>)
    ensures RemovedFiles(DeleteRecursiveForest(ts)) == ForestFileBag(ts)
    ensures RemovedDirectories(DeleteRecursiveForest(ts)) == ForestDirBag(ts)
    decreases ts
  {
    if |ts| > 0 {
      DeleteRecursiveForestRemovesForest(ts[..|ts| - 1]);
      DeleteRecursiveRemovesSubtree(ts[|ts| - 1]);
      RemovedByLastDelete(ts);
      ForestLastMember(ts);
    }
  }

  /** The removals of a forest's recursive deletes: those of all but the
      last member, then those of the last. */
  lemma RemovedByLastDelete(ts: seq<Tree>)
    requires |ts| > 0
    ensures RemovedFiles(DeleteRecursiveForest(ts))
         == RemovedFiles(DeleteRecursiveForest(ts[..|ts| - 1])) + RemovedFiles(DeleteRecursive(ts[|ts| - 1]))
    ensures RemovedDirectories(DeleteRecursiveForest(ts))
         == RemovedDirectories(DeleteRecursiveForest(ts[..|ts| - 1])) + RemovedDirectories(DeleteRecursive(ts[|ts| - 1]))
  {
    RemovedAppend(DeleteRecursiveForest(ts[..|ts| - 1]), DeleteRecursive(ts[|ts| - 1]));
  }

  /** The bags of a forest: those of all but the last member, then those of the last. */
  lemma ForestLastMember(ts: seq<Tree>)
    requires |ts| > 0
    ensures ForestFileBag(ts) == ForestFileBag(ts[..|ts| - 1]) + FileBag(ts[|ts| - 1])
    ensures ForestDirBag(ts) == ForestDirBag(ts[..|ts| - 1]) + multiset{ts[|ts| - 1].path} + DirBag(ts[|ts| - 1])
  {
    var init, last := ts[..|ts| - 1], ts[|ts| - 1];
    assert ts == init + [last];
    assert [last][1..] == [];
    ForestFileBagAppend(init, [last]);
    ForestDirBagAppend(init, [last]);
  }

  /** The file paths a run of removals deletes, as a set. */
  function RemovedFileSet(rs: seq<Removal>): set<string> {
    set p | p in RemovedFiles(rs)
  }

  /** The tree left after the removals `rs`: every file they delete is gone,
      and so is every subdirectory they delete, with all it contains. */
  function ApplyRemovals(t: Tree, rs: seq<Removal>): (r: Tree)
    ensures r.path == t.path
    decreases t, 1
  {
    Dir(t.path, Unlisted(t.files, RemovedFileSet(rs)), SurvivingSubtrees(t.subdirs, rs))
  }

  function SurvivingSubtrees(ts: seq<Tree>, rs: seq<Removal>): (kept: seq<Tree>)
    decreases ts
  {
    if |ts| == 0 then []
    else
      (if ts[0].path in RemovedDirectories(rs) then [] else [ApplyRemovals(ts[0], rs)])
      + SurvivingSubtrees(ts[1..], rs)
  }

  /** A listing whose every file is removed leaves no file. */
  lemma NoFileSurvives(files: seq<string>, gone: set<string>)
    requires forall i :: 0 <= i < |files| ==> files[i] in gone
    ensures Unlisted(files, gone) == []
  {
  }

  /** Subdirectories that are all removed leave none. */
  lemma {:induction false} NoSubtreeSurvives(ts: seq<Tree>, rs: seq<Removal>)
    requires forall k :: 0 <= k < |ts| ==> ts[k].path in RemovedDirectories(rs)
    ensures SurvivingSubtrees(ts, rs) == []
    decreases ts
  {
    if |ts| > 0 {
      assert forall k :: 0 <= k < |ts[1..]| ==> ts[1..][k] == ts[k + 1];
      NoSubtreeSurvives(ts[1..], rs);
    }
  }

  /** The sweep's removals, applied to the directory they sweep, leave it
      empty. */
  lemma SweepEmptiesDirectory(t: Tree)
    ensures IsEmptyDirectory(ApplyRemovals(t, FileRemovals(t.files) + DeleteRecursiveForest(t.subdirs)))
  {
    var rs := FileRemovals(t.files) + DeleteRecursiveForest(t.subdirs);
    SweepRemovesContents(t);
    forall i | 0 <= i < |t.files|
      ensures t.files[i] in RemovedFileSet(rs)
    {
      assert t.files[i] in multiset(t.files);
    }
    NoFileSurvives(t.files, RemovedFileSet(rs));
    forall k | 0 <= k < |t.subdirs|
      ensures t.subdirs[k].path in RemovedDirectories(rs)
    {
      MemberBagsWithinForest(t.subdirs, k);
    }
    NoSubtreeSurvives(t.subdirs, rs);
  }

  /** `DeleteEverythingInDirectory`: delete the directory's own files, then
      delete each subdirectory recursively. Everything below the directory
      is removed and the directory itself is left, empty; followed by the
      removal of the directory, this is the recursive delete of the whole
      tree. */
  method DeleteEverythingInDirectory(t: Tree) returns (after: Tree, removals: seq<Removal>)
    ensures after == ApplyRemovals(t, removals)
    ensures after.path == t.path && IsEmptyDirectory(after)
    ensures RemovedFiles(removals) == FileBag(t)
    ensures RemovedDirectories(removals) == DirBag(t)
    ensures removals + [DirectoryRemoved(t.path)] == DeleteRecursive(t)
  {
    var own := DeleteEachFile(t.files);
    var below := DeleteEachSubdirectory(t.subdirs);
    removals := own + below;
    after := ApplyRemovals(t, removals);
    SweepRemovesContents(t);
    SweepEmptiesDirectory(t);
  }

  /** The first loop of the sweep: `FileInfo.Delete` on each file. */
  method DeleteEachFile(files: seq<string>) returns (removals: seq<Removal>)
    ensures removals == FileRemovals(files)
  {
    removals := [];
    for i := 0 to |files|
      invariant |removals| == i && forall k :: 0 <= k < i ==> removals[k] == FileRemoved(files[k])
    {
      removals := removals + [FileRemoved(files[i])];
    }
  }

  /** The second loop of the sweep: `DirectoryInfo.Delete(true)` on each subdirectory. */
  method DeleteEachSubdirectory(ts: seq<Tree>) returns (removals: seq<Removal>)
    ensures removals == DeleteRecursiveForest(ts)
  {
    removals := [];
    for j := 0 to |ts|
      invariant removals == DeleteRecursiveForest(ts[..j])
    {
      assert ts[..j + 1][..j] == ts[..j];
      removals := removals + DeleteRecursive(ts[j]);
    }
    assert ts[..|ts|] == ts;
  }

  /** What the sweep removes: every file and every directory below the root,
      and not the root, whose removal completes the recursive delete. */
  lemma SweepRemovesContents(t: Tree)
    ensures RemovedFiles(FileRemovals(t.files) + DeleteRecursiveForest(t.subdirs)) == FileBag(t)
    ensures RemovedDirectories(FileRemovals(t.files) + DeleteRecursiveForest(t.subdirs)) == DirBag(t)
    ensures FileRemovals(t.files) + DeleteRecursiveForest(t.subdirs) + [DirectoryRemoved(t.path)] == DeleteRecursive(t)
  {
    FileRemovalsRemoveListing(t.files);
    DeleteRecursiveForestRemovesForest(t.subdirs);
    RemovedAppend(FileRemovals(t.files), DeleteRecursiveForest(t.subdirs));
  }

  /** `Directory.Delete(path)` without recursion succeeds only on an empty
      directory (otherwise .NET throws `IOException`): one holding no file
      and no subdirectory at any depth. */
  function DeleteEmptyDirectory(t: Tree): (removed: bool)
    ensures removed <==> FileBag(t) == multiset{} && DirBag(t) == multiset{}
  {
    if |t.files| > 0 then
      assert t.files[0] in multiset(t.files);
      false
    else if |t.subdirs| > 0 then
      assert t.subdirs[0].path in ForestDirBag(t.subdirs);
      false
    else true
  }

  // ---------------------------------------------------------------------
  // The whole delete
  // ---------------------------------------------------------------------

  /** What `DeleteAction` leaves behind. */
  datatype DeleteOutcome =
    | NothingToDelete
    | Deleted(listing: Listing, counters: seq<int>, batchDeleted: seq<string>,
              swept: seq<Removal>, rootRemoved: bool, report: Report)

  /** The paths of a list, as a set. */
  function Paths(files: seq<string>): (s: set<string>)
    ensures forall p :: p in s <==> p in files
  {
    set i | 0 <= i < |files| :: files[i]
  }

  /** What is left after the batches: the tree without the deleted files,
      swept by `DeleteEverythingInDirectory`. The sweep removes every file
      the batches missed and every directory below the root, and leaves the
      root empty. */
  method SweepLeftovers(t: Tree, deleted: seq<string>) returns (emptied: Tree, swept: seq<Removal>)
    ensures emptied.path == t.path && IsEmptyDirectory(emptied)
    ensures forall p :: RemovedFiles(swept)[p] == if p in deleted then 0 else FileBag(t)[p]
    ensures RemovedDirectories(swept) == DirBag(t)
  {
    var remaining := RemoveFiles(t, Paths(deleted));
    forall p
      ensures FileBag(remaining)[p] == if p in deleted then 0 else FileBag(t)[p]
    {
      RemoveFilesTakesOutGone(t, Paths(deleted), p);
    }
    RemoveFilesTakesOutGone(t, Paths(deleted), t.path);
    emptied, swept := DeleteEverythingInDirectory(remaining);
  }

  /** `DeleteAction(path)`. A missing directory does no work. Otherwise the
      tree is scanned, the scanned files deleted in batches and counted, the
      rest swept, and the root removed; the report gives the counts of the
      scan, the bytes the counters add up to and the throughput over
      `elapsedSeconds`, the run's whole seconds. */
  method DeleteAction(path: string, fs: Lookup, cfg: ScanConfig, threads: nat, size: string -> nat, elapsedSeconds: int)
    returns (outcome: DeleteOutcome)
    requires threads >= 1 && Locates(fs, path)
    ensures fs.Missing? <==> outcome.NothingToDelete?
    ensures fs.Found? ==>
      && outcome.listing == Walk(fs.tree, cfg)
      && outcome.batchDeleted == outcome.listing.files
      && |outcome.counters| == threads
      && outcome.report.files == |outcome.listing.files|
      && outcome.report.directories == |outcome.listing.directories|
      && outcome.report.totalBytes == Sum(outcome.counters) == SumOfSizes(outcome.listing.files, size)
      && outcome.report.bytesPerSecond == BytesPerSecond(outcome.report.totalBytes, elapsedSeconds)
      && (forall p :: RemovedFiles(outcome.swept)[p] == if p in outcome.batchDeleted then 0 else FileBag(fs.tree)[p])
      && RemovedDirectories(outcome.swept) == DirBag(fs.tree)
      && outcome.rootRemoved
  {
    if fs.Missing? {
      return NothingToDelete;
    }
    var listing := ScanForAllDirectoriesAndFiles(fs.tree, cfg);
    var counters, deleted := DeleteAllFilesLimitedThreads(listing.files, threads, size);
    var emptied, swept := SweepLeftovers(fs.tree, deleted);
    var rootRemoved := DeleteEmptyDirectory(emptied);
    var totalBytes := Sum(counters);
    var report := Report(|listing.files|, |listing.directories|, totalBytes, BytesPerSecond(totalBytes, elapsedSeconds));
    outcome := Deleted(listing, counters, deleted, swept, rootRemoved, report);
  }

  // ---------------------------------------------------------------------
  // Properties of the whole delete
  // ---------------------------------------------------------------------

  /** On a real file system every file of the tree is deleted exactly once:
      either by a batch (and counted) or by the sweep (and not counted). */
  lemma EachFileDeletedOnce(t: Tree, cfg: ScanConfig, swept: seq<Removal>)
    requires UniquePaths(t)
    requires forall p :: RemovedFiles(swept)[p] == if p in Walk(t, cfg).files then 0 else FileBag(t)[p]
    ensures multiset(Walk(t, cfg).files) + RemovedFiles(swept) == FileBag(t)
  {
    WalkRecordsOnlyKeptEntries(t, cfg);
    BatchesAndSweepPartitionFiles(t, Walk(t, cfg).files, RemovedFiles(swept));
  }

  /** The counting behind `EachFileDeletedOnce`, for any batch list drawn
      from the tree: with unique paths each file occurs once, and the sweep
      takes exactly those the batches did not. */
  lemma BatchesAndSweepPartitionFiles(t: Tree, batched: seq<string>, sweptFiles: multiset<string>)
    requires UniquePaths(t)
    requires multiset(batched) <= FileBag(t)
    requires forall p :: sweptFiles[p] == if p in batched then 0 else FileBag(t)[p]
    ensures multiset(batched) + sweptFiles == FileBag(t)
  {
    forall p
      ensures (multiset(batched) + sweptFiles)[p] == FileBag(t)[p]
    {
      assert (multiset{t.path} + DirBag(t) + FileBag(t))[p] <= 1;
      if p in batched {
        assert multiset(batched)[p] >= 1;
      }
    }
  }

  /** When the scan excludes nothing, the batches delete every file and the
      sweep finds only directories. */
  lemma CompleteScanLeavesNoFileToSweep(t: Tree, cfg: ScanConfig, swept: seq<Removal>)
    requires NothingExcluded(t, cfg)
    requires forall p :: RemovedFiles(swept)[p] == if p in Walk(t, cfg).files then 0 else FileBag(t)[p]
    ensures RemovedFiles(swept) == multiset{}
  {
    WalkComplete(t, cfg);
    forall p
      ensures RemovedFiles(swept)[p] == 0
    {
      assert p in Walk(t, cfg).files <==> p in multiset(Walk(t, cfg).files);
    }
  }

  /** When the reserved-folder guard fires on the root, the scan records
      nothing, so no byte is counted, yet the sweep deletes every file. */
  lemma ReservedRootDeletedUncounted(t: Tree, cfg: ScanConfig, swept: seq<Removal>, size: string -> nat)
    requires SkipsReservedRoot(cfg, t.path)
    requires forall p :: RemovedFiles(swept)[p] == if p in Walk(t, cfg).files then 0 else FileBag(t)[p]
    ensures SumOfSizes(Walk(t, cfg).files, size) == 0
    ensures RemovedFiles(swept) == FileBag(t)
  {
    assert Walk(t, cfg).files == [];
    assert forall p :: RemovedFiles(swept)[p] == FileBag(t)[p];
  }
}
