/** The copy engine: scan the source tree, create the mirrored directories,
    then copy the files in per-thread batches, each worker adding the length
    of every file it copies to its own counter slot. The destination of an
    entry is its path with every occurrence of the source root replaced by
    the destination root (`Replace(path, src, dst)`); an entry the rewrite
    leaves unchanged is skipped. */
module Copy {
  import opened PathText
  import opened FileTree
  import opened Scan
  import opened Partition
  import opened Accounting

  /** One `FileInfo.CopyTo`: source, destination and the length counted for it. */
  datatype CopyOp = CopyOp(source: string, dest: string, length: nat)

  /** What `CopyAction` leaves behind. */
  datatype CopyOutcome =
    | SourceMissing
    | Copied(listing: Listing, directories: set<string>, created: seq<string>,
             copies: seq<CopyOp>, counters: seq<int>, report: Report)

  function Length(op: CopyOp): nat {
    op.length
  }

  /** Bytes counted for a list of copies. */
  function TotalLength(ops: seq<CopyOp>): nat {
    SumOfSizes(ops, Length)
  }

  /** The copy made of `path`. */
  function CopyOf(path: string, src: string, dst: string, size: string -> nat): CopyOp
    requires |src| > 0
  {
    CopyOp(path, Replace(path, src, dst), size(path))
  }

  /** The copies a worker makes for the files it visits, in visiting order:
      one per file whose rewritten path differs from its own. */
  function CopyPlan(paths: seq<string>, src: string, dst: string, size: string -> nat): (ops: seq<CopyOp>)
    requires |src| > 0
    ensures |ops| <= |paths|
    ensures forall i :: 0 <= i < |ops| ==>
      ops[i].dest == Replace(ops[i].source, src, dst) && ops[i].dest != ops[i].source
      && ops[i].length == size(ops[i].source)
    decreases |paths|
  {
    if |paths| == 0 then []
    else
      var init := paths[..|paths| - 1];
      var p := paths[|paths| - 1];
      var rest := CopyPlan(init, src, dst, size);
      if Replace(p, src, dst) == p then rest else rest + [CopyOf(p, src, dst, size)]
  }

  /** The copies planned for a list are, counted with multiplicity, the copy
      of each listed file that the rewrite moves, as often as it is listed. */
  lemma {:induction false} CopyPlanBag(paths: seq<string>, src: string, dst: string, size: string -> nat, op: CopyOp)
    requires |src| > 0
    ensures multiset(CopyPlan(paths, src, dst, size))[op]
         == if op == CopyOf(op.source, src, dst, size) && op.dest != op.source then multiset(paths)[op.source] else 0
    decreases |paths|
  {
    if |paths| > 0 {
      var init := paths[..|paths| - 1];
      var p := paths[|paths| - 1];
      assert paths == init + [p];
      CopyPlanBag(init, src, dst, size, op);
    }
  }

  /** A file is copied exactly when it was listed, the destination root
      differs from the source root, and the source root occurs in its path. */
  lemma CopiedIff(paths: seq<string>, src: string, dst: string, size: string -> nat, p: string)
    requires |src| > 0
    ensures CopyOf(p, src, dst, size) in CopyPlan(paths, src, dst, size)
      <==> p in paths && dst != src && Occurs(p, src)
  {
    var op := CopyOf(p, src, dst, size);
    CopyPlanBag(paths, src, dst, size, op);
    assert op in CopyPlan(paths, src, dst, size) <==> multiset(CopyPlan(paths, src, dst, size))[op] > 0;
    ReplaceUnchangedIff(p, src, dst);
  }

  /** One more file visited adds at most its own copy at the end. */
  lemma CopyPlanStep(paths: seq<string>, i: nat, src: string, dst: string, size: string -> nat)
    requires |src| > 0 && i < |paths|
    ensures CopyPlan(paths[..i + 1], src, dst, size)
         == CopyPlan(paths[..i], src, dst, size)
            + (if Replace(paths[i], src, dst) == paths[i] then [] else [CopyOf(paths[i], src, dst, size)])
  {
    assert paths[..i + 1][..i] == paths[..i];
  }

  /** Planning two lists one after the other plans their concatenation. */
  lemma {:induction false} CopyPlanAppend(a: seq<string>, b: seq<string>, src: string, dst: string, size: string -> nat)
    requires |src| > 0
    ensures CopyPlan(a + b, src, dst, size) == CopyPlan(a, src, dst, size) + CopyPlan(b, src, dst, size)
    decreases |b|
  {
    if |b| == 0 {
      assert a + b == a;
    } else {
      var b' := b[..|b| - 1];
      CopyPlanAppend(a, b', src, dst, size);
      assert (a + b)[..|a + b| - 1] == a + b';
    }
  }

  lemma TotalLengthStep(ops: seq<CopyOp>, op: CopyOp)
    ensures TotalLength(ops + [op]) == TotalLength(ops) + op.length
  {
    assert (ops + [op])[..|ops|] == ops;
  }

  lemma TotalLengthAppend(a: seq<CopyOp>, b: seq<CopyOp>)
    ensures TotalLength(a + b) == TotalLength(a) + TotalLength(b)
  {
    SumOfSizesAppend(a, b, Length);
  }

  /** Shuffling the file list copies the same files and counts the same bytes. */
  lemma ShuffleKeepsCopies(a: seq<string>, b: seq<string>, src: string, dst: string, size: string -> nat)
    requires |src| > 0 && multiset(a) == multiset(b)
    ensures multiset(CopyPlan(a, src, dst, size)) == multiset(CopyPlan(b, src, dst, size))
    ensures TotalLength(CopyPlan(a, src, dst, size)) == TotalLength(CopyPlan(b, src, dst, size))
  {
    forall op
      ensures multiset(CopyPlan(a, src, dst, size))[op] == multiset(CopyPlan(b, src, dst, size))[op]
    {
      CopyPlanBag(a, src, dst, size, op);
      CopyPlanBag(b, src, dst, size, op);
    }
    assert multiset(CopyPlan(a, src, dst, size)) == multiset(CopyPlan(b, src, dst, size));
    SumOfSizesIgnoresOrder(CopyPlan(a, src, dst, size), CopyPlan(b, src, dst, size), Length);
  }

  /** Copying a tree onto itself copies nothing. */
  lemma CopyOntoItselfCopiesNothing(paths: seq<string>, src: string, size: string -> nat)
    requires |src| > 0
    ensures CopyPlan(paths, src, src, size) == []
  {
    var ops := CopyPlan(paths, src, src, size);
    if |ops| > 0 {
      ReplaceWithSelf(ops[0].source, src);
    }
  }

  // ---------------------------------------------------------------------
  // Workers and dispatch
  // ---------------------------------------------------------------------

  /** `CopyFileBatch`: visit the batch's files, skip each one the rewrite
      leaves unchanged, count and copy the rest. Only the batch's own counter
      slot changes. */
  method CopyFileBatch(files: seq<string>, b: Batch, src: string, dst: string, size: string -> nat, counters: seq<int>)
    returns (after: seq<int>, ops: seq<CopyOp>)
    requires |src| > 0 && b.threadNumber < |counters|
    ensures ops == CopyPlan(BatchFiles(files, b), src, dst, size)
    ensures after == counters[b.threadNumber := counters[b.threadNumber] + TotalLength(ops)]
  {
    var t := b.threadNumber;
    after, ops := CopyEach(BatchFiles(files, b), t, src, dst, size, counters);
  }

  /** The loop of `CopyFileBatch` over the files it visits, adding to slot `t`. */
  method CopyEach(visit: seq<string>, t: nat, src: string, dst: string, size: string -> nat, counters: seq<int>)
    returns (after: seq<int>, ops: seq<CopyOp>)
    requires |src| > 0 && t < |counters|
    ensures ops == CopyPlan(visit, src, dst, size)
    ensures after == counters[t := counters[t] + TotalLength(ops)]
  {
    after, ops := counters, [];
    for i := 0 to |visit|
      invariant ops == CopyPlan(visit[..i], src, dst, size)
      invariant after == counters[t := counters[t] + TotalLength(ops)]
    {
      var sourceFilePath := visit[i];
      var destFilePath := Replace(sourceFilePath, src, dst);
      CopyPlanStep(visit, i, src, dst, size);
      if sourceFilePath == destFilePath {
        continue;
      }
      after, ops := CopyOne(sourceFilePath, destFilePath, t, size, counters, after, ops);
    }
    assert visit[..|visit|] == visit;
  }

  /** One file copied: its copy is appended and its length added to slot `t`. */
  method CopyOne(source: string, dest: string, t: nat, size: string -> nat,
                 counters: seq<int>, after: seq<int>, ops: seq<CopyOp>)
    returns (after': seq<int>, ops': seq<CopyOp>)
    requires t < |counters| && after == counters[t := counters[t] + TotalLength(ops)]
    ensures ops' == ops + [CopyOp(source, dest, size(source))]
    ensures after' == counters[t := counters[t] + TotalLength(ops')]
  {
    var op := CopyOp(source, dest, size(source));
    TotalLengthStep(ops, op);
    after' := after[t := after[t] + size(source)];
    ops' := ops + [op];
  }

  /** A batch that adds its copies' lengths to one slot keeps the counters'
      total equal to the lengths of all copies made so far. */
  lemma CountedStep(before: seq<int>, after: seq<int>, t: nat, copies: seq<CopyOp>, ops: seq<CopyOp>)
    requires t < |before| && Sum(before) == TotalLength(copies)
    requires after == before[t := before[t] + TotalLength(ops)]
    ensures Sum(after) == TotalLength(copies + ops)
  {
    SumAfterSlotUpdate(before, t, TotalLength(ops));
    TotalLengthAppend(copies, ops);
  }

  /** The copies a worker makes for its batch `b`. */
  function PlanOf(files: seq<string>, b: Batch, src: string, dst: string, size: string -> nat): seq<CopyOp>
    requires |src| > 0
  {
    CopyPlan(BatchFiles(files, b), src, dst, size)
  }

  /** The copies and the bytes of each batch, as functions of the batch. */
  function CopyPlans(files: seq<string>, src: string, dst: string, size: string -> nat): Batch -> seq<CopyOp>
    requires |src| > 0
  {
    b => PlanOf(files, b, src, dst, size)
  }

  function CopyLengths(files: seq<string>, src: string, dst: string, size: string -> nat): Batch -> int
    requires |src| > 0
  {
    b => TotalLength(PlanOf(files, b, src, dst, size))
  }

  /** `plans` and `lengths` give, for every batch, the copies its worker
      makes and their total length. */
  ghost predicate Describes(plans: Batch -> seq<CopyOp>, lengths: Batch -> int,
                            files: seq<string>, src: string, dst: string, size: string -> nat)
    requires |src| > 0
  {
    forall b {:trigger PlanOf(files, b, src, dst, size)} ::
      plans(b) == PlanOf(files, b, src, dst, size) && lengths(b) == TotalLength(PlanOf(files, b, src, dst, size))
  }

  /** The batches' copies, one batch after another, are the copies planned
      for their files read in the same order. */
  lemma {:induction false} JoinedCopyPlans(files: seq<string>, bs: seq<Batch>, src: string, dst: string, size: string -> nat,
                                           plans: Batch -> seq<CopyOp>, lengths: Batch -> int)
    requires |src| > 0 && Describes(plans, lengths, files, src, dst, size)
    ensures Joined(bs, plans) == CopyPlan(Rejoin(files, bs), src, dst, size)
    decreases |bs|
  {
    if |bs| > 0 {
      var n := |bs| - 1;
      JoinedCopyPlans(files, bs[..n], src, dst, size, plans, lengths);
      assert plans(bs[n]) == PlanOf(files, bs[n], src, dst, size);
      CopyPlanAppend(Rejoin(files, bs[..n]), BatchFiles(files, bs[n]), src, dst, size);
    }
  }

  /** `CopyFileBatch` as the pool runs it: the batch's copies and its bytes,
      added to its own slot. */
  method RunBatch(files: seq<string>, b: Batch, src: string, dst: string, size: string -> nat, counters: seq<int>,
                  ghost plans: Batch -> seq<CopyOp>, ghost lengths: Batch -> int)
    returns (after: seq<int>, ops: seq<CopyOp>)
    requires |src| > 0 && b.threadNumber < |counters| && Describes(plans, lengths, files, src, dst, size)
    ensures ops == plans(b) && TotalLength(ops) == lengths(b)
    ensures after == counters[b.threadNumber := counters[b.threadNumber] + TotalLength(ops)]
  {
    after, ops := CopyFileBatch(files, b, src, dst, size, counters);
    assert ops == PlanOf(files, b, src, dst, size);
  }

  /** The pool running every queued batch once, until `WaitForIdle` returns.
      Batches run here in queue order; each adds the bytes it copies to the
      slot of its own thread number and to no other, so slot `t` ends up
      holding the bytes of the batches numbered `t`. `plans` and `lengths`
      name what each batch copies. */
  method RunQueuedBatches(files: seq<string>, bs: seq<Batch>, src: string, dst: string, size: string -> nat,
                          ghost plans: Batch -> seq<CopyOp>, ghost lengths: Batch -> int)
    returns (counters: seq<int>, copies: seq<CopyOp>)
    requires |src| > 0 && Describes(plans, lengths, files, src, dst, size)
    requires forall k :: 0 <= k < |bs| ==> bs[k].threadNumber < |bs|
    ensures counters == BatchTally(|bs|, bs, lengths)
    ensures forall t :: 0 <= t < |bs| ==> counters[t] == SlotTotal(ThreadNumbers(bs), PerBatch(bs, lengths), t)
    ensures copies == Joined(bs, plans) && copies == CopyPlan(Rejoin(files, bs), src, dst, size)
    ensures Sum(counters) == TotalLength(copies)
  {
    counters, copies := Zeros(|bs|), [];
    for i := 0 to |bs|
      invariant counters == BatchTally(|bs|, bs[..i], lengths)
      invariant copies == Joined(bs[..i], plans)
      invariant Sum(counters) == TotalLength(copies)
    {
      var before := counters;
      var ops;
      counters, ops := RunBatch(files, bs[i], src, dst, size, counters, plans, lengths);
      BatchTallyStep(|bs|, bs, lengths, i, TotalLength(ops), before, counters);
      CountedStep(before, counters, bs[i].threadNumber, copies, ops);
      JoinedStep(bs, plans, i);
      copies := copies + ops;
    }
    assert bs[..|bs|] == bs;
    BatchTallySlots(|bs|, bs, lengths);
    JoinedCopyPlans(files, bs, src, dst, size, plans, lengths);
  }

  /** `CopyAllFilesLimitedThreads` and the wait for the pool: queue one batch
      per thread, run them all. Together the batches make exactly the copies
      planned for the whole list, and the counters add up to their length;
      slot `t` holds the bytes copied by the batch of thread `t`, which is
      what the pool leaves whatever order it runs the batches in. */
  method CopyAllFilesLimitedThreads(files: seq<string>, threads: nat, src: string, dst: string, size: string -> nat)
    returns (counters: seq<int>, copies: seq<CopyOp>)
    requires threads >= 1 && |src| > 0
    ensures |counters| == threads
    ensures forall k :: 0 <= k < threads ==>
      counters[k] == TotalLength(CopyPlan(BatchFiles(files, MakeBatches(|files|, threads)[k]), src, dst, size))
    ensures forall order :: IsSchedule(order, threads) ==>
      (forall j :: 0 <= j < |order| ==> order[j] < threads)
      && RunInOrder(Zeros(threads), order, PerBatch(MakeBatches(|files|, threads), CopyLengths(files, src, dst, size))) == counters
    ensures copies == CopyPlan(files, src, dst, size)
    ensures Sum(counters) == TotalLength(copies)
  {
    var bs := MakeBatches(|files|, threads);
    ghost var lengths := CopyLengths(files, src, dst, size);
    counters, copies := RunQueuedBatches(files, bs, src, dst, size, CopyPlans(files, src, dst, size), lengths);
    BatchesRejoinToFiles(files, threads);
    BatchTallyIsQueueTally(threads, bs, lengths);
    assert ThreadNumbers(bs) == Threads(threads);
    OneBatchPerThread(counters, PerBatch(bs, lengths));
    forall k | 0 <= k < threads
      ensures counters[k] == TotalLength(CopyPlan(BatchFiles(files, bs[k]), src, dst, size))
    {
      PerBatchAt(bs, lengths, k);
    }
  }

  // ---------------------------------------------------------------------
  // Directories
  // ---------------------------------------------------------------------

  /** The destination directories the scanned directories map to. */
  function DirectoryTargets(directories: seq<string>, src: string, dst: string): set<string>
    requires |src| > 0
  {
    set i | 0 <= i < |directories| && Replace(directories[i], src, dst) != directories[i]
      :: Replace(directories[i], src, dst)
  }

  lemma DirectoryTargetsStep(directories: seq<string>, i: nat, src: string, dst: string)
    requires |src| > 0 && i < |directories|
    ensures DirectoryTargets(directories[..i + 1], src, dst)
         == DirectoryTargets(directories[..i], src, dst)
            + (var d := directories[i]; if Replace(d, src, dst) != d then {Replace(d, src, dst)} else {})
  {
    var longer := directories[..i + 1];
    assert forall j :: 0 <= j < i ==> longer[j] == directories[..i][j];
  }

  /** The directories created depend only on which directories were scanned. */
  lemma DirectoryTargetsIgnoreOrder(a: seq<string>, b: seq<string>, src: string, dst: string)
    requires |src| > 0 && multiset(a) == multiset(b)
    ensures DirectoryTargets(a, src, dst) == DirectoryTargets(b, src, dst)
  {
    forall p | p in DirectoryTargets(a, src, dst)
      ensures p in DirectoryTargets(b, src, dst)
    {
      var i :| 0 <= i < |a| && Replace(a[i], src, dst) != a[i] && p == Replace(a[i], src, dst);
      assert a[i] in multiset(b);
      var j :| 0 <= j < |b| && b[j] == a[i];
    }
    forall p | p in DirectoryTargets(b, src, dst)
      ensures p in DirectoryTargets(a, src, dst)
    {
      var j :| 0 <= j < |b| && Replace(b[j], src, dst) != b[j] && p == Replace(b[j], src, dst);
      assert b[j] in multiset(a);
      var i :| 0 <= i < |a| && a[i] == b[j];
    }
  }

  /** `CreateAllDirectories`: for every scanned directory whose rewritten
      path differs from its own, create the rewritten path unless it already
      exists. Nothing is created twice and nothing that existed is created;
      run again on its own result, it creates nothing. */
  method CreateAllDirectories(existing: set<string>, directories: seq<string>, src: string, dst: string)
    returns (dirs: set<string>, created: seq<string>)
    requires |src| > 0
    ensures dirs == existing + DirectoryTargets(directories, src, dst)
    ensures forall p :: p in created <==> p in DirectoryTargets(directories, src, dst) && p !in existing
    ensures forall i, j :: 0 <= i < j < |created| ==> created[i] != created[j]
    ensures DirectoryTargets(directories, src, dst) <= existing ==> dirs == existing && created == []
  {
    dirs, created := existing, [];
    for i := 0 to |directories|
      invariant dirs == existing + DirectoryTargets(directories[..i], src, dst)
      invariant forall p :: p in created <==> p in DirectoryTargets(directories[..i], src, dst) && p !in existing
      invariant forall a, b :: 0 <= a < b < |created| ==> created[a] != created[b]
    {
      DirectoryTargetsStep(directories, i, src, dst);
      var d := directories[i];
      var newPath := Replace(d, src, dst);
      if newPath == d {
        continue;
      }
      if newPath !in dirs {
        dirs := dirs + {newPath};
        created := created + [newPath];
      }
    }
    assert directories[..|directories|] == directories;
    assert |created| == 0 || created[0] in created;
  }

  /** Copying a tree onto itself creates no directory. */
  lemma CopyOntoItselfCreatesNothing(directories: seq<string>, src: string)
    requires |src| > 0
    ensures DirectoryTargets(directories, src, src) == {}
  {
    forall i | 0 <= i < |directories|
      ensures Replace(directories[i], src, src) == directories[i]
    {
      ReplaceWithSelf(directories[i], src);
    }
  }

  // ---------------------------------------------------------------------
  // The whole copy
  // ---------------------------------------------------------------------

  /** `CopyAction(sourcePath, destinationPath)`. A missing source does no
      work. Otherwise the source tree is scanned, the mirrored directories
      created, the files copied in batches, and the report gives the counts
      of the scan, the bytes the counters add up to and the throughput over
      `elapsedSeconds`, the run's whole seconds. */
  method CopyAction(sourcePath: string, destinationPath: string, source: Lookup, cfg: ScanConfig,
                    threads: nat, existingDirs: set<string>, size: string -> nat, elapsedSeconds: int)
    returns (outcome: CopyOutcome)
    requires threads >= 1 && Locates(source, sourcePath)
    ensures source.Missing? <==> outcome.SourceMissing?
    ensures source.Found? ==>
      && outcome.listing == Walk(source.tree, cfg)
      && outcome.directories == existingDirs + DirectoryTargets(outcome.listing.directories, sourcePath, destinationPath)
      && outcome.copies == CopyPlan(outcome.listing.files, sourcePath, destinationPath, size)
      && |outcome.counters| == threads
      && outcome.report.files == |outcome.listing.files|
      && outcome.report.directories == |outcome.listing.directories|
      && outcome.report.totalBytes == Sum(outcome.counters) == TotalLength(outcome.copies)
      && outcome.report.bytesPerSecond == BytesPerSecond(outcome.report.totalBytes, elapsedSeconds)
    ensures source.Found? && destinationPath == sourcePath ==>
      outcome.copies == [] && outcome.created == [] && outcome.directories == existingDirs
      && outcome.report.totalBytes == 0
  {
    if source.Missing? {
      return SourceMissing;
    }
    var listing := ScanForAllDirectoriesAndFiles(source.tree, cfg);
    var dirs, created := CreateAllDirectories(existingDirs, listing.directories, sourcePath, destinationPath);
    var counters, copies := CopyAllFilesLimitedThreads(listing.files, threads, sourcePath, destinationPath, size);
    var totalBytes := Sum(counters);
    var report := Report(|listing.files|, |listing.directories|, totalBytes, BytesPerSecond(totalBytes, elapsedSeconds));
    if destinationPath == sourcePath {
      CopyOntoItselfCopiesNothing(listing.files, sourcePath, size);
      CopyOntoItselfCreatesNothing(listing.directories, sourcePath);
    }
    outcome := Copied(listing, dirs, created, copies, counters, report);
  }
}
