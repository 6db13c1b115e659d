/** How the scanned file list is split among the worker threads: one batch
    per thread, each `FilesPerThread` entries wide, read by the worker with
    LINQ `Skip(startIndex).Take(endIndex - startIndex + 1)`. The copy and the
    delete engines share this partition. */
module Partition {
  import opened Accounting

  /** A worker's assignment: inclusive index bounds and the counter slot it owns. */
  datatype Batch = Batch(threadNumber: nat, startIndex: nat, endIndex: int)

  function Min(a: int, b: int): int {
    if a <= b then a else b
  }

  /** `(fileCount / threads) + 1`: one more than the even share, so that
      `threads` batches always reach past the last file. */
  function FilesPerThread(fileCount: nat, threads: nat): (fpt: nat)
    requires threads >= 1
    ensures fpt >= 1
    ensures threads * (fpt - 1) <= fileCount < threads * fpt
  {
    fileCount / threads + 1
  }

  function BatchFor(i: nat, filesPerThread: nat): Batch {
    Batch(i, i * filesPerThread, (i + 1) * filesPerThread - 1)
  }

  /** The batches the dispatch loop queues, one per thread number: thread
      numbers `0..threads-1`, every batch `filesPerThread` wide, the first
      starting at 0, each starting right after the previous one ends, and
      the last one ending at or past the last file. */
  function MakeBatches(fileCount: nat, threads: nat): (bs: seq<Batch>)
    requires threads >= 1
    ensures |bs| == threads
    ensures forall i :: 0 <= i < threads ==> bs[i] == BatchFor(i, FilesPerThread(fileCount, threads))
    ensures forall i :: 0 <= i < threads ==> bs[i].threadNumber == i
    ensures forall i :: 0 <= i < threads ==>
      bs[i].endIndex - bs[i].startIndex + 1 == FilesPerThread(fileCount, threads)
    ensures bs[0].startIndex == 0
    ensures forall i :: 0 <= i < threads - 1 ==> bs[i].endIndex + 1 == bs[i + 1].startIndex
    ensures fileCount <= bs[threads - 1].endIndex
  {
    var fpt := FilesPerThread(fileCount, threads);
    var bs := seq(threads, i requires 0 <= i < threads => BatchFor(i, fpt));
    assert bs[threads - 1].endIndex == threads * fpt - 1;
    bs
  }

  /** The thread number of each queued batch, in queue order. */
  function ThreadNumbers(bs: seq<Batch>): (ts: seq<nat>)
    ensures |ts| == |bs| && forall k :: 0 <= k < |bs| ==> ts[k] == bs[k].threadNumber
  {
    seq(|bs|, k requires 0 <= k < |bs| => bs[k].threadNumber)
  }

  /** The value `f` gives each queued batch, in queue order. */
  function PerBatch(bs: seq<Batch>, f: Batch -> int): (r: seq<int>)
    ensures |r| == |bs|
    decreases |bs|
  {
    if |bs| == 0 then [] else PerBatch(bs[..|bs| - 1], f) + [f(bs[|bs| - 1])]
  }

  lemma {:induction false} PerBatchAt(bs: seq<Batch>, f: Batch -> int, k: nat)
    requires k < |bs|
    ensures PerBatch(bs, f)[k] == f(bs[k])
    decreases |bs|
  {
    var n := |bs| - 1;
    if k < n {
      PerBatchAt(bs[..n], f, k);
    }
  }

  /** One more batch queued adds its value at the end. */
  lemma PerBatchStep(bs: seq<Batch>, f: Batch -> int, i: nat)
    requires i < |bs|
    ensures PerBatch(bs[..i + 1], f) == PerBatch(bs[..i], f) + [f(bs[i])]
  {
    assert bs[..i + 1][..i] == bs[..i];
  }

  /** The `n` counters after batches `bs[0..]` ran one after another from
      zero, each batch adding `f(b)` to the slot of its thread number. */
  function BatchTally(n: nat, bs: seq<Batch>, f: Batch -> int): (r: seq<int>)
    ensures |r| == n
    decreases |bs|
  {
    if |bs| == 0 then Zeros(n)
    else
      var last := |bs| - 1;
      var prev := BatchTally(n, bs[..last], f);
      var t := bs[last].threadNumber;
      if t < n then prev[t := prev[t] + f(bs[last])] else prev
  }

  /** Running batch `i` after batches `0..i-1` adds its amount to its own slot. */
  lemma BatchTallyStep(n: nat, bs: seq<Batch>, f: Batch -> int, i: nat, amount: int, prev: seq<int>, after: seq<int>)
    requires i < |bs| && bs[i].threadNumber < n && amount == f(bs[i])
    requires prev == BatchTally(n, bs[..i], f)
    requires after == prev[bs[i].threadNumber := prev[bs[i].threadNumber] + amount]
    ensures after == BatchTally(n, bs[..i + 1], f)
  {
    assert bs[..i + 1][..i] == bs[..i];
  }

  /** Tallying the batches themselves is tallying their thread numbers and
      their amounts, listed in queue order. */
  lemma {:induction false} BatchTallyIsQueueTally(n: nat, bs: seq<Batch>, f: Batch -> int)
    ensures BatchTally(n, bs, f) == QueueTally(n, ThreadNumbers(bs), PerBatch(bs, f))
    decreases |bs|
  {
    if |bs| > 0 {
      var last := |bs| - 1;
      BatchTallyIsQueueTally(n, bs[..last], f);
      assert ThreadNumbers(bs)[..last] == ThreadNumbers(bs[..last]);
      assert PerBatch(bs, f)[..last] == PerBatch(bs[..last], f);
    }
  }

  /** Slot `t` of the tally holds the amounts of the batches numbered `t`. */
  lemma BatchTallySlots(n: nat, bs: seq<Batch>, f: Batch -> int)
    ensures forall t :: 0 <= t < n ==> BatchTally(n, bs, f)[t] == SlotTotal(ThreadNumbers(bs), PerBatch(bs, f), t)
  {
    BatchTallyIsQueueTally(n, bs, f);
    TallySlots(n, ThreadNumbers(bs), PerBatch(bs, f));
  }

  /** What batches `bs[0..]` produce, in batch order, batch `b` producing `f(b)`. */
  function Joined<T>(bs: seq<Batch>, f: Batch -> seq<T>): seq<T>
    decreases |bs|
  {
    if |bs| == 0 then [] else Joined(bs[..|bs| - 1], f) + f(bs[|bs| - 1])
  }

  lemma JoinedStep<T>(bs: seq<Batch>, f: Batch -> seq<T>, i: nat)
    requires i < |bs|
    ensures Joined(bs[..i + 1], f) == Joined(bs[..i], f) + f(bs[i])
  {
    assert bs[..i + 1][..i] == bs[..i];
  }

  // ---------------------------------------------------------------------
  // LINQ Skip / Take
  // ---------------------------------------------------------------------

  /** `Skip(count)`: everything after the first `count` elements (all of it
      for a non-positive count, nothing past the end). */
  function Skip<E>(s: seq<E>, count: int): (r: seq<E>)
    ensures |r| == if count <= 0 then |s| else if count >= |s| then 0 else |s| - count
    ensures r == s[|s| - |r|..]
  {
    if count <= 0 then s else if count >= |s| then [] else s[count..]
  }

  /** `Take(count)`: the first `count` elements, or all of them if fewer. */
  function Take<E>(s: seq<E>, count: int): (r: seq<E>)
    ensures |r| == if count <= 0 then 0 else if count >= |s| then |s| else count
    ensures r == s[..|r|]
  {
    if count <= 0 then [] else if count >= |s| then s else s[..count]
  }

  /** The files a worker visits for its batch. */
  function BatchFiles<E>(files: seq<E>, b: Batch): seq<E> {
    Take(Skip(files, b.startIndex), b.endIndex - b.startIndex + 1)
  }

  /** Batch `i` reads exactly the clamped index range `[i*fpt, (i+1)*fpt)`. */
  lemma BatchFilesSlice<E>(files: seq<E>, filesPerThread: nat, i: nat)
    requires filesPerThread >= 1
    ensures Min(i * filesPerThread, |files|) <= Min((i + 1) * filesPerThread, |files|)
    ensures BatchFiles(files, BatchFor(i, filesPerThread))
         == files[Min(i * filesPerThread, |files|)..Min((i + 1) * filesPerThread, |files|)]
  {
    var lo := i * filesPerThread;
    var hi := (i + 1) * filesPerThread;
    assert hi == lo + filesPerThread;
    var rest := Skip(files, lo);
    if lo < |files| {
      assert rest == files[lo..];
      if hi <= |files| {
        assert Take(rest, filesPerThread) == files[lo..][..filesPerThread] == files[lo..hi];
      }
    }
  }

  // ---------------------------------------------------------------------
  // Every file in exactly one batch
  // ---------------------------------------------------------------------

  /** Index `k` of the file list is visited by batch `b`. */
  predicate Visits(b: Batch, fileCount: nat, k: int) {
    b.startIndex <= k <= b.endIndex && 0 <= k < fileCount
  }

  lemma MulMonotone(a: nat, b: nat, c: nat)
    requires a <= b
    ensures a * c <= b * c
  {
  }

  /** Index `k` lies in the width-`fpt` block numbered `i` exactly when
      `i == k / fpt`. */
  lemma BlockOfIndex(k: nat, fpt: nat, i: nat)
    requires fpt >= 1
    ensures i * fpt <= k < (i + 1) * fpt <==> i == k / fpt
  {
    var o := k / fpt;
    assert o * fpt <= k < (o + 1) * fpt by {
      assert k == o * fpt + k % fpt;
      assert (o + 1) * fpt == o * fpt + fpt;
    }
    if i < o {
      MulMonotone(i + 1, o, fpt);
    } else if i > o {
      MulMonotone(o + 1, i, fpt);
    }
  }

  /** Every file index is visited by exactly one batch: the one numbered
      `k / filesPerThread`. */
  lemma EachFileInExactlyOneBatch(fileCount: nat, threads: nat, k: nat)
    requires threads >= 1 && k < fileCount
    ensures var fpt := FilesPerThread(fileCount, threads);
      && k / fpt < threads
      && Visits(MakeBatches(fileCount, threads)[k / fpt], fileCount, k)
      && forall i :: 0 <= i < threads && Visits(MakeBatches(fileCount, threads)[i], fileCount, k) ==> i == k / fpt
  {
    var fpt := FilesPerThread(fileCount, threads);
    var bs := MakeBatches(fileCount, threads);
    var o := k / fpt;
    BlockOfIndex(k, fpt, o);
    if o >= threads {
      MulMonotone(threads, o, fpt);
      assert false;
    }
    assert bs[o] == BatchFor(o, fpt);
    forall i | 0 <= i < threads && Visits(bs[i], fileCount, k)
      ensures i == o
    {
      assert bs[i] == BatchFor(i, fpt);
      BlockOfIndex(k, fpt, i);
    }
  }

  /** Distinct batches never visit the same index. */
  lemma BatchesDisjoint(fileCount: nat, threads: nat, i: nat, j: nat, k: int)
    requires threads >= 1 && i < threads && j < threads && i != j
    ensures !(Visits(MakeBatches(fileCount, threads)[i], fileCount, k)
              && Visits(MakeBatches(fileCount, threads)[j], fileCount, k))
  {
    if 0 <= k < fileCount && Visits(MakeBatches(fileCount, threads)[i], fileCount, k) {
      EachFileInExactlyOneBatch(fileCount, threads, k);
    }
  }

  // ---------------------------------------------------------------------
  // The batches put back together give the whole list
  // ---------------------------------------------------------------------

  /** The files of batches `bs[0..]`, in batch order. */
  function Rejoin<E>(files: seq<E>, bs: seq<Batch>): seq<E> {
    if |bs| == 0 then [] else Rejoin(files, bs[..|bs| - 1]) + BatchFiles(files, bs[|bs| - 1])
  }

  /** One more batch read extends the rejoined list by that batch's files. */
  lemma RejoinStep<E>(files: seq<E>, bs: seq<Batch>, i: nat)
    requires i < |bs|
    ensures Rejoin(files, bs[..i + 1]) == Rejoin(files, bs[..i]) + BatchFiles(files, bs[i])
  {
    assert bs[..i + 1][..i] == bs[..i];
  }

  /** Batches `0..k-1` of width `fpt` read, in order, the first `k * fpt`
      files (all of them, once that passes the end). */
  lemma {:induction false} RejoinPrefix<E>(files: seq<E>, bs: seq<Batch>, fpt: nat, k: nat)
    requires fpt >= 1 && k <= |bs|
    requires forall i :: 0 <= i < |bs| ==> bs[i] == BatchFor(i, fpt)
    ensures Rejoin(files, bs[..k]) == files[..Min(k * fpt, |files|)]
  {
    if k > 0 {
      RejoinPrefix(files, bs, fpt, k - 1);
      RejoinStep(files, bs, k - 1);
      assert bs[k - 1] == BatchFor(k - 1, fpt);
      BatchFilesSlice(files, fpt, k - 1);
      assert (k - 1 + 1) * fpt == k * fpt;
      JoinSlices(files, Min((k - 1) * fpt, |files|), Min(k * fpt, |files|));
    }
  }

  lemma JoinSlices<E>(s: seq<E>, lo: nat, hi: nat)
    requires lo <= hi <= |s|
    ensures s[..lo] + s[lo..hi] == s[..hi]
  {
  }

  /** Reading every batch in thread order gives back the whole file list:
      the batches are disjoint and cover `[0, |files|)`, in order. */
  lemma BatchesRejoinToFiles<E>(files: seq<E>, threads: nat)
    requires threads >= 1
    ensures Rejoin(files, MakeBatches(|files|, threads)) == files
  {
    var fpt := FilesPerThread(|files|, threads);
    RejoinCovering(files, MakeBatches(|files|, threads), fpt);
  }

  /** Batches of width `fpt` that together reach past the last file read
      back the whole list. */
  lemma RejoinCovering<E>(files: seq<E>, bs: seq<Batch>, fpt: nat)
    requires fpt >= 1 && |files| <= |bs| * fpt
    requires forall i :: 0 <= i < |bs| ==> bs[i] == BatchFor(i, fpt)
    ensures Rejoin(files, bs) == files
  {
    RejoinPrefix(files, bs, fpt, |bs|);
    assert bs[..|bs|] == bs;
    assert Min(|bs| * fpt, |files|) == |files|;
  }
}
