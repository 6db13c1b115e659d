/** Per-thread byte counters (`BytesWrittenPerThread`), their total, and the
    throughput figure of the final report. Each worker adds only to the slot
    of its own thread number, so the order in which the pool runs the batches
    does not matter; this module proves that, which is what lets the rest of
    the model run the batches one after another. */
module Accounting {

  /** The statistics an action prints when it finishes: entry counts of the
      scan, total bytes and throughput. */
  datatype Report = Report(files: nat, directories: nat, totalBytes: int, bytesPerSecond: int)

  /** `BytesWrittenPerThread.Sum()`. */
  function Sum(xs: seq<int>): int {
    if |xs| == 0 then 0 else xs[0] + Sum(xs[1..])
  }

  /** Sum of the sizes of `items` (file lengths, copy lengths), each taken from `size`. */
  function SumOfSizes<T>(items: seq<T>, size: T -> nat): nat {
    if |items| == 0 then 0 else SumOfSizes(items[..|items| - 1], size) + size(items[|items| - 1])
  }

  /** `new long[threads]`: `n` slots, each zero, so they sum to zero. */
  function Zeros(n: nat): (z: seq<int>)
    ensures |z| == n && Sum(z) == 0
    ensures forall k :: 0 <= k < n ==> z[k] == 0
  {
    if n == 0 then []
    else
      SumSnoc(Zeros(n - 1), 0);
      Zeros(n - 1) + [0]
  }

  // ---------------------------------------------------------------------
  // Sums
  // ---------------------------------------------------------------------

  /** Adding `amount` to one slot adds `amount` to the total. */
  lemma {:induction false} SumAfterSlotUpdate(xs: seq<int>, slot: nat, amount: int)
    requires slot < |xs|
    ensures Sum(xs[slot := xs[slot] + amount]) == Sum(xs) + amount
    decreases |xs|
  {
    var ys := xs[slot := xs[slot] + amount];
    if slot == 0 {
      assert ys[1..] == xs[1..];
    } else {
      SumAfterSlotUpdate(xs[1..], slot - 1, amount);
      assert ys[1..] == xs[1..][slot - 1 := xs[1..][slot - 1] + amount];
    }
  }

  /** Appending a slot adds its value to the total. */
  lemma {:induction false} SumSnoc(xs: seq<int>, x: int)
    ensures Sum(xs + [x]) == Sum(xs) + x
    decreases |xs|
  {
    if |xs| > 0 {
      SumSnoc(xs[1..], x);
      assert (xs + [x])[1..] == xs[1..] + [x];
    }
  }

  lemma {:induction false} SumOfSizesAppend<T>(a: seq<T>, b: seq<T>, size: T -> nat)
    ensures SumOfSizes(a + b, size) == SumOfSizes(a, size) + SumOfSizes(b, size)
    decreases |b|
  {
    if |b| > 0 {
      SumOfSizesAppend(a, b[..|b| - 1], size);
      assert (a + b)[..|a + b| - 1] == a + b[..|b| - 1];
    } else {
      assert a + b == a;
    }
  }

  /** Taking one item out of a list takes its size out of the total. */
  lemma SumOfSizesWithout<T>(b: seq<T>, j: nat, size: T -> nat)
    requires j < |b|
    ensures SumOfSizes(b, size) == SumOfSizes(b[..j] + b[j + 1..], size) + size(b[j])
  {
    var pre, x, post := b[..j], b[j], b[j + 1..];
    assert b == pre + ([x] + post);
    SumOfSizesAppend(pre, [x] + post, size);
    SumOfSizesAppend([x], post, size);
    SumOfSizesAppend(pre, post, size);
    assert [x][..0] == [];
    assert SumOfSizes([x], size) == SumOfSizes([], size) + size(x);
  }

  /** Taking one element out of a list takes it out of the list's bag. */
  lemma BagWithout<T>(b: seq<T>, j: nat)
    requires j < |b|
    ensures multiset(b[..j] + b[j + 1..]) == multiset(b) - multiset{b[j]}
  {
    assert b == b[..j] + [b[j]] + b[j + 1..];
  }

  /** The total size of a list of files depends only on which files it holds,
      not on their order: shuffling the file list leaves every total unchanged. */
  lemma {:induction false} SumOfSizesIgnoresOrder<T>(a: seq<T>, b: seq<T>, size: T -> nat)
    requires multiset(a) == multiset(b)
    ensures SumOfSizes(a, size) == SumOfSizes(b, size)
    decreases |a|
  {
    if |a| > 0 {
      var j := MatchLast(a, b);
      SumOfSizesIgnoresOrder(a[..|a| - 1], b[..j] + b[j + 1..], size);
      SumOfSizesWithout(b, j, size);
    } else {
      assert |b| == |multiset(b)| == 0;
    }
  }

  /** Where the last item of `a` sits in a list `b` with the same bag, and
      what is left of both once it is taken out. */
  lemma MatchLast<T>(a: seq<T>, b: seq<T>) returns (j: nat)
    requires |a| > 0 && multiset(a) == multiset(b)
    ensures j < |b| && b[j] == a[|a| - 1]
    ensures multiset(a[..|a| - 1]) == multiset(b[..j] + b[j + 1..])
  {
    var x := a[|a| - 1];
    assert x in multiset(b);
    j :| 0 <= j < |b| && b[j] == x;
    BagWithout(a, |a| - 1);
    BagWithout(b, j);
    assert a[..|a| - 1] + a[|a|..] == a[..|a| - 1];
  }

  // ---------------------------------------------------------------------
  // Running the batches in any order
  // ---------------------------------------------------------------------

  /** `amount` added `times` times over. */
  function Repeated(amount: int, times: nat): int {
    if times == 0 then 0 else Repeated(amount, times - 1) + amount
  }

  /** The counters after running, one at a time, the batch of each thread
      number listed in `order`; batch `k` adds `deltas[k]` to slot `k` only. */
  function RunInOrder(counters: seq<int>, order: seq<nat>, deltas: seq<int>): (r: seq<int>)
    requires |deltas| == |counters|
    requires forall j :: 0 <= j < |order| ==> order[j] < |counters|
    ensures |r| == |counters|
    decreases |order|
  {
    if |order| == 0 then counters
    else
      var t := order[0];
      RunInOrder(counters[t := counters[t] + deltas[t]], order[1..], deltas)
  }

  /** Running a list of batches adds to each slot its batch's delta once per
      time that batch is listed, whatever the order of the list. */
  lemma {:induction false} RunInOrderAdds(counters: seq<int>, order: seq<nat>, deltas: seq<int>, k: nat)
    requires |deltas| == |counters| && k < |counters|
    requires forall j :: 0 <= j < |order| ==> order[j] < |counters|
    ensures RunInOrder(counters, order, deltas)[k] == counters[k] + Repeated(deltas[k], multiset(order)[k])
    decreases |order|
  {
    if |order| > 0 {
      var t := order[0];
      RunInOrderAdds(counters[t := counters[t] + deltas[t]], order[1..], deltas, k);
      assert order == [t] + order[1..];
      assert multiset(order)[k] == multiset(order[1..])[k] + (if k == t then 1 else 0);
    }
  }

  /** Thread numbers `0..n-1` in ascending order: the dispatch loop's order. */
  function Threads(n: nat): (ts: seq<nat>)
    ensures |ts| == n && forall k :: 0 <= k < n ==> ts[k] == k
  {
    seq(n, k requires 0 <= k => k)
  }

  /** A schedule runs every thread's batch exactly once, in some order. */
  predicate IsSchedule(order: seq<nat>, threads: nat) {
    multiset(order) == multiset(Threads(threads))
  }

  lemma {:induction false} ThreadsOnce(n: nat, k: nat)
    ensures multiset(Threads(n))[k] == if k < n then 1 else 0
  {
    if n > 0 {
      ThreadsOnce(n - 1, k);
      assert Threads(n) == Threads(n - 1) + [n - 1];
    }
  }

  /** A schedule lists only thread numbers below `threads`, each exactly once. */
  lemma ScheduleRunsEachThreadOnce(order: seq<nat>, threads: nat)
    requires IsSchedule(order, threads)
    ensures forall j :: 0 <= j < |order| ==> order[j] < threads
    ensures forall k: nat :: k < threads ==> multiset(order)[k] == 1
  {
    forall j | 0 <= j < |order|
      ensures order[j] < threads
    {
      assert order[j] in multiset(order);
      ThreadsOnce(threads, order[j]);
    }
    forall k: nat | k < threads
      ensures multiset(order)[k] == 1
    {
      ThreadsOnce(threads, k);
    }
  }

  /** Any schedule yields the same counters: slot `k` holds its start value
      plus exactly what batch `k` added. */
  lemma ScheduleIndependent(counters: seq<int>, order: seq<nat>, deltas: seq<int>)
    requires |deltas| == |counters| && IsSchedule(order, |counters|)
    ensures forall j :: 0 <= j < |order| ==> order[j] < |counters|
    ensures var r := RunInOrder(counters, order, deltas);
      |r| == |counters| && forall k :: 0 <= k < |r| ==> r[k] == counters[k] + deltas[k]
  {
    ScheduleRunsEachThreadOnce(order, |counters|);
    var r := RunInOrder(counters, order, deltas);
    forall k | 0 <= k < |r|
      ensures r[k] == counters[k] + deltas[k]
    {
      RunInOrderAdds(counters, order, deltas, k);
      assert multiset(order)[k] == 1;
      assert Repeated(deltas[k], 1) == Repeated(deltas[k], 0) + deltas[k];
    }
  }

  /** From zeroed counters (`new long[threads]`), any schedule leaves in
      each slot exactly what that slot's batch added. */
  lemma ScheduleFromZeros(counters: seq<int>, order: seq<nat>, deltas: seq<int>)
    requires |deltas| == |counters| && IsSchedule(order, |counters|)
    requires forall k :: 0 <= k < |counters| ==> counters[k] == 0
    ensures forall j :: 0 <= j < |order| ==> order[j] < |counters|
    ensures RunInOrder(counters, order, deltas) == deltas
  {
    ScheduleIndependent(counters, order, deltas);
    var r := RunInOrder(counters, order, deltas);
    assert forall k :: 0 <= k < |r| ==> r[k] == deltas[k];
  }

  /** What the queued batches add to slot `t`: the amount of every batch
      whose thread number is `t`, where batch `k` has thread number
      `slots[k]` and adds `amounts[k]`. */
  function SlotTotal(slots: seq<nat>, amounts: seq<int>, t: nat): int
    requires |slots| == |amounts|
    decreases |slots|
  {
    if |slots| == 0 then 0
    else
      var n := |slots| - 1;
      SlotTotal(slots[..n], amounts[..n], t) + (if slots[n] == t then amounts[n] else 0)
  }

  /** The pool's `n` counters after the queued batches ran one after
      another from zero, batch `k` adding `amounts[k]` to slot `slots[k]`. */
  function QueueTally(n: nat, slots: seq<nat>, amounts: seq<int>): (r: seq<int>)
    requires |slots| == |amounts|
    ensures |r| == n
    decreases |slots|
  {
    if |slots| == 0 then Zeros(n)
    else
      var last := |slots| - 1;
      var prev := QueueTally(n, slots[..last], amounts[..last]);
      var t := slots[last];
      if t < n then prev[t := prev[t] + amounts[last]] else prev
  }

  /** Running batch `i` after batches `0..i-1` adds its amount to its own slot. */
  lemma TallyStep(n: nat, slots: seq<nat>, amounts: seq<int>, i: nat, amount: int, prev: seq<int>, after: seq<int>)
    requires i < |slots| && |amounts| == i && slots[i] < n
    requires prev == QueueTally(n, slots[..i], amounts)
    requires after == prev[slots[i] := prev[slots[i]] + amount]
    ensures after == QueueTally(n, slots[..i + 1], amounts + [amount])
  {
    assert slots[..i + 1][..i] == slots[..i];
    assert (amounts + [amount])[..i] == amounts;
  }

  /** The counters the queue leaves are, slot by slot, the totals of the
      batches numbered for that slot. */
  lemma {:induction false} TallyIsSlotTotal(n: nat, slots: seq<nat>, amounts: seq<int>, t: nat)
    requires |slots| == |amounts| && t < n
    ensures QueueTally(n, slots, amounts)[t] == SlotTotal(slots, amounts, t)
    decreases |slots|
  {
    if |slots| > 0 {
      var last := |slots| - 1;
      TallyIsSlotTotal(n, slots[..last], amounts[..last], t);
    }
  }

  /** `TallyIsSlotTotal` for every slot at once. */
  lemma TallySlots(n: nat, slots: seq<nat>, amounts: seq<int>)
    requires |slots| == |amounts|
    ensures forall t :: 0 <= t < n ==> QueueTally(n, slots, amounts)[t] == SlotTotal(slots, amounts, t)
  {
    forall t | 0 <= t < n
      ensures QueueTally(n, slots, amounts)[t] == SlotTotal(slots, amounts, t)
    {
      TallyIsSlotTotal(n, slots, amounts, t);
    }
  }

  /** With one batch per thread, numbered `0..n-1` in queue order, slot `t`
      receives exactly the amount of batch `t`. */
  lemma {:induction false} SlotTotalOfThreads(amounts: seq<int>, t: nat)
    ensures SlotTotal(Threads(|amounts|), amounts, t) == if t < |amounts| then amounts[t] else 0
    decreases |amounts|
  {
    var n := |amounts|;
    if n > 0 {
      SlotTotalOfThreads(amounts[..n - 1], t);
      assert Threads(n)[..n - 1] == Threads(n - 1);
    }
  }

  /** With one batch per thread, numbered in queue order, the queue leaves
      in every slot the amount of that slot's own batch. */
  lemma TallyOfThreads(amounts: seq<int>)
    ensures QueueTally(|amounts|, Threads(|amounts|), amounts) == amounts
  {
    var r := QueueTally(|amounts|, Threads(|amounts|), amounts);
    forall t | 0 <= t < |amounts|
      ensures r[t] == amounts[t]
    {
      TallyIsSlotTotal(|amounts|, Threads(|amounts|), amounts, t);
      SlotTotalOfThreads(amounts, t);
    }
  }

  /** The counters left by one batch per thread, numbered in queue order,
      are those any schedule of the pool leaves. */
  lemma OneBatchPerThread(counters: seq<int>, amounts: seq<int>)
    requires counters == QueueTally(|amounts|, Threads(|amounts|), amounts)
    ensures counters == amounts
    ensures forall order :: IsSchedule(order, |amounts|) ==>
      (forall j :: 0 <= j < |order| ==> order[j] < |amounts|) && RunInOrder(Zeros(|amounts|), order, amounts) == counters
  {
    TallyOfThreads(amounts);
    forall order | IsSchedule(order, |amounts|)
      ensures (forall j :: 0 <= j < |order| ==> order[j] < |amounts|) && RunInOrder(Zeros(|amounts|), order, amounts) == amounts
    {
      ScheduleFromZeros(Zeros(|amounts|), order, amounts);
    }
  }

  /** Two schedules of the same batches leave identical counter arrays. */
  lemma AnyTwoSchedulesAgree(counters: seq<int>, order1: seq<nat>, order2: seq<nat>, deltas: seq<int>)
    requires |deltas| == |counters| && IsSchedule(order1, |counters|) && IsSchedule(order2, |counters|)
    ensures forall j :: 0 <= j < |order1| ==> order1[j] < |counters|
    ensures forall j :: 0 <= j < |order2| ==> order2[j] < |counters|
    ensures RunInOrder(counters, order1, deltas) == RunInOrder(counters, order2, deltas)
  {
    ScheduleIndependent(counters, order1, deltas);
    ScheduleIndependent(counters, order2, deltas);
    var r1, r2 := RunInOrder(counters, order1, deltas), RunInOrder(counters, order2, deltas);
    assert forall k :: 0 <= k < |r1| ==> r1[k] == r2[k];
  }

  // ---------------------------------------------------------------------
  // Throughput
  // ---------------------------------------------------------------------

  /** C# `long` division, which truncates toward zero. */
  function TruncatedDiv(a: int, b: int): int
    requires b > 0
  {
    if a >= 0 then a / b else -((-a) / b)
  }

  /** Non-negative division brackets its dividend between two multiples of the divisor. */
  lemma DivBrackets(a: nat, b: nat)
    requires b > 0
    ensures 0 <= a / b <= a
    ensures (a / b) * b <= a < (a / b + 1) * b
  {
    var q, m := a / b, a % b;
    assert a == q * b + m && 0 <= m < b;
    MulAtLeast(q, b);
    assert (q + 1) * b == q * b + b;
  }

  lemma MulAtLeast(q: nat, b: nat)
    requires b >= 1
    ensures q * b >= q
  {
    assert q * b == q * (b - 1) + q;
  }

  /** `TotalBytes / Math.Max(totalSeconds, 1)`. */
  function BytesPerSecond(totalBytes: int, totalSeconds: int): (r: int)
    ensures totalBytes >= 0 ==> 0 <= r <= totalBytes
    ensures totalBytes >= 0 && totalSeconds >= 1 ==>
      r * totalSeconds <= totalBytes < (r + 1) * totalSeconds
    ensures totalSeconds <= 1 ==> r == totalBytes
    ensures totalBytes < 0 ==> totalBytes <= r <= 0
    ensures totalBytes < 0 && totalSeconds >= 1 ==>
      (r - 1) * totalSeconds < totalBytes <= r * totalSeconds
  {
    var divisor := if totalSeconds > 1 then totalSeconds else 1;
    var magnitude: nat := if totalBytes >= 0 then totalBytes else -totalBytes;
    DivBrackets(magnitude, divisor);
    var q := magnitude / divisor;
    assert totalBytes < 0 ==> (-q - 1) * divisor == -((q + 1) * divisor) && -q * divisor == -(q * divisor);
    TruncatedDiv(totalBytes, divisor)
  }
}
