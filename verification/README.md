# TurboCopyGT in Dafny

TurboCopyGT copies or deletes a directory tree using a pool of worker threads.
This project models the deterministic core of both actions and proves properties of it.

- **Scan.** `ScanForAllDirectoriesAndFiles` walks the tree and records files and directories.
  - It applies the file and directory exclusion predicates.
  - On Windows it applies the reserved-folder guard at disk roots.
- **Partition.** The scanned file list is split into one batch per thread:
  - `filesPerThread = count / T + 1`;
  - batch `i` covers `Skip(i * fpt).Take(fpt)`.
- **Byte accounting.** Each worker adds the length of every file it handles to its own slot of `BytesWrittenPerThread`. The reported total is the sum of the slots.
- **Copy.** Each entry's destination is `path.Replace(SourcePath, DestPath)`, and an entry that this rewrite leaves unchanged is skipped. The copy creates the mirrored directories that do not exist yet, then copies the files batch by batch.
- **Delete.** The batches delete the scanned files. `DeleteEverythingInDirectory` then sweeps what is left below the root, and the emptied root is removed.
- **Throughput.** The report computes `TotalBytes / Math.Max(seconds, 1)` using C# truncating `long` division.

## Module layout

| module | models |
|---|---|
| `PathText` | `String.Replace`, `StartsWith`/`EndsWith`, counting backslashes, `IsPathAtDiskRoot` |
| `FileTree` | the directory tree and the multisets of its file and directory paths |
| `Blocks` | contiguous runs inside a list, used to state the scan's ordering |
| `Scan` | the recursive scan, plus a structural reference definition (`Walk`) it is proved equal to |
| `Partition` | `FilesPerThread`, the batches, and LINQ `Skip`/`Take` |
| `Accounting` | counter slots, their sum, independence from the order batches run in, and throughput |
| `Copy` | `CopyAction`, `CreateAllDirectories`, `CopyAllFilesLimitedThreads`, `CopyFileBatch` |
| `Delete` | `DeleteAction`, `DeleteAllFilesLimitedThreads`, `DeleteFileBatch`, `DeleteEverythingInDirectory`, the final `Directory.Delete` |

### Modelling choices

- **Thread pool.** Batches run one after another in queue order. Each batch writes only the slot of its own thread number. `Accounting.OneBatchPerThread` shows that the counters the queue-order run computes equal what any other schedule of the same batches computes (`Accounting.RunInOrder`). `CopyAllFilesLimitedThreads` and `DeleteAllFilesLimitedThreads` state this of their own counters.
- **Per-batch work as ghost parameters.** The loops that run the queued batches (`Copy.RunQueuedBatches`, `Delete.RunQueuedDeletes`) take what a batch does and what it counts as ghost functions. A predicate (`Copy.Describes`, `Delete.Measures`) ties them to the concrete batch worker. The counters are stated per slot (`Partition.BatchTally`), and the work of all batches as their concatenation in queue order (`Partition.Joined`).
- **Contiguous blocks.** `Blocks.BlockAt(s, i, b)` says that `b` sits inside `s` starting at index `i`. The scan's ordering lemmas are stated with it.
- **Tree after the sweep.** `Delete.ApplyRemovals` computes the tree a run of removals leaves: removed files are gone, and so are removed subdirectories with everything below them. The directory passed to the final `Directory.Delete` is that tree, not one built empty.
- **File system.** It is a `FileTree.Tree` value: each directory has its full path, its file paths and its subdirectories, in listing order. `Directory.Exists` becomes a `Lookup` that is either `Missing` or `Found(tree)`.
- **File lengths.** `FileInfo.Length` is a snapshot function `size: string -> nat`.
- **Timing.** The whole seconds elapsed are an input, `elapsedSeconds`.
- **Exclusions.** The exclusion matchers are uninterpreted predicates in `Scan.ScanConfig`. The platform check is the `onWindows` flag.
- **Destination paths.** They come from `String.Replace` (CopyTasks.cs:104), which rewrites every occurrence of the source root, not only a leading prefix. `PathText.ReplaceRewritesInnerOccurrence`: with roots `/a` and `/b`, `/a/a` maps to `/b/b`.
- **Existing destination files.** `CopyTo` is called without the overwrite flag (CopyTasks.cs:111). The model does not look at the destination's files (see Left out).
- **Empty source path.** `Directory.Exists("")` is false. So an existing source root has a non-empty path (`FileTree.Locates`). This is why `Replace`'s non-empty `oldValue` precondition always holds.

## Model

| member | source | states |
|---|---|---|
| PathText.CountChar | TurboCopyGT/ScanTasks.cs:16 | The backslash count is at most the length and is zero exactly when the character is absent |
| PathText.ReplaceUnchangedIff | TurboCopyGT/CopyTasks.cs:104-106 | `Replace(path, src, dst) == path` holds exactly when `dst == src` or `src` does not occur in `path`; this is the copy engine's skip condition |
| PathText.ReplaceWithSelf | TurboCopyGT/CopyTasks.cs:70-72 | Replacing a value by itself returns the path unchanged |
| PathText.ReplaceWithoutOccurrence | TurboCopyGT/CopyTasks.cs:104 | A path not containing the source root comes back unchanged |
| PathText.ReplaceChangesOccurrence | TurboCopyGT/CopyTasks.cs:104 | A path containing the source root changes whenever the destination root differs |
| PathText.ReplaceNeverLonger | TurboCopyGT/CopyTasks.cs:104 | A replacement no longer than the old value never lengthens the path |
| PathText.ReplaceNeverShorter | TurboCopyGT/CopyTasks.cs:104 | A replacement at least as long as the old value never shortens the path |
| PathText.ReplaceLeadingValue | TurboCopyGT/CopyTasks.cs:104 | A leading source root is replaced by the destination root; when the root does not occur again, the result is exactly prefix substitution |
| PathText.ReplaceRewritesInnerOccurrence | TurboCopyGT/CopyTasks.cs:104 | With roots `/a` and `/b`, the path `/a/a` becomes `/b/b` and not `/b/a`: every occurrence is rewritten |
| PathText.IsPathAtDiskRoot | TurboCopyGT/ScanTasks.cs:15-21 | A path is a disk root only if it has exactly one or exactly three backslashes |
| PathText.DiskRootShapes | TurboCopyGT/ScanTasks.cs:15-21 | A disk root is exactly a `\\`-prefixed path with three backslashes, or a three-character `X:\` whose first character is not a backslash |
| PathText.ReservedRootIsShareRoot | TurboCopyGT/ScanTasks.cs:26-30 | The reserved-folder guard can fire only on a UNC share root of at least 8 characters, never on a drive root |
| Scan.KeptFiles | TurboCopyGT/ScanTasks.cs:34-38 | The recorded files of one directory are its listed files minus the excluded ones, with multiplicity; none of them is excluded |
| Scan.ScanInto | TurboCopyGT/ScanTasks.cs:23-45 | Scanning appends the structural walk to the lists; earlier contents stay a prefix; when the reserved-folder guard fires, nothing is appended |
| Scan.ScanSubdirectories | TurboCopyGT/ScanTasks.cs:39-44 | The subdirectory loop appends exactly the walk of the kept subdirectories, in order |
| Scan.ScanForAllDirectoriesAndFiles | TurboCopyGT/ScanTasks.cs:23-45 | The scan starting from empty lists equals the structural reference walk `Walk` |
| Scan.WalkRecordsOnlyKeptEntries | TurboCopyGT/ScanTasks.cs:34-43 | Only entries of the tree are recorded, no more often than they occur, and no recorded entry matches its exclusion predicate |
| Scan.RootNeverRecorded | TurboCopyGT/ScanTasks.cs:42 | On a tree without repeated paths, the scanned root itself is never added to `Directories` |
| Scan.ExcludedSubtreeFilesDropped | TurboCopyGT/ScanTasks.cs:39-43 | For a directory excluded at any depth, the recorded files fit in the tree's files with that directory's whole subtree taken out |
| Scan.ExcludedSubtreeDirectoriesDropped | TurboCopyGT/ScanTasks.cs:39-43 | For a directory excluded at any depth, the recorded directories fit in the tree's directories with that directory and everything below it taken out |
| Scan.ExcludedSubtreeAbsent | TurboCopyGT/ScanTasks.cs:39-43 | On a tree without repeated paths, no file or directory of the subtree of a directory excluded at any depth, the excluded directory included, is recorded |
| Scan.WalkComplete | TurboCopyGT/ScanTasks.cs:33-44 | When nothing is excluded and the guard never fires, the recorded files and directories equal, as multisets, every file and every non-root directory of the tree |
| Scan.ScanRecordsEachEntryOnce | TurboCopyGT/ScanTasks.cs:33-44 | On a real tree with nothing excluded, every file and every non-root directory is recorded exactly once |
| Scan.SubtreeListingIsBlock | TurboCopyGT/ScanTasks.cs:33-44 | For any directory the scan enters, at any depth, what is recorded inside it forms one contiguous block of the recorded files and one of the recorded directories |
| Scan.OwnFilesFirst | TurboCopyGT/ScanTasks.cs:34-44 | At every depth, a directory's own kept files form a block of the recorded files, and the files of each kept subdirectory form a later block |
| Scan.DirectoryPrecedesItsSubtree | TurboCopyGT/ScanTasks.cs:39-44 | Pre-order at every depth: a kept subdirectory is recorded immediately before the block of everything recorded inside it |
| Partition.FilesPerThread | TurboCopyGT/CopyTasks.cs:87 | `count / T + 1` is at least 1, and `T` batches of that width reach past the last file while `T` batches one narrower do not |
| Partition.MakeBatches | TurboCopyGT/CopyTasks.cs:87-95 | Exactly `T` batches numbered `0..T-1`, each `filesPerThread` wide; the first starts at 0, each starts right after the previous ends, and the last ends at or past the last file |
| Partition.Skip | TurboCopyGT/CopyTasks.cs:103 | LINQ `Skip` keeps the suffix after `count` elements, everything for a non-positive count, nothing past the end |
| Partition.Take | TurboCopyGT/CopyTasks.cs:103 | LINQ `Take` keeps the first `count` elements, or all of them when there are fewer |
| Partition.BatchFilesSlice | TurboCopyGT/CopyTasks.cs:103 | A batch visits exactly the file-index range `[i*fpt, (i+1)*fpt)` clamped to the list |
| Partition.EachFileInExactlyOneBatch | TurboCopyGT/CopyTasks.cs:87-92 | Every file index is visited by batch `k / fpt` and by no other batch |
| Partition.BatchesDisjoint | TurboCopyGT/CopyTasks.cs:87-92 | No two distinct batches visit the same index |
| Partition.RejoinPrefix | TurboCopyGT/CopyTasks.cs:91-92 | The first `k` batches, read in order, visit exactly the first `k*fpt` files, clamped to the list |
| Partition.RejoinCovering | TurboCopyGT/CopyTasks.cs:89-103 | Consecutive batches of width `fpt` that together reach past the last file, read in order, give back exactly the file list |
| Partition.BatchesRejoinToFiles | TurboCopyGT/CopyTasks.cs:87-103 | All batches read in thread order give back exactly the whole file list |
| Partition.BatchTallyIsQueueTally | TurboCopyGT/CopyTasks.cs:89-109 | Running batches in queue order, each adding its amount to its own thread's slot, gives the tally of their thread numbers and amounts |
| Partition.BatchTallySlots | TurboCopyGT/CopyTasks.cs:89-109 | After the queued batches run, each slot holds the sum of the amounts of exactly the batches numbered with that slot |
| Accounting.Zeros | TurboCopyGT/CopyTasks.cs:122 | `new long[T]` has `T` slots, all zero, so the counters start with sum 0 |
| Accounting.TallyIsSlotTotal | TurboCopyGT/CopyTasks.cs:109 | Adding amounts to slots one after another leaves in each slot the sum of the amounts aimed at it |
| Accounting.TallyOfThreads | TurboCopyGT/CopyTasks.cs:89-95 | With one batch per thread number `0..T-1`, each slot ends holding its own batch's amount |
| Accounting.OneBatchPerThread | TurboCopyGT/CopyTasks.cs:89-109 | The queue-order counters equal each batch's amount in its own slot, and every schedule of the batches (`RunInOrder` from zeros) gives those same counters |
| Accounting.SumAfterSlotUpdate | TurboCopyGT/CopyTasks.cs:109 | Adding an amount to one slot adds that amount to `Sum()` |
| Accounting.SumOfSizesIgnoresOrder | TurboCopyGT/CopyTasks.cs:37-38 | The total size of a file list depends only on its multiset, so shuffling leaves totals unchanged |
| Accounting.RunInOrderAdds | TurboCopyGT/CopyTasks.cs:109 | Running any list of batches adds to slot `k` only batch `k`'s amount, once per time it runs |
| Accounting.ScheduleRunsEachThreadOnce | TurboCopyGT/CopyTasks.cs:89-95 | A schedule of the `T` queued batches names only valid slots, each exactly once |
| Accounting.ScheduleIndependent | TurboCopyGT/CopyTasks.cs:109 | Under any schedule, slot `k` ends as its start value plus exactly batch `k`'s amount |
| Accounting.ScheduleFromZeros | TurboCopyGT/CopyTasks.cs:109 | From zeroed counters, any schedule leaves in each slot exactly what that slot's batch added |
| Accounting.AnyTwoSchedulesAgree | TurboCopyGT/CopyTasks.cs:109 | Two schedules of the same batches give identical counter arrays |
| Accounting.BytesPerSecond | TurboCopyGT/CopyTasks.cs:60-61 | For a non-negative total the throughput lies between 0 and the total and is the floor of total over seconds; under one second it is the total; a negative total is rounded toward zero (C# truncating division), not floored |
| Copy.CopyPlan | TurboCopyGT/CopyTasks.cs:103-109 | A worker's copies number at most its files; each goes to the rewritten path, which differs from the source, and counts the source's length |
| Copy.CopyPlanBag | TurboCopyGT/CopyTasks.cs:103-111 | A copy is planned as often as its source is listed, exactly when it is the rewrite of a source the rewrite moves |
| Copy.CopiedIff | TurboCopyGT/CopyTasks.cs:104-106 | A file is copied exactly when it is listed, the roots differ and the source root occurs in its path |
| Copy.CopyPlanAppend | TurboCopyGT/CopyTasks.cs:103 | Planning two lists one after another plans their concatenation |
| Copy.ShuffleKeepsCopies | TurboCopyGT/CopyTasks.cs:37-38 | Any reordering of the file list makes the same copies and counts the same bytes |
| Copy.CopyOntoItselfCopiesNothing | TurboCopyGT/CopyTasks.cs:104-106 | With destination equal to source, no file is copied |
| Copy.CopyFileBatch | TurboCopyGT/CopyTasks.cs:99-113 | A worker makes exactly the planned copies of its batch and adds their total length to its own slot only |
| Copy.CopyEach | TurboCopyGT/CopyTasks.cs:103-112 | The file loop skips unchanged paths and counts each copied file's length in slot `t` only |
| Copy.JoinedCopyPlans | TurboCopyGT/CopyTasks.cs:99-111 | The batches' copy plans, joined in queue order, are the plan for the rejoined file list |
| Copy.RunBatch | TurboCopyGT/CopyTasks.cs:95-113 | Running one queued batch makes exactly its planned copies and adds their total length to the slot of its thread number only |
| Copy.RunQueuedBatches | TurboCopyGT/CopyTasks.cs:45-51 | Running all queued batches leaves in each slot the total length copied by the batches with that thread number; the copies are the plan of the rejoined batches, and the slots sum to its total length |
| Copy.CopyAllFilesLimitedThreads | TurboCopyGT/CopyTasks.cs:85-97 | Slot `k` holds exactly the length copied by batch `k`, the same counters any schedule of the batches gives; all batches together copy exactly the plan for the whole list, and `TotalBytes` equals its total length |
| Copy.DirectoryTargetsIgnoreOrder | TurboCopyGT/CopyTasks.cs:37-41 | The directories created depend only on the multiset of scanned directories |
| Copy.CreateAllDirectories | TurboCopyGT/CopyTasks.cs:67-76 | The directory set becomes the existing set plus every moved target; exactly the absent targets are created, each once; with every target already present nothing changes, so a second run is a no-op |
| Copy.CopyOntoItselfCreatesNothing | TurboCopyGT/CopyTasks.cs:70-72 | With destination equal to source, no directory is created |
| Copy.CopyAction | TurboCopyGT/CopyTasks.cs:15-65 | A missing source does no work. Otherwise the listing is the scan, the directories and copies are as planned, `TotalBytes` is the slot sum and the planned length, and throughput uses `max(seconds, 1)`. Copying onto itself creates, copies and counts nothing |
| Delete.DeleteFileBatch | TurboCopyGT/DeleteTasks.cs:79-88 | A worker deletes exactly its batch's files, with no skip, and adds their lengths to its own slot only |
| Delete.DeleteEach | TurboCopyGT/DeleteTasks.cs:83-87 | The file loop deletes every visited file and adds each length to slot `t` |
| Delete.JoinedVisits | TurboCopyGT/DeleteTasks.cs:79-87 | The batches' deleted files, joined in queue order, are the rejoined file list |
| Delete.RunDeleteBatch | TurboCopyGT/DeleteTasks.cs:75-88 | Running one queued batch deletes exactly its files and adds their lengths to the slot of its thread number only |
| Delete.RunQueuedDeletes | TurboCopyGT/DeleteTasks.cs:38-41 | Running all queued batches leaves in each slot the lengths deleted by the batches with that thread number; the deleted files are the rejoined batches' files, and the slots sum to their lengths |
| Delete.DeleteAllFilesLimitedThreads | TurboCopyGT/DeleteTasks.cs:65-77 | Slot `k` holds exactly the lengths of batch `k`'s files, the same counters any schedule of the batches gives; every scanned file is deleted by exactly one batch, in list order overall, and the `T` slots sum to the scanned files' lengths |
| Delete.RemoveFilesTakesOutGone | TurboCopyGT/DeleteTasks.cs:86 | Deleting the batch files takes exactly those paths out of the tree's files and leaves every directory |
| Delete.FileRemovalsRemoveListing | TurboCopyGT/DeleteTasks.cs:92-94 | Deleting a directory's listed files removes exactly those files and no directory |
| Delete.DeleteRecursive | TurboCopyGT/DeleteTasks.cs:96 | A recursive delete removes the directory itself last |
| Delete.DeleteRecursiveRemovesSubtree | TurboCopyGT/DeleteTasks.cs:95-97 | A recursive delete removes exactly the subtree's files and directories, its root included |
| Delete.SweepRemovesContents | TurboCopyGT/DeleteTasks.cs:90-98 | The sweep removes every file and every directory below the root and not the root; followed by the root's removal it is the recursive delete of the whole tree |
| Delete.SweepEmptiesDirectory | TurboCopyGT/DeleteTasks.cs:90-98 | Applying the sweep's removals to the directory it sweeps leaves it with no file and no subdirectory |
| Delete.DeleteEverythingInDirectory | TurboCopyGT/DeleteTasks.cs:90-98 | The directory left is the tree with the removals applied, and it has no file and no subdirectory; the removals are exactly the tree's files and non-root directories |
| Delete.SweepLeftovers | TurboCopyGT/DeleteTasks.cs:41-45 | After the batches, the sweep removes exactly the files they missed and every directory below the root, and leaves the root empty |
| Delete.DeleteEmptyDirectory | TurboCopyGT/DeleteTasks.cs:47 | Non-recursive `Directory.Delete` succeeds exactly when the directory holds no file and no directory at any depth |
| Delete.DeleteAction | TurboCopyGT/DeleteTasks.cs:16-63 | A missing path does no work. Otherwise the scanned files are deleted by the batches, and `TotalBytes` is the slot sum and the scanned files' lengths. The sweep removes every other file and every directory below the root. The root is removed because the tree the sweep leaves is empty. Throughput uses `max(seconds, 1)` |
| Delete.EachFileDeletedOnce | TurboCopyGT/DeleteTasks.cs:38-47 | On a real tree, every file is deleted exactly once, either by a batch or by the sweep |
| Delete.CompleteScanLeavesNoFileToSweep | TurboCopyGT/DeleteTasks.cs:33-45 | With nothing excluded, the batches delete every file and the sweep removes only directories |
| Delete.ReservedRootDeletedUncounted | TurboCopyGT/DeleteTasks.cs:33-49 | When the reserved-folder guard fires on the root, no byte is counted, yet the sweep deletes every file |

## Left out

- The thread pool (`SmartThreadPool`, `QueueWorkItem`, `WaitForIdle`, priorities): batches run sequentially; the schedule lemmas in `Accounting` justify this.
- Real I/O: `FileInfo.CopyTo`, `FileInfo.Delete`, `GetFiles`/`GetDirectories`, `Directory.Exists`. The tree value stands in for the disk, and listing order is whatever order the tree holds.
- I/O failures (locked files, permissions, a file vanishing between scan and delete) and the exceptions they raise.
- Copy.CopyAction: the copy's effect on the destination tree is not modelled. In particular, `CopyTo` without the overwrite flag throws when the destination file exists.
- Copy.CreateAllDirectories: `Directory.CreateDirectory` also creates missing ancestors. The model adds only the path itself.
- `StringTasks.DoAnyPatternsMatch` and `StringTasks.SizeSuffix` are not part of this model. Exclusion is an uninterpreted predicate, and the size suffix is only console output.
- PathText.MatchesDriveRootExpression: `FileSystemName.MatchesSimpleExpression(@"?:\", path)` is read literally: any character, a colon, a backslash. The library's escape handling is not modelled.
- `ScanTasks.ShuffleFilesAndDirectories` is not part of this model. Its effect is covered by lemmas showing that totals, copies and created directories depend only on the multisets of files and directories (`Accounting.SumOfSizesIgnoresOrder`, `Copy.ShuffleKeepsCopies`, `Copy.DirectoryTargetsIgnoreOrder`).
- `DateTime.Now` and the `double`-to-`long` truncation of `TotalSeconds`: elapsed whole seconds are an input.
- Accounting.Sum: 64-bit `long` overflow of the counters and of `Sum()` is not modelled; integers are unbounded.
- Partition.MakeBatches: 32-bit `int` overflow of `i * filesPerThread` for lists near `int.MaxValue` entries is not modelled.
- `StartsWith`/`EndsWith` are taken as ordinal comparisons. .NET's culture-sensitive default for a `string` argument is not modelled.
- Console output, `Program.Main` mode dispatch and test mode, `RuntimeSettings`, and the data-only `IBaseActionDetails` interface.
- Delete.DeleteRecursive: `DirectoryInfo.Delete(true)` is library code. The removal order it is modelled with (files, then subdirectories recursively, then the directory) is an assumption. Only the set of removals matters to the other contracts.
