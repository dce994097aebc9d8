# Nocturne: a verified model of the library pipeline

Nocturne keeps a music library on a desktop and mirrors a chosen part of it to
a phone. Its daemon walks the library (`scan`), takes in what the phone
reports (`ingest`), decides which tracks should be resident (`resolve`) and
moves files between `archive/` and `resident/` (`rotate`). This project models
that pipeline, the data structures under it and the two permutation builders
on the phone, and proves what they keep.

The model follows the code. Where the code changes things step by step there
is a class or a method with loops, proved against a function; what the code is
meant to guarantee is proved about the function. The disk is a map from names
to inodes and content, a table is a map, and every system call or database
write may fail. A move is modelled as the list of all states it passes
through, so that a crash is any prefix of that list.

| file | models |
|---|---|
| Text, Paths, Sorting, Permutations, Prelude | strcmp, library paths, sorting, permutations, options |
| Jobs, Rotate, RotatePlan, RotateCount, RotateEngine | moving originals: the moves and their crash points, the planned diff, the counters, the engine as it runs |
| Recovery, Rerun, Cycle | histories of crashes, scans and rotations, and exactly what the next cycle repairs |
| Transcode, TranscodePlan, TranscodeCount, TranscodeEngine | the same engine in transcode mode |
| Prune | the two sweeps over `resident/` after a run |
| Scan, ScanFailure | the incremental index, and exactly which walks fail |
| Jsonl, Ingest, Lww, Pins | the line reader, exactly-once ingest, last-writer-wins rows, pins against unsyncs |
| Resolver, Admission, Greedy, ResolverRun | candidates, admission under the cap, the manifest told from the bucket rows, exploration |
| ManifestDiff | the merge of two manifests and the bucket lists it compares |
| WatchMap | the watch-descriptor table |
| Discover, PickOrder | the weekly picks |
| QueueRestore, AlbumShuffle | the phone's restored queue and album shuffle |

## Where code and comments disagree

The model follows the code in each case.

- `src/nocturned/rotate.c:21-24` says a crash between unlink and the database
  update is recognised by looking at the destination. It is not
  (`Rerun.NoRecoveryWithoutScan`); the scan of the next cycle repairs it
  (`Cycle.NextCycleRecovers`).
- `src/nocturned/rotate.c:17-20` says a crash between link and unlink is
  completed by the next run. It is when the row still names the source. When
  the scan has re-pointed the row at the new name, the old link stays, and a
  scan that walks the two names in another order leaves the track on the wrong
  side (`Rerun.RecoveredTrackCanFlip`, `Cycle.OtherOrderFlips`); which tracks
  end there is `Rerun.RerunPutsRight`.
- `src/nocturned/rotate.c:13-20` relies on retries to converge. After a copy
  across filesystems they need not. A crash while copying leaves a file that
  blocks the track for good (`Rerun.CrashWhileCopying`,
  `Rerun.TornCopyBlocks`); a crash before the unlink leaves two files, and the
  track is stuck for as long as the scan stays with the old one
  (`Rerun.CrashAfterCopy`). A rotation that counts no error for the track has
  put it right (`Rerun.OneCrash`).
- `src/nocturned/rotate.c:330-334` says a single cycle heals a resident row
  whose file is gone. When the row names a path under `resident/` it never
  heals and no error is counted (`RotatePlan.MissingFileNeverHeals`,
  `RotatePlan.SecondRunIdle`).
- `src/nocturned/rotate.c:544-545` takes whatever lies at the derived path for
  the track's transcode. What lies at every path after an error-free run is
  `TranscodePlan.CopiesAfter`, and when it is the track's own copy
  `TranscodePlan.RightCopyExactly`. It is not after an interrupted encode
  (`TranscodePlan.TornCopyStays`), nor for the second of two tracks that differ
  only in the extension (`TranscodePlan.SecondGetsTheFirst`), and a copy shared
  with a demoted track is unlinked while its row says resident
  (`TranscodePlan.AdoptedThenUnlinked`).
- `src/nocturned/scan.c:191-195` means to skip transcodes. It skips every file
  with such an extension under `resident/`, also an original that was moved
  there: the next scan drops its row (`Cycle.ResidentOriginalForgotten`,
  `Cycle.M4aForgotten`). Which tracks a scan keeps is `Cycle.ScanKeepsExactly`.
- `src/nocturned/scan.c:10-13` says a path owned by another row resolves
  itself. It does when the walk has moved that row away first, or dropped the
  one of the file's own content; otherwise it violates the unique path and the
  scan is rolled back. Exactly when is
  `ScanFailure.WalkFailsExactly`. The order of the walk can decide
  (`ScanFailure.OrderDecides`), but two files that traded places block every
  scan (`ScanFailure.SwapBlocksEveryScan`).
- `src/nocturned/ingest.c:525-531` refuses pins of a deleted track so that no
  orphan row appears. An unsync that arrives after the delete is not refused
  and leaves an override (`Pins.DeletedForGood`), and the pin of a track that
  had no row when it was deleted stays (`Pins.DeletedUntracked`).
- `src/nocturned/ingest.c:17-20` says equal timestamps commute. They do exactly
  when the values agree (`Lww.OrderFreeExactly`).
- `src/nocturned/ingest.c:441-448` makes the newest of pin and unsync win. It
  does exactly under the condition of `Pins.AlwaysPinnedExactly`.
- `src/nocturned/discover.c:356` speaks of quotas that sum to the count. For
  1, 2, 3, 5, 7 and 9 the first three alone exceed it (`Discover.QuotasFit`,
  `Discover.QuotasTaken`).

## Model

| member | source | states |
|---|---|---|
| Text.LessExactly | src/nocturned/rotate.c:186-197 | strcmp order: one string precedes another if and only if they agree up to a place where it ends or has the smaller character |
| Paths.SwapForm | src/nocturned/rotate.c:137-157 | a path is swapped exactly when it is root/from/tail, and the result is root/to/tail |
| Paths.SwapUndo | src/nocturned/rotate.c:978-996 | the opposite swap undoes a swap, no path can be swapped both ways, and a swap never returns its argument |
| Rotate.MoveKeeps | src/nocturned/rotate.c:963-1094 | one move, stopped anywhere and with any call failing, leaves every content a name |
| Rotate.NoContentLost | src/nocturned/rotate.c:1170-1202 | in every run of both loops, under all failures and at every crash point, no content loses its last name |
| RotatePlan.CleanMove | src/nocturned/rotate.c:963-1094 | an error-free move keeps paths unique and neither hides nor reveals the file of any row, and writes just its own residency row |
| RotatePlan.CleanRun | src/nocturned/rotate.c:1170-1202 | an error-free run of distinct jobs rewrites exactly their rows |
| RotatePlan.ErrorFreeRun | src/nocturned/rotate.c:1123-1202 | after an error-free rotation the resident rows are the manifest plus the rows dropped as missing on disk; a second one removes nothing and adds just the manifest tracks whose file was missing |
| RotatePlan.SecondRunIdle | src/nocturned/rotate.c:1123-1202 | a second rotation plans nothing if and only if every manifest track had its file where its row said |
| RotatePlan.MissingFileNeverHeals | src/nocturned/rotate.c:978-996 | a resident manifest row whose path is under resident/ and whose file is gone is planned by every run, and its move counts no error and changes nothing, against the comment at lines 330-334 |
| RotatePlan.MissingFileRun | src/nocturned/rotate.c:978-996 | one such library and the run of its plan, after which the same is planned again |
| RotateEngine.LoopsFollowPlan | src/nocturned/rotate.c:1162-1202 | the two loops over the sorted sets do one job for each planned track, adds first |
| RotateCount.RunCounts | src/nocturned/rotate.c:1170-1202 | in every run added counts the promotions, and removed the demotions, that moved a file from its tree to a free name without an error; in a run without errors fallback_copies counts those that copied and already_applied the jobs that moved nothing |
| RotateCount.CountersAddUp | src/nocturned/rotate.c:1174-1201 | no counter counts a job that failed, and after a run without errors added, removed and already_applied add up to the jobs |
| RotateCount.MoveFailsExactly | src/nocturned/rotate.c:963-1094 | a move counts no error if and only if its track has a row, the path lies under the library, and no call fails: the file is there, the other name is free or the same file, a copy to another filesystem completes, and no other row has the new path |
| RotateCount.GivenUp | src/nocturned/rotate.c:1006-1060 | a move that gives up changes no row and no name, but for a copy that could not be cleared away, or whose original could not be deleted |
| RotateEngine.StartCounts | src/nocturned/rotate.c:1148-1168 | to_add, to_remove and respawned are the sizes of the two halves of the diff and of what is missing on disk |
| RotateEngine.Rotator.RecordMove | src/nocturned/rotate.c:1071-1080 | the row and residency writes as they happen are the closing writes of the model, failures included |
| RotateEngine.Rotator.DropSource | src/nocturned/rotate.c:1062-1080 | the unlink and what follows it, state by state |
| RotateEngine.Rotator.CopyOnly | src/nocturned/rotate.c:102-130 | copy_only: an unfinished file that is completed, taken back or left, and what it returns |
| RotateEngine.Rotator.CopyOver | src/nocturned/rotate.c:1040-1053 | the copy fallback, state by state |
| RotateEngine.Rotator.MoveTo | src/nocturned/rotate.c:1006-1080 | every branch on the result of link, state by state |
| RotateEngine.Rotator.MoveOne | src/nocturned/rotate.c:963-1094 | move_one in place passes through exactly the states the crash results speak of and returns the same code and counters |
| RotateEngine.Rotator.SetContains | src/nocturned/rotate.c:186-197 | the binary search answers membership of a strcmp-sorted set |
| RotateEngine.Rotator.FilterResidentPresent | src/nocturned/rotate.c:345-372 | the in-place compaction keeps the rows whose file is present, in order, and counts the others |
| RotateEngine.Rotator.CountMissing | src/nocturned/rotate.c:1162-1168 | the diff counters |
| RotateEngine.Rotator.TakeTurn | src/nocturned/rotate.c:1174-1185 | a turn counts as added or removed only if it moved and raised no error |
| RotateEngine.Rotator.Loop | src/nocturned/rotate.c:1171-1186 | one loop takes the planned turns and no others |
| RotateEngine.Rotator.Prepare | src/nocturned/rotate.c:1148-1168 | the healed set stays sorted and the counters start at the plan |
| RotateEngine.Rotator.RotateRun | src/nocturned/rotate.c:1123-1202 | the whole engine ends in, and passes only through, states of the planned run; added and removed are the numbers of promotions and demotions completed, and without errors they and already_applied add up to the plan |
| Recovery.RunKeepsInv | src/nocturned/rotate.c:963-1094 | every state of every run keeps the content of each track at one of its homes, with any row that names a file naming the right content, and no row comes or goes |
| Recovery.RescanKeepsInv | src/nocturned/scan.c:374-446 | a scan that re-points rows or drops them, with their residency rows, keeps the same invariant |
| Recovery.HistoryKeepsInv | src/nocturned/rotate.c:17-24 | so does any history of crashed or completed rotations and scans |
| Rerun.TrackRun | src/nocturned/rotate.c:1170-1202 | a run makes of a track what its own job makes of it, whatever happens to the others: if no error is counted for it, or no call on it fails but a link across devices, it is moved, or left alone just when its source is gone or another inode is in the way |
| Rerun.OtherRun | src/nocturned/rotate.c:1170-1202 | a track without a job is left as it was, and no error is counted for it |
| Rerun.ErrorFreeClean | src/nocturned/rotate.c:1170-1202 | a run that ends without errors counted none for any track |
| Rerun.RerunPutsRight | src/nocturned/rotate.c:963-1094 | after any history and a scan, a rotation that counts no error for a track, or in which no call on it fails but a link across devices, leaves it where the manifest wants it if and only if it is not stuck: row on the wrong side with residency already agreeing, or a different inode in the way |
| Rerun.CleanExactly | src/nocturned/rotate.c:1018-1036 | without a failing call, an error is counted for a track if and only if a different inode is in the way of its planned move |
| Rerun.ErrorFreeRerun | src/nocturned/rotate.c:963-1094 | after any history and a scan, a rotation that counts no error for a track, copying or linking, leaves it where the manifest wants it if and only if its row was already on that side or residency disagreed |
| Rerun.CrashRecoverable | src/nocturned/rotate.c:963-1094 | in every state a rotation whose unlinks work can crash in, copying included and whatever else fails, a row or residency that says the move is done means the old name is gone |
| Rerun.CrashOneFile | src/nocturned/rotate.c:963-1094 | in every state a rotation on one filesystem can crash in, whatever fails, the two names of a track are one file |
| Rerun.OneCrash | src/nocturned/rotate.c:13-24 | from a settled track: a rotation stopped in any state, copying included, with any call but the unlink of the track failing, then a scan that gives it any row it may, then a rotation that counts no error for it: the track is where the manifest wants it |
| Rerun.OneCrashSameDevice | src/nocturned/rotate.c:13-24 | if the crashed rotation did not copy the track, the next one cannot be blocked: when no call fails it counts no error and puts the track right |
| Rerun.TornCopyBlocks | src/nocturned/rotate.c:1037-1053 | an interrupted copy blocks its track for good: over every later history of scans and rotations, whatever works, it stays and the row never gets there |
| Rerun.CrashWhileCopying | src/nocturned/rotate.c:108-121 | such a state, reached from a settled library |
| Rerun.CrashAfterCopy | src/nocturned/rotate.c:132-137 | a crash between copy and unlink leaves two files; when the scan stays with the old one the track is stuck and the next rotation fails on it and changes nothing |
| Rerun.UnlinkFailureCanFlip | src/nocturned/rotate.c:1062-1080 | a failed unlink is recorded as a move; a scan that picks the old name then leaves the track stuck |
| Rerun.NoRecoveryWithoutScan | src/nocturned/rotate.c:21-24 | the comment is wrong: with the source gone every move fails and changes nothing until a scan re-points the row |
| Rerun.CrashAfterLink | src/nocturned/rotate.c:1015-1016 | the crash state of the next row, reached |
| Rerun.RecoveredTrackCanFlip | src/nocturned/rotate.c:982-996 | from a settled library: crash after the link, scan, recovery branch, scan; the old link stays and, if the last scan picks it, a track is left that no rotation corrects |
| Cycle.ScanKeepsExactly | src/nocturned/scan.c:191-210 | a successful scan after any history keeps a track, with a row naming its content, if and only if some home that holds it is not taken for a transcode; otherwise it drops the row |
| Cycle.AlwaysVisible | src/nocturned/scan.c:196-204 | a library with no home that looks like a transcode is always seen |
| Cycle.ScanRescans | src/nocturned/scan.c:374-446 | so a successful scan after any history is a rescan in the sense of the recovery results, in which a track has a row if and only if the scan sees it |
| Cycle.ScanSucceeds | src/nocturned/scan.c:374-446 | the scan after any history of the library fails only if the database does |
| Cycle.WalkDeletesNothing | src/nocturned/scan.c:316-340 | as long as every row names the content of its file, the walk deletes no row; only the sweep does |
| Cycle.NextCycleRecovers | src/nocturned/cycle_cmd.c:26-76 | after a crash in any state of a rotation, copying included, the scan of the next cycle succeeds and its rotation puts every track right that the scan sees and for which it counts no error, whatever becomes of the others |
| Cycle.NextCycleSameDevice | src/nocturned/cycle_cmd.c:26-76 | and if the track was not copied, no error is counted for it unless a call fails |
| Cycle.ResidentOriginalForgotten | src/nocturned/scan.c:191-210 | a resident original named .opus, .m4a or .aac is forgotten by the next scan, and no rotation can move it again |
| Cycle.M4aForgotten | src/nocturned/scan.c:191-210 | a settled library of one such track, and the scan that empties its table without any failure |
| Cycle.SameOrderSamePlace | src/nocturned/scan.c:206-362 | as long as the walk order stays, a row goes on naming the same place |
| Cycle.OtherOrderFlips | src/nocturned/scan.c:206-362 | the scans that make the flip of a recovered track: it takes a second walk in the other order |
| Transcode.DerivedUnder | src/nocturned/rotate.c:395-409 | changing the extension of a swapped path stays under resident/ |
| Transcode.DerivedIs | src/nocturned/rotate.c:395-409 | the copy of archive/dir/name.ext is resident/dir/name with .opus under opus, .m4a under aac and .flac under flac, and no other format has one |
| Transcode.SharedExactly | src/nocturned/rotate.c:395-409 | two tracks get the same transcode path if and only if their paths differ only in the extension |
| Transcode.OriginalsUntouched | src/nocturned/rotate.c:489-495 | in every transcoding run, at every crash point, nothing outside resident/ changes and no track moves |
| TranscodePlan.RowsAfter | src/nocturned/rotate.c:1170-1202 | every error-free run rewrites exactly the rows of its jobs |
| TranscodePlan.CopiesAfter | src/nocturned/rotate.c:1170-1202 | what lies at any path afterwards: nothing if a demotion unlinks it, else what lay there, else the encoding of the first track added at that path |
| TranscodePlan.MadeFromOriginal | src/nocturned/rotate.c:559-568 | that track had an original to encode |
| TranscodePlan.ManifestTrack | src/nocturned/rotate.c:1123-1202 | every manifest track is recorded resident, and has a copy if and only if no demotion unlinks it |
| TranscodePlan.SecondPlan | src/nocturned/rotate.c:1148-1168 | a second run would add exactly the manifest tracks whose copy was unlinked, and remove exactly the stale rows at whose path a copy was made |
| TranscodePlan.ErrorFreeCopies | src/nocturned/rotate.c:1123-1202 | so it plans nothing, and exactly the manifest is resident with a copy, if and only if there are none of either |
| TranscodePlan.RightCopyExactly | src/nocturned/rotate.c:544-550 | a manifest track has its own copy if and only if no demotion unlinks it and what lay there was it, or nothing lay there and the first track added at that path has the same original |
| TranscodePlan.ApartCopies | src/nocturned/rotate.c:1123-1202 | when no two tracks share a path the run always leaves exactly the manifest |
| TranscodePlan.ApartRightCopy | src/nocturned/rotate.c:544-550 | and each track its own copy if and only if nothing else lay at its path before |
| TranscodePlan.TornCopyStays | src/nocturned/rotate.c:544-568 | a crash while encoding leaves a copy that every later error-free run that does not unlink it accepts |
| TranscodePlan.AdoptedThenUnlinked | src/nocturned/rotate.c:603-615 | a copy shared with a demoted track is adopted and then unlinked with no error: the track is recorded resident and has none |
| TranscodePlan.SecondGetsTheFirst | src/nocturned/rotate.c:536-550 | of two tracks that differ in the extension the second is resident with the first one's audio |
| TranscodeEngine.Transcoder.EncodeTo | src/nocturned/rotate.c:559-575 | the encoder call, its failure and the cleanup, state by state |
| TranscodeEngine.Transcoder.RecordCopy | src/nocturned/rotate.c:578-597 | the closing upsert and the idempotent return code |
| TranscodeEngine.Transcoder.PromoteTo | src/nocturned/rotate.c:544-597 | a copy found is adopted, otherwise made |
| TranscodeEngine.Transcoder.Promote | src/nocturned/rotate.c:496-598 | promote_transcode in place equals the model, state by state |
| TranscodeEngine.Transcoder.Demote | src/nocturned/rotate.c:603-623 | demote_transcode in place equals the model; a failed unlink is no error |
| TranscodeEngine.Transcoder.TakeTurn | src/nocturned/rotate.c:1174-1201 | the loop's counters around both |
| TranscodeCount.RunCounts | src/nocturned/rotate.c:1170-1202 | in every transcoding run added counts the promotions to a path where nothing lay, and removed the demotions, without an error; in a run without errors the three counters add up to the jobs |
| TranscodeCount.PromotionFailsExactly | src/nocturned/rotate.c:496-597 | a promotion counts no error if and only if its track has a derived path, something lies there or the encoder takes the format and finishes, and the row can be written; one that fails changes no row, and no file but what the encoder left |
| TranscodeCount.DemotionFailsExactly | src/nocturned/rotate.c:603-623 | a demotion counts an error if and only if its row cannot be written; its copy goes either way unless it cannot be deleted |
| Prune.RemovedExactly | src/nocturned/rotate.c:744-810 | without faults a directory is removed if and only if nothing but cover sidecars is in it at any depth, with no dot entry |
| Prune.PrunedExactly | src/nocturned/rotate.c:926-953 | without faults what is left of resident/ is every path on which no such directory stands, files unchanged |
| Prune.OnlySidecarsGo | src/nocturned/rotate.c:744-810 | whatever call fails, every other file stays where it was |
| Prune.HeldStays | src/nocturned/rotate.c:744-812 | and so does a sidecar when a call on the way to it, or its unlink, fails |
| Prune.FirstPassLoop | src/nocturned/rotate.c:755-777 | the first readdir loop |
| Prune.SecondPassLoop | src/nocturned/rotate.c:780-800 | the second readdir loop |
| Prune.PruneDirAt | src/nocturned/rotate.c:753-810 | prune_dir, recursion and failures included |
| Prune.PruneResidentTree | src/nocturned/rotate.c:931-953 | the loop over the children of resident/, which itself stays |
| Prune.SweepSpares | src/nocturned/rotate.c:841-872 | whatever fails, the orphan sweep leaves every file that is not an unreferenced transcode outside dot directories |
| Prune.SweepTakes | src/nocturned/rotate.c:841-872 | a file goes in the sweep if and only if it is one and no call on the way to it, nor its unlink, fails |
| Prune.ReferencedSurvives | src/nocturned/rotate.c:1204-1208 | a file a residency row refers to survives sweep and prune together |
| Prune.TranscodeNameIs | src/nocturned/rotate.c:836-839 | the sweep takes for a transcode exactly what ends in .opus or .m4a |
| Prune.OtherFilesSurvive | src/nocturned/rotate.c:744-872 | whatever fails, no file goes in the prune that does not end in .jpg or .png, and none in both sweeps that does not end in .opus or .m4a either |
| Prune.AudioSurvives | src/nocturned/rotate.c:415-417 | so no audio file goes in the prune, and a .flac, .mp3 or .wav file survives both |
| Prune.HiddenSurvives | src/nocturned/rotate.c:744-872 | whatever fails, no file goes in either sweep whose name, or that of a directory on its path, begins with a dot |
| Prune.RemoveOrphansIn | src/nocturned/rotate.c:841-872 | the recursion in place, and the counter is the number of files gone |
| WatchMap.WdMap.Place | src/nocturned/watch.c:229-239 | an entry goes to the first empty slot of its probe path |
| WatchMap.WdMap.Grow | src/nocturned/watch.c:219-242 | growing keeps contents and count, and every key reachable |
| WatchMap.WdMap.Insert | src/nocturned/watch.c:249-265 | the probe loop updates the map, or fills the first empty slot |
| WatchMap.WdMap.Set | src/nocturned/watch.c:244-266 | wdm_set is map update; it does not grow below half load |
| WatchMap.WdMap.Find | src/nocturned/watch.c:268-290 | probing finds a key if and only if it is stored, within capacity probes |
| WatchMap.WdMap.Get | src/nocturned/watch.c:268-278 | wdm_get is map lookup |
| WatchMap.WdMap.Remove | src/nocturned/watch.c:280-311 | wdm_remove is map removal, keeps every key reachable and never grows |
| WatchMap.WdMap.Reinsert | src/nocturned/watch.c:291-306 | the re-insert loop ends and restores reachability for the whole cluster |
| WatchMap.WdMap.SetAgain | src/nocturned/watch.c:294-305 | one re-insert keeps contents and heals one more slot |
| WatchMap.Landed | src/nocturned/watch.c:291-306 | no re-insert lands past the slot it came from, so the healed part grows |
| WatchMap.ReachInsert | src/nocturned/watch.c:249-265 | filling the first empty slot of a probe path keeps every key reachable |
| WatchMap.CountIsSize | src/nocturned/watch.c:219-311 | the count field is the number of stored keys |
| WatchMap.RunOps | src/nocturned/watch.c:219-311 | any sequence of operations answers as a plain map does |
| Jsonl.Reader.Compact | src/nocturned/jsonl.c:73-82 | compaction moves the unread bytes and loses none |
| Jsonl.Reader.Grow | src/nocturned/jsonl.c:86-102 | growth keeps the buffered bytes and stays within the line limit plus one |
| Jsonl.Reader.Refill | src/nocturned/jsonl.c:109-125 | a read of any length keeps the buffer a window of the file |
| Jsonl.Reader.DrainOversize | src/nocturned/jsonl.c:166-204 | draining ends just past the line's newline or at the end of the file |
| Jsonl.Reader.TakeLine | src/nocturned/jsonl.c:219-230 | the line handed out is the bytes up to the first newline |
| Jsonl.Reader.Fetch | src/nocturned/jsonl.c:256-279 | growing and refilling never stall before the end of the file |
| Jsonl.Reader.FromBuffer | src/nocturned/jsonl.c:214-254 | what the buffered bytes decide: a line, an oversize line, or that more must be read |
| Jsonl.Reader.ReadLine | src/nocturned/jsonl.c:206-282 | for every sequence of short reads: a line and its newline are the bytes between the old and the new offset, at most 65536 before the newline; an oversize line has 65537 bytes without one and is skipped past its newline or to the end; at the end no newline and at most 65536 bytes are left |
| Jsonl.NextExactly | src/nocturned/jsonl.c:206-282 | and the bytes allow no other answer |
| Ingest.CutExactly | src/nocturned/jsonl.c:247-254 | an oversize line is cut off by the end of the file if and only if the last 65537 bytes from the offset on hold no newline |
| Ingest.ReadAllBytes | src/nocturned/ingest.c:653-706 | the bytes read are lines, each with its newline, those of at most 65536 bytes delivered in order and the others not, but for a line cut off by the end; what is left has no newline |
| Ingest.AllDelivered | src/nocturned/ingest.c:653-706 | when no line is oversize, the delivered lines with their newlines are the bytes up to the new offset |
| Ingest.DeliverRecords | src/nocturned/ingest.c:684-704 | a handler that writes down its lines ends with the old log and the lines that are not empty, in order, each once |
| Ingest.DeliverStep | src/nocturned/ingest.c:684-704 | after each line the tables are what the handler answered, or as they were if it skipped the line |
| Ingest.FatalExactly | src/nocturned/ingest.c:702-705 | a pass comes to nothing if and only if the handler fails on some line, in the tables the earlier lines left |
| Ingest.SkippedChangesNothing | src/nocturned/ingest.c:698-701 | lines that are skipped change nothing |
| Ingest.GrowthStableExactly | src/nocturned/ingest.c:653-706 | reading a file and reading on after it grew is reading the grown file, for all growths, if and only if that is not so |
| Ingest.CutLeaks | src/nocturned/jsonl.c:179-184 | otherwise the tail of the cut line is later taken for a line of its own |
| Ingest.PrefixSuffices | src/nocturned/ingest.c:653-708 | what was read depends only on the bytes before the new offset |
| Ingest.ExactlyOnce | src/nocturned/ingest.c:599-739 | over every history of appends, committed and rolled-back passes, the bytes before the stored offset are lines of which those of at most 65536 bytes are the committed ones, each once and in order, and the tables are what those make of the first ones |
| Ingest.Ingester.IngestOneFile | src/nocturned/ingest.c:599-739 | one pass applies all lines from the stored offset, or nothing, and nothing if the handler fails on one of them; an offset past the end starts over |
| Lww.IngestAll | src/nocturned/ingest.c:166-179 | the upsert, event after event |
| Lww.Winner | src/nocturned/ingest.c:166-171 | the last event at the newest timestamp wins, else the row stands |
| Lww.ReplayChangesNothing | src/nocturned/ingest.c:612-617 | replaying a whole sequence on its own result changes nothing, ties included |
| Lww.OrderFreeExactly | src/nocturned/ingest.c:15-21 | every order of arrival gives the same table if and only if no two equally new, newest events for a key disagree; the comment claims it without the condition |
| Pins.Handler.Handle | src/nocturned/ingest.c:406-582 | pin, unsync and delete in place |
| Pins.Handler.HandleAll | src/nocturned/ingest.c:441-470 | the same over any sequence of events |
| Pins.NewestPinWins | src/nocturned/ingest.c:441-470 | a pin newer than every unsync and not older than the row, with no tie against it, leaves the track pinned and not overridden, in whatever order events arrive |
| Pins.AlwaysPinnedExactly | src/nocturned/ingest.c:441-470 | a track ends pinned in every order if and only if there is such a pin, not older than the row it had, or that row pins, is newer than every event, and no override outlives them |
| Pins.UnsyncHolds | src/nocturned/ingest.c:441-470 | an unsync not older than the pins before it unpins the track and leaves an override, until the track is pinned again or deleted, and the row keeps the time of its pin |
| Pins.StaleUnsync | src/nocturned/ingest.c:448-470 | an unsync older than the row of the pin has no effect |
| Pins.StalePinRevives | src/nocturned/ingest.c:565-580 | without it the order decides: an older pin that arrives late clears a newer unsync |
| Pins.DeletedForGood | src/nocturned/actions.c:154-190 | after a delete of a track, whatever comes before and after, it is blacklisted and has no row and no pin, and an override if and only if a later unsync wrote one |
| Pins.DeletedUntracked | src/nocturned/ingest.c:525-541 | a delete of a track without a row blacklists it and leaves its pin, which no later pin brings back or renews |
| Sorting.Sort | src/nocturned/resolver.c:337-357 | the sorted list, unique for a strict order |
| Sorting.SortedUnique | src/nocturned/resolver.c:504-505 | so the sorting algorithm does not show |
| Resolver.CandSet.Find | src/nocturned/resolver.c:85-91 | the first candidate with the sha, if any |
| Resolver.CandSet.Add | src/nocturned/resolver.c:105-133 | the candidates stay one per sha, with the set of its buckets and the highest of their priorities |
| Resolver.CatalogSpec | src/nocturned/resolver.c:105-133 | what the candidates say about a track is what the set of rows says |
| Resolver.CatalogOrderFree | src/nocturned/resolver.c:411-496 | bucket order, row order and repetition do not show |
| Admission.AdmitStable | src/nocturned/resolver.c:515-544 | favouring what was admitted and disfavouring the rest changes nothing |
| Admission.ResolveFixpoint | src/nocturned/resolver.c:500-544 | a run on its own manifest repeats itself: at once, or from the second run on when a fixed set is filtered out |
| Admission.NextRunExactly | src/nocturned/resolve_cmd.c:42-70 | with filtering, the first repetition gives the same result if and only if no dropped track had fitted only with its discount |
| Admission.FirstRunCanDiffer | src/nocturned/resolve_cmd.c:42-70 | a track that had |
| Admission.CapBound | src/nocturned/resolver.c:515-544 | used is the sum of the true sizes; pins over the cap admit nothing else, otherwise the cap is exceeded by at most one resident track's discount |
| Admission.RankedPinsFirst | src/nocturned/resolver.c:343-349 | the ranking puts pins first, as the cap bound assumes |
| Admission.ResolvedOnce | src/nocturned/resolver.c:391-555 | manifest and used bytes depend only on the set of rows, the previous manifest and the configuration |
| ResolverRun.AdmitAll | src/nocturned/resolver.c:507-544 | the admission loop |
| ResolverRun.Resolve | src/nocturned/resolver.c:391-555 | candidates, ranking, admission and output order give the manifest so determined |
| Greedy.ManifestIsGreedy | src/nocturned/resolver.c:504-544 | a manifest is what a greedy walk takes, told from the bucket rows: tracks by their best bucket in the order pins, loved, top, recent plays, recent adds, exploration, others, then by sha; every pin, and each other track whose size, less the ratio if it was resident and plus it if not, fits with what was taken before; any track not in it was no pin and did not fit |
| Greedy.PinsAdmitted | src/nocturned/resolver.c:524-530 | every track with a manual_pins row is in the manifest, whatever the cap |
| Greedy.BetterBucketFirst | src/nocturned/resolver.c:56-66 | of two tracks of one size, both resident before or neither, the one with the better bucket is in the manifest if the other is |
| ResolverRun.Explore | src/nocturned/resolver.c:466-495 | the exploration bucket is the lowest count candidates by rank: none left out has a smaller rank than a pick |
| ResolverRun.ExploreMargin | src/nocturned/resolver.c:244-249 | one candidate more or less changes the picks by itself and at most one other |
| Scan.WalkKeepsInv | src/nocturned/scan.c:206-362 | what the table says part way through every walk |
| Scan.ScanResult | src/nocturned/scan.c:374-446 | after a successful scan there is one row under the root for each content among the counted files, each naming a file with that content and holding its time and size; other rows are kept |
| Scan.UnchangedNotRead | src/nocturned/scan.c:233-242 | a second scan of the same unchanged files succeeds even if none of them can be read: it marks every row that names one and changes nothing else |
| Scan.ArtifactExactly | src/nocturned/scan.c:196-204 | a path is taken for a transcode if and only if it has /resident/ in it and ends, in whatever case, in .opus, .m4a or .aac |
| Scan.OutsideStays | src/nocturned/scan.c:405-413 | no row outside the scanned root is deleted |
| Scan.UnderExactly | src/nocturned/track_repo.c:371-381 | a path is under the root if and only if it is the root, a slash and more |
| Scan.FirstClashBlocks | src/nocturned/scan.c:328-360 | a clash of the first file walked rolls the scan back, whatever follows |
| ScanFailure.RowThen | src/nocturned/scan.c:206-362 | which contents have a row when the walk reaches a file |
| ScanFailure.WalkFailsExactly | src/nocturned/scan.c:328-360 | a walk fails if and only if the database does, or some file has the path of another content's row that no earlier file moved away while its own content has a row |
| ScanFailure.OrderDecides | src/nocturned/scan.c:328-360 | the same two files fail in one walk order and pass in the other |
| ScanFailure.SwapBlocksScan | src/nocturned/scan.c:10-13 | two files that trade places, wherever they come in the walk, roll the scan back |
| ScanFailure.SwapBlocksEveryScan | src/nocturned/scan.c:10-13 | and every later one, in whatever order, for as long as they stay there |
| ScanFailure.LastVisitWins | src/nocturned/scan.c:328-349 | after a walk a row names the last file walked that has its content |
| Scan.Scanner.LookupByPath | src/nocturned/track_repo.c:235-259 | the row that owns a path |
| Scan.Scanner.Write | src/nocturned/scan.c:290-362 | insert, update or replacement of the row; added counts the rows the table grows by |
| Scan.Scanner.HandleFile | src/nocturned/scan.c:206-362 | the per-file callback in place; skipped, hash_failed and refused count exactly the unchanged, the unreadable and the blacklisted files |
| Scan.Scanner.Run | src/nocturned/scan.c:374-446 | walk and sweep in one transaction; a hard error leaves the table as it was, and 1 is returned if and only if some changed file could not be read |
| ManifestDiff.SplitUndoesJoin | src/nocturned/diff.c:113-164 | splitting undoes joining if and only if no name has a comma and the list is not one empty name |
| ManifestDiff.ToCsv | src/nocturned/diff.c:113-129 | buckets_to_csv joins with commas |
| ManifestDiff.SplitCsv | src/nocturned/diff.c:133-164 | csv_split cuts at every comma |
| ManifestDiff.SetDiff | src/nocturned/diff.c:176-199 | set_diff keeps what the other list lacks, in order |
| ManifestDiff.Compare | src/nocturned/diff.c:340-362 | a common track is unchanged or shifted |
| ManifestDiff.MergeRest | src/nocturned/diff.c:367-391 | the two tails |
| ManifestDiff.Merge | src/nocturned/diff.c:310-394 | the two-index merge finds what each list has against the whole other list; the net count is the length difference and the byte totals are those of the lists |
| ManifestDiff.AddedAt | src/nocturned/diff.c:328-338 | a sha is added if and only if the old list lacks it |
| ManifestDiff.RemovedAt | src/nocturned/diff.c:316-327 | a sha is removed if and only if the new list lacks it |
| ManifestDiff.ShiftedAt | src/nocturned/diff.c:339-362 | a common sha is shifted if and only if its csv differs |
| ManifestDiff.DiffIsExact | src/nocturned/diff.c:310-391 | applying added, removed, gained and lost to the old bucket sets gives the new set of a sha if and only if an unchanged csv stands for its list |
| Discover.Shuffle | src/nocturned/discover.c:124-132 | the in-place Fisher-Yates shuffle permutes its pool as the draws say |
| Discover.EveryOrderPossible | src/nocturned/discover.c:124-132 | every arrangement is the outcome of some draws |
| Discover.TakeIs | src/nocturned/discover.c:275-293 | taking keeps shas distinct and albums at two, adds at most the target, and stops short only when the whole pool is blocked |
| PickOrder.TakeIsGreedy | src/nocturned/discover.c:275-293 | candidates are taken in pool order, each that is not blocked by the picks before it and no other |
| PickOrder.BlockedIs | src/nocturned/discover.c:280-283 | blocked means that the track is picked already, or two of its album |
| Discover.QuotasFit | src/nocturned/discover.c:356-360 | the three rounded quotas stay within the count if and only if it is not 1, 2, 3, 5, 7 or 9 |
| Discover.QuotasTaken | src/nocturned/discover.c:380-388 | and there are pools from which all three are taken |
| Discover.PicksAreFair | src/nocturned/discover.c:356-388 | the same for the week's picks as a whole |
| PickOrder.QuotasKept | src/nocturned/discover.c:356-388 | half of the picks, rounded up, come from the never-played pool, then a quarter and three twentieths from the other two, each short only when all of its pool is blocked, and the rest from the fill pool |
| PickOrder.AtMostTwo | src/nocturned/discover.c:268-283 | no three picks of a week are of one album |
| Discover.Picker.AcGet | src/nocturned/discover.c:187-194 | the counter tells how many picks an album has |
| Discover.Picker.AcInc | src/nocturned/discover.c:196-222 | counting a pick keeps the counter right |
| Discover.Picker.TakeNext | src/nocturned/discover.c:275-293 | one candidate is taken if and only if it is neither picked nor of an album at its cap |
| Discover.Picker.TakeFromPool | src/nocturned/discover.c:275-293 | the loop over the pool |
| Discover.Picker.Run | src/nocturned/discover.c:356-388 | three quotas, then the fill |
| QueueRestore.Remap | phone/app/src/main/kotlin/io/nocturne/phone/player/PlaybackResumption.kt:119-133 | an order is refused if and only if it is no permutation of the saved queue; otherwise the result is a permutation of the kept queue that plays the surviving entries in their old order |
| QueueRestore.RenumberedPermutes | phone/app/src/main/kotlin/io/nocturne/phone/player/PlaybackResumption.kt:129-132 | renumbering a permutation through the kept positions is a permutation of them |
| QueueRestore.PlayOrderSurvives | phone/app/src/main/kotlin/io/nocturne/phone/player/PlaybackResumption.kt:106-113 | the restored queue plays what the saved one would, minus what is gone |
| QueueRestore.Hydrate | phone/app/src/main/kotlin/io/nocturne/phone/player/PlaybackResumption.kt:66-76 | the surviving positions and ids |
| QueueRestore.StartIndex | phone/app/src/main/kotlin/io/nocturne/phone/player/PlaybackResumption.kt:82-87 | the first survivor at or after the saved position, else the beginning |
| QueueRestore.Restore | phone/app/src/main/kotlin/io/nocturne/phone/player/PlaybackResumption.kt:61-105 | the restored queue starts at the saved track if it survives and keeps the play order of the survivors |
| AlbumShuffle.ExpandPermutes | phone/app/src/main/kotlin/io/nocturne/phone/player/AlbumUnitShuffle.kt:54-65 | expanding a permutation of albums gives a permutation of all tracks |
| AlbumShuffle.AlbumContiguous | phone/app/src/main/kotlin/io/nocturne/phone/player/AlbumUnitShuffle.kt:54-65 | each album is one contiguous run in its own order |
| AlbumShuffle.AlbumsInOrder | phone/app/src/main/kotlin/io/nocturne/phone/player/AlbumUnitShuffle.kt:54-65 | the albums stand in the shuffled order |
| AlbumShuffle.NonEmptyTracks | phone/app/src/main/kotlin/io/nocturne/phone/player/AlbumUnitShuffle.kt:40-41 | dropping the empty albums drops no track |
| AlbumShuffle.DropEmpty | phone/app/src/main/kotlin/io/nocturne/phone/player/AlbumUnitShuffle.kt:40-41 | empty albums are skipped |
| AlbumShuffle.Starts | phone/app/src/main/kotlin/io/nocturne/phone/player/AlbumUnitShuffle.kt:45-50 | where each album starts in the flat list |
| AlbumShuffle.WriteAlbum | phone/app/src/main/kotlin/io/nocturne/phone/player/AlbumUnitShuffle.kt:60-62 | the inner loop writes one album behind the others |
| AlbumShuffle.BuildShuffledIndices | phone/app/src/main/kotlin/io/nocturne/phone/player/AlbumUnitShuffle.kt:39-65 | the array is that expansion, with an entry for every track of every album, and every write is in bounds |

## Left out

- SQLite and its text: tables are maps with their key and uniqueness rules; prepared statements, pragmas and the bucket queries are parameters or absent.
- A COMMIT or BEGIN that fails is a pass or scan that changed nothing.
- Real clocks: a scan's timestamp is taken to be later than every stored one; week, seed and event times are parameters.
- Audio hashing is the identity of content; two files with one hash are one content. Reading tags, the canonical tag check and its statuses are not modelled, nor the return code 1 they can cause.
- Scan.ScanResult: assumes that unchanged time and size mean unchanged content, that walked paths are distinct and that no file fails to hash; a library root with a trailing slash is not distinguished from one without.
- scan_run_subtree, which is the walk without the sweep, and the plays, likes, pins and transcodes that go when a row is deleted; its residency row does go in Cycle.
- Recovery.HistoryKeepsInv: each track has one place under the two trees; a track whose archive name changes between cycles is outside these results.
- Cycle.NextCycleRecovers: assumes that an unfinished copy still hashes to what its row says.
- Rerun.OneCrash: assumes that the crashed rotation could unlink the track's old name; Rerun.UnlinkFailureCanFlip is what happens otherwise, and the condition of Rerun.RerunPutsRight holds then too.
- Rerun.RerunPutsRight: a manifest names tracks of the library, not an unfinished copy that a scan took in as a track of its own.
- Rotate.NoContentLost: a crash is between two writes; what a power loss does to unsynced blocks is not modelled.
- Anything other than a regular file or a directory where rotate expects audio.
- Cover sidecars linked into `resident/`, the `.nomedia` file and parent directories, except that creating them may fail.
- relocate_transcodes, whose moves would come before the planned jobs.
- The loops around promote_transcode and demote_transcode are those of RotateEngine and are not repeated for the second mode; sizes, formats and loudness columns are left out.
- Prune: a directory is the list its readdir gives and is changed as a value; files that appear while the sweep runs are not modelled. Reading the reference set is a parameter.
- Sorting.Sort: insertion in place of qsort; the result is the same because it is unique.
- Admission: sizes and ratio are exact fractions rounded down, not IEEE doubles; the ratio lies between 0 and 1.
- ResolverRun.Explore: any rank function in place of the hash of sha and seed.
- The 512-byte limit on the stored bucket list of a manifest row, which a track in very many buckets would exceed.
- ManifestDiff: the printed text and JSON, and rounding to MiB.
- Ingest: JSON parsing, validation of events and dry runs are inside an arbitrary handler; files that cannot be opened are skipped without effect; the newest event time stored with the offset is left out.
- Ingest.ExactlyOnce: the file only grows; after a truncation plays are counted again.
- Pins: album-unit events, which have no effect on tracks today, and deleting the files of a deleted track. An unsync counts with a timestamp that is not negative, as every plausible one is.
- Discover: album names are compared by their first 255 bytes in the original, which the model takes as the name; loading and excluding candidates and storing the picks are left out, and the generator is any sequence of draws.
- QueueRestore and AlbumShuffle: hydrating a media item and Kotlin's own shuffle, which is any permutation of the albums.
- The debounce queue of watch.c, inotify and the event loop; migration, doctor, configuration and the phone's user interface.
- Allocation failures, string ownership and integer overflow of counters.
