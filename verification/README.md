# Offline defragmentation: a model and its proofs

Defragmenter rewrites unmounted filesystems in place. These Dafny modules model its hardest parts and prove what they
promise: exactly when an interrupted relayout can be finished, that files keep their bytes, and exactly when a volume
marked clean is really whole. `dafny verify dfyconfig.toml` checks everything.

- **exFAT relayout** (`exfat_*.dfy`, `checksum.dfy`, `bytes.dfy`). A volume is boot copies, FAT and clusters of bytes.
  Scanning, planning, patching of directories and the building of the canonical metadata are functions on bytes, with
  the loops that compute them beside them. The run, its rollback and its recovery are traces of writes, syncs and
  journal steps on a disk that loses writes: a crash keeps any byte-wise mixture of what was written since the last
  sync, sector 0 and the checksum sector of a boot copy whole or not at all. `ExfatRunner` and `ExfatProgram` are the
  program over a mutable disk, proved to take exactly those traces.
- **exFAT redo path** (`exfat_stage.dfy`, `exfat_check.dfy`, `exfat_redo.dfy`, `exfat_resume.dfy`, `exfat_commit.dfy`,
  `exfat_redone.dfy`). Building and checking a stage image, and copying it over the target from a journaled offset, as
  a state machine with crashes and resumptions, and as a class.
- **AFFS** (`affs_*.dfy`). Scanning, first-fit staging into a fresh image with relinked OFS blocks and a rewritten
  bitmap, and the commit with crashes and recovery.
- **Privileged helper** (`helper_*.dfy`). Client, reader thread and worker thread interleaved at every step; the helper's
  locked sections and the application's session as classes.
- **Btrfs** (`btrfs_*.dfy`). Chunk mapping, the hash set of visited blocks, and the tree walk over stored blocks.
- **Allocation map** (`intervals.dfy`, `map_*.dfy`). Merging, complements, cells, overlays, bitmaps, the drawn grid.

## Preconditions

The theorems assume the following, none of which the program checks unless a row says so.

- The relayout is entered on a volume that opens clean: both boot copies valid, the main one without the dirty and the
  media-failure flag (`ExfatJob.BootReady`). The program checks this. Nothing is assumed of how the copies differ;
  `ExfatReopen.NeverRefusedExactly` says when it matters.
- The bitmap and up-case entries of the root directory lie outside its entry sets (`ExfatRelaid.SystemApart`).
  `ExfatInside.RelaidRootRefused` says exactly what happens without it.
- The sort is a function of the keys it is given, or no two keys are equal under its case folding, where a result says
  that planning again gives the same plan (`ExfatFixpoint.SortedAgain`).
- The volume serial is not zero: the journal loader takes a zero serial for a missing field. Boot region, FAT and heap
  are disjoint on the device. There are at most 2^32 - 11 clusters, the limit of the format (section 3.1.9 of the exFAT
  specification).
- AFFS catalogues are sound (`AffsLayout.Sound`): boot blocks, directories, headers, list blocks and bitmap blocks are
  distinct, marked used, and no file's data. The scan does not check this.
- The helper's messages name only requests that it has been sent (`HelperCompletion.OfSentOnly`).
- A process id is not reused while a child is unreaped or still named by a signal in flight.
- Btrfs chunks have passed preparation, and they are in the order of its sort.

## Findings

- **A crashed recovery can leave a clean flag over a mixture.** Recovery replays placement without setting the dirty
  flag (`exfat_relayout.c:1328-1338`). After a crash between publishing the journal and the dirty flag reaching the
  main boot copy, or during the end of a rollback, the main copy is clean when recovery starts to overwrite.
  `ExfatExposure.CleanFlagFails` gives the crashes; `ExfatExposure.CleanFlagSafeExactly` is the exact condition, on the
  image that staging leaves. A driver that trusts the flag before the journal is replayed does not see the truth.
- **A relayout can become impossible to recover.** Opening looks at the parameters and flags of the main boot copy only
  (`exfat_common.c:49`), and the commit writes each copy from its own bytes, backup first (`exfat_relayout.c:712-740`).
  When the backup reports a media failure, or names another geometry or serial, a crash inside the update of the main
  copy makes the survivor repair copy the backup over it (`exfat_relayout.c:1202-1284`), and recovery refuses what it
  has repaired (`exfat_relayout.c:1298-1325`), then and ever after. `ExfatReopen.FirstRunRefused` is the failing run,
  `ExfatReopen.NeverRefusedExactly` the exact condition, `ExfatReopen.RefusedForever` the end.
- **The redo commit cannot be resumed after a crash in its body.** The dirty boot copies are made from a catalogue whose
  targets a scan leaves at 0 (`exfat_plan.c:310`, `exfat_plan.c:462-472`), so they name root cluster 0, which opening the
  volume refuses (`exfat_common.c:49`, `exfat_worker.c:345`). `ExfatResume.ResumesExactly` is the exact condition,
  `ExfatResume.FirstCrashSticks` the failing run.
- **System entries inside an entry set are accepted by the scan and broken by the relayout**, whose field patch follows
  the set's checksum (`exfat_common.c:82`, `exfat_relayout.c:525-576`): `ExfatInside.NearbyMoveBreaks`.
- **Equal folded keys leave the plan to the sort** (`exfat_plan.c:69-82`): two sorts may answer differently
  (`ExfatPlan.EqualKeysAmbiguous`); one that is a function of its input plans the same again
  (`ExfatFixpoint.PlannerFixpoint`).
- **Two objects of one kind and path make the check of the stage fail**, which takes the first one it finds for both
  (`exfat_plan.c:413-460`), although the scan accepts them: `ExfatCheck.StageVerifiesExactly`.
- **A map of no units gets one cell of one unit in Python and is refused in C++** (`ranges.py:113-117`,
  `map.cpp:596-597`): `MapUnits.ScriptSplitsExactly`, `MapCells.AggregateRanges`.

## Model

| member | source | states |
|---|---|---|
| ExfatCourse.RecoveryReachesTheSame | defragger/gui/filesystems/exfat/native/exfat_relayout.c:1286-1352 | From whatever any number of crashes of the run, its rollback and its recoveries leave: when the repaired volume opens, the next recovery ends, synced, with the same FAT and the same bytes in every target cluster as an uninterrupted run, whichever orders the two place the objects in; when it does not, recovery ends with both boot copies valid and has written nothing else. |
| ExfatCourse.AnyNumberOfCrashes | defragger/gui/filesystems/exfat/native/exfat_relayout.c:964-1184 | After any number of crashes the image is recoverable: every staged cluster is intact, and the main boot copy is valid, or the backup is and names the new root. A crash keeps any byte-wise mixture of the writes since the last sync, the two checked sectors of a boot copy whole. |
| ExfatCourse.StagingIsSafe | defragger/gui/filesystems/exfat/native/exfat_relayout.c:421-444 | A crash at any point of staging leaves FAT, boot copies and every owned cluster as they were. |
| ExfatCourse.StoppedRun | defragger/gui/filesystems/exfat/native/exfat_relayout.c:908-930 | A stop during placement, at any write, rolls back to the original clusters, FAT and boot copies, and every crash on the way is recoverable. |
| ExfatReplay.RecoveryCompletes | defragger/gui/filesystems/exfat/native/exfat_relayout.c:1286-1352 | Recovery of a recoverable image stays recoverable at every step; past its open check it ends with the canonical layout, fully synced, and refused it leaves the repaired image. |
| ExfatReplay.RepairAlways | defragger/gui/filesystems/exfat/native/exfat_relayout.c:1202-1284 | Survivor repair of a recoverable image always yields two valid boot copies, and a crash during it can be repaired again, however the two copies of the volume differ. |
| ExfatReplay.OpensExactly | defragger/gui/filesystems/exfat/native/exfat_relayout.c:1298-1325 | A repaired image is opened by recovery exactly when sector 0 of its main copy names the journaled geometry and serial and reports no media failure; root, FAT and heap bounds never refuse it. |
| ExfatReopen.NeverRefusedExactly | defragger/gui/filesystems/exfat/native/exfat_relayout.c:1298-1325 | Over all runs, with any number of crashes in the run, its rollback and its recoveries, no recovery is refused if and only if the backup copy found at the start names the same volume without a media failure, or the checksum of the main copy does not change with the new root. |
| ExfatReopen.FirstRunRefused | defragger/gui/filesystems/exfat/native/exfat_relayout.c:712-740 | The failing run: otherwise a crash of the very first run between the two sectors of the main copy leaves a volume that is repaired from the backup and then refused. |
| ExfatReopen.RefusedForever | defragger/gui/filesystems/exfat/native/exfat_relayout.c:1286-1325 | Such a refusal is final: no later recovery, however often it crashes, writes anything any more. |
| ExfatReopen.MediaFailureUnfit | defragger/gui/filesystems/exfat/native/exfat_common.c:49 | A backup copy that reports a media failure never fits, whatever else it holds. |
| ExfatReopen.SteadyWhenRootStays | defragger/gui/filesystems/exfat/native/exfat_relayout.c:712-740 | The checksum of the main copy does not change when the root directory stays where it is. |
| ExfatOpen.OpensAlike | defragger/gui/filesystems/exfat/native/exfat_common.c:49 | Of two boot sectors, the first of which opens, the second opens as the same volume exactly when all fields of geometry and serial agree, it reports no media failure, and its root is a cluster of the heap. |
| ExfatOpen.OpenedExactly | defragger/gui/filesystems/exfat/native/exfat_common.c:49 | A sector opens if and only if it is that of a clean volume with one FAT, a supported geometry and a root in its heap, has a FAT entry for every cluster, and FAT and every cluster end inside the volume and the volume inside the device, in unbounded arithmetic. |
| ExfatProgress.AlwaysProgress | defragger/gui/filesystems/exfat/native/exfat_relayout.c:932-962 | Over any number of crashed recoveries each byte is the starting one or the one recovery writes there; FAT bytes change only after all targets, and the main boot copy only after everything. |
| ExfatCleanFlag.FirstRunSafe | defragger/gui/filesystems/exfat/native/exfat_relayout.c:964-1184 | Whatever a crash of the first run leaves, a valid main boot copy whose dirty flag is clear goes with the complete original or the complete canonical layout and the matching root. |
| ExfatFirstRun.CrashedBytes | defragger/gui/filesystems/exfat/native/exfat_relayout.c:964-1184 | After any crash of the first run or its rollback every byte that either layout uses is the staged one or the canonical one. |
| ExfatGuarded.GuardedForever | defragger/gui/filesystems/exfat/native/exfat_relayout.c:1286-1352 | From an image whose valid main copy is dirty, or whose data is already canonical, clean-flag safety and recoverability survive any number of crashed recoveries. |
| ExfatExposure.RecoverySafeExactly | defragger/gui/filesystems/exfat/native/exfat_relayout.c:1328-1338 | Recoveries that start over a clean original volume keep clean-flag safety over any number of crashes if and only if the starting image is not exposed: no byte of the original layout changes while the root cluster, or another byte not ordered before it, still has to change. |
| ExfatExposure.CleanFlagSafeExactly | defragger/gui/filesystems/exfat/native/exfat_relayout.c:1328-1338 | Over all runs, with any number of crashes in the run, its rollback and its recoveries, clean-flag safety holds if and only if the one image that staging leaves is not exposed. |
| ExfatExposure.StagedIsClean | defragger/gui/filesystems/exfat/native/exfat_relayout.c:1074-1112 | The failing start is real: right after the journal is published the volume is a clean original one, and a crash there leaves it so. |
| ExfatExposure.MovedRootIsExposed | defragger/gui/filesystems/exfat/native/exfat_relayout.c:1328-1338 | A staged volume is exposed whenever the root directory moves and some byte of the original layout changes. |
| ExfatExposure.TwoBytesAreExposed | defragger/gui/filesystems/exfat/native/exfat_relayout.c:1328-1338 | It is also exposed whenever two bytes change, one of them in an allocated cluster. |
| ExfatExposure.CleanFlagFails | defragger/gui/filesystems/exfat/native/exfat_relayout.c:1328-1338 | The failure itself: for a job whose root moves and whose FAT changes, crashes exist after which the main boot copy is valid and clean over a mixture of the two layouts. |
| ExfatOutcome.RecoveryIsVerified | defragger/gui/filesystems/exfat/native/exfat_relayout.c:1338-1346 | End to end: a recovery that opens its volume, after any number of crashes, ends in one that scans, passes the final verification, reports growth rightly, holds every object in its target run, and holds the bytes each file had. |
| ExfatOutcome.RecoveryAlwaysVerified | defragger/gui/filesystems/exfat/native/exfat_relayout.c:1286-1352 | With a backup copy that fits, or a root directory that stays, every recovery after any number of crashes ends in such a volume. |
| ExfatOutcome.RunIsVerified | defragger/gui/filesystems/exfat/native/exfat_relayout.c:815-842 | The uninterrupted run ends in such a volume too. |
| ExfatOutcome.RestoredIsAllocated | defragger/gui/filesystems/exfat/native/exfat_relayout.c:908-930 | After a rollback every cluster that the original bitmap allocates holds its original bytes. |
| ExfatRelaid.MeaningPreserved | defragger/gui/filesystems/exfat/native/exfat_relayout.c:525-576 | A volume that holds the patched payloads, final FAT, expected bitmap and new root scans again: same tree, same names and lengths, every object in its target run, and every file and the up-case table byte for byte the same. |
| ExfatOutcome.RelaidIsVerified | defragger/gui/filesystems/exfat/native/exfat_relayout.c:815-842 | Such a volume passes the final verification with the sort it was planned with, and with any other when no keys are equal; after a ten-percent relayout its scan reports growth as satisfied exactly when there is a file. |
| ExfatInside.RelaidRootRefused | defragger/gui/filesystems/exfat/native/exfat_common.c:82 | Without the assumption that system entries lie outside entry sets, for either entry or both: the patched root directory is accepted at such a set exactly when its checksum happens not to change; otherwise no scan of the relaid volume succeeds. |
| ExfatInside.NearbyMoveBreaks | defragger/gui/filesystems/exfat/native/exfat_relayout.c:525-576 | The failing family: whenever such a bitmap or up-case table moves within its block of 256 clusters the set is refused. |
| ExfatPlan.BuildPlan | defragger/gui/filesystems/exfat/native/exfat_plan.c:91-128 | Planning succeeds exactly when the clusters of all objects and their reserves together, in whatever order, are no more than the heap has, and then assigns the runs that the specification describes. |
| ExfatPlan.PlanSound | defragger/gui/filesystems/exfat/native/exfat_plan.c:91-128 | Every plan puts each object and its reserve into the heap, disjoint from the others; reserves are the percentage rounded up, for regular files only, and stay free; a bit of the planned bitmap is set exactly for the clusters of some target. |
| ExfatOrder.LaidOutInOrder | defragger/gui/filesystems/exfat/native/exfat_plan.c:69-128 | In every plan bitmaps come first, then up-case tables, the root, directories and files, and within a kind the object whose folded path is smaller at the first difference; the first run starts at cluster 2 and runs with their reserves leave no gap. |
| ExfatPlan.SortedUnique | defragger/gui/filesystems/exfat/native/exfat_plan.c:69-82 | With distinct folded keys only one order is sorted, so the plan does not depend on the sort that is used. |
| ExfatPlan.EqualKeysAmbiguous | defragger/gui/filesystems/exfat/native/exfat_plan.c:69-82 | With equal keys it does: another sorted order gives an object a different target. |
| ExfatFixpoint.PlannerFixpoint | defragger/gui/filesystems/exfat/native/exfat_relayout.c:815-842 | Planning on a finished volume with the same sort function, or with any sort when no keys are equal, fits and yields the same plan: the layout is canonical and another relayout has nothing to do. |
| ExfatFixpoint.GrowthReported | defragger/gui/filesystems/exfat/native/exfat_common.c:158-213 | On a finished ten-percent layout the scan reports growth as satisfied exactly when there is a file. |
| ExfatFixpoint.CanonicalLayout | defragger/gui/filesystems/exfat/native/exfat_relayout.c:327-347 | The canonical-layout check answers true exactly when every object is one run at its planned place and the bitmap is the planned one. |
| ExfatJob.PlannedIsReady | defragger/gui/filesystems/exfat/native/exfat_relayout.c:964-1050 | A scan, a plan and a terminal workspace give everything that the crash theorems assume, whatever order the sort has left. |
| ExfatJob.BuiltIsReady | defragger/gui/filesystems/exfat/native/exfat_relayout.c:844-906 | The same from the manifest that was saved: workspace and targets are disjoint, owned clusters are outside the workspace, payloads can be built. |
| ExfatRunner.Relayout | defragger/gui/filesystems/exfat/native/exfat_relayout.c:1052-1158 | The run over a mutable disk, from staging to the final metadata, takes exactly the steps of its trace, stopped or not; so every theorem on traces holds of it. |
| ExfatRunner.Recover | defragger/gui/filesystems/exfat/native/exfat_relayout.c:1286-1337 | Recovery over a mutable disk takes exactly the steps of its trace; on a recoverable image it fails exactly when the repaired volume does not open, and otherwise ends canonical. |
| ExfatProgram.RelayoutInPlace | defragger/gui/filesystems/exfat/native/exfat_relayout.c:964-1184 | The command from the first scan to the final verification, each answer settled by the volume found. Failed: the percentage is not allowed, or the volume does not open, scan or fit a plan. Not needed: a plan for it is in place already. Fallback: it is not, and a FAT entry marks a bad cluster, the bitmap or a directory exceeds the memory limit, or no workspace ends the heap. Otherwise it runs; nothing is written before that, and its steps are those of the trace for the scanned and planned job. |
| ExfatProgram.RecoverInPlace | defragger/gui/filesystems/exfat/native/exfat_relayout.c:1286-1352 | The recovery command, final verification included: it succeeds exactly when the repaired volume opens, then with the journal removed and the volume as RecoveryIsVerified says. |
| ExfatProgram.VerifyFinalLayout | defragger/gui/filesystems/exfat/native/exfat_relayout.c:815-842 | The final verification answers true exactly when the volume opens clean, scans, and a plan for it is in place already. |
| ExfatRunner.OpenJournaled | defragger/gui/filesystems/exfat/native/exfat_relayout.c:1298-1325 | The open check of recovery, with the checks on sector 0 in order, both copies and the comparison with the journal. |
| ExfatRunner.Replay | defragger/gui/filesystems/exfat/native/exfat_relayout.c:932-962 | Replay and commit on a repaired disk write exactly the recovery trace. |
| ExfatRunner.Stage | defragger/gui/filesystems/exfat/native/exfat_relayout.c:1052-1081 | Staging writes every owned cluster to the workspace, stoppable between chunks, and leaves the source intact. |
| ExfatRunner.ExecuteLayout | defragger/gui/filesystems/exfat/native/exfat_relayout.c:932-962 | Placement in target order writes exactly the canonical pieces, or a prefix of them when stopped, and keeps the staged copies. |
| ExfatRunner.Rollback | defragger/gui/filesystems/exfat/native/exfat_relayout.c:908-930 | Rollback writes back every owned cluster from the workspace, syncs, and restores the boot copies read at the start. |
| ExfatRunner.RestoreBoot | defragger/gui/filesystems/exfat/native/exfat_relayout.c:742-754 | Backup copy first, then the main copy, each update synced. |
| ExfatRunner.WriteDirtyFlag | defragger/gui/filesystems/exfat/native/exfat_relayout.c:693-710 | Both copies get the main copy's flags with the dirty bit set, backup first, each synced; nothing else changes. |
| ExfatRunner.WriteBootState | defragger/gui/filesystems/exfat/native/exfat_relayout.c:712-740 | Both copies get the new root, a clear dirty flag, the percentage and a fresh checksum sector, backup first. |
| ExfatRunner.PercentInUse | defragger/gui/filesystems/exfat/native/exfat_relayout.c:756-765 | The percentage is that of the manifest's clusters in the heap, as PercentIsUsage bounds it. |
| ExfatUsage.PercentIsUsage | defragger/gui/filesystems/exfat/native/exfat_relayout.c:756-765 | That is the share of the heap's clusters that some object owns, in percent rounded down. |
| ExfatRunner.CommitFinalMetadata | defragger/gui/filesystems/exfat/native/exfat_relayout.c:767-787 | FAT, then the backup copy, then the main copy, with a sync after each. |
| ExfatRunner.CommitFat | defragger/gui/filesystems/exfat/native/exfat_relayout.c:767-787 | The FAT written is the final FAT of the manifest, and it is synced. |
| ExfatRunner.RepairBoot | defragger/gui/filesystems/exfat/native/exfat_relayout.c:1202-1284 | A torn copy is rewritten, all twelve sectors, from the valid other one; it gives up, writing nothing, exactly when both are invalid. |
| ExfatEngine.Disk.CopyRange | defragger/gui/filesystems/exfat/native/exfat_relayout.c:399-419 | A run copied through a buffer, stopping only between chunks: the clusters written are a prefix of the run, each with its source's content. |
| ExfatEngine.Disk.CopyObjectToRun | defragger/gui/filesystems/exfat/native/exfat_relayout.c:421-444 | An object's scattered clusters arrive in a run in order; nothing outside the run changes. |
| ExfatEngine.Disk.CopyRunToObject | defragger/gui/filesystems/exfat/native/exfat_relayout.c:446-469 | The inverse copy: a run goes back to the object's own clusters in order. |
| ExfatEngine.Disk.PlaceRecord | defragger/gui/filesystems/exfat/native/exfat_relayout.c:589-648 | Placing a record writes its canonical payload: file bytes from the workspace, a directory patched, the bitmap rebuilt; it refuses exactly when the payload cannot be built. |
| ExfatProtocol.PlacesApart | defragger/gui/filesystems/exfat/native/exfat_common.c:51 | Two places of the model share no byte of the device, provided the boot regions, the FAT and the heap lie apart, which opening a volume does not check. |
| ExfatVolume.ChainExact | defragger/gui/filesystems/exfat/native/exfat_common.c:60 | A cluster list is read exactly when it is one, in every mode: nothing for a zero first cluster, a run inside the heap for contiguous streams, else a properly ended FAT path without repeats and of the known length. |
| ExfatVolume.ReadChain | defragger/gui/filesystems/exfat/native/exfat_common.c:60 | The chain loop with its visit map and early exits returns just that. |
| ExfatVolume.OneFragmentIsRun | defragger/gui/filesystems/exfat/native/exfat_common.c:41 | One fragment means one run. |
| ExfatScanner.Scan | defragger/gui/filesystems/exfat/native/exfat_common.c:84-224 | The scan succeeds exactly on the volumes that scan: system entries found, table checksum right, directories parsed, ownership exact; and it reports growth correctly. |
| ExfatScanner.CheckOwnership | defragger/gui/filesystems/exfat/native/exfat_common.c:158-213 | Ownership passes exactly when no cluster has two owners, every owned one is allocated and every allocated one is owned. |
| ExfatScanner.FindSystemEntries | defragger/gui/filesystems/exfat/native/exfat_common.c:82 | The search finds the first active bitmap and the first up-case entry, and refuses as the specification does. |
| ExfatScanner.ReadEntrySet | defragger/gui/filesystems/exfat/native/exfat_common.c:80 | The one-pass reading of an entry set, tied to the set function whose exact refusals ReadSetExactly states and whose fields ReadSetMeans does. |
| ExfatScanner.Parser.ParseDirectory | defragger/gui/filesystems/exfat/native/exfat_common.c:80 | The recursive parse over a growing catalogue and visit map does what the parse function says, failures included. |
| ExfatDirectory.ReadSetExactly | defragger/gui/filesystems/exfat/native/exfat_common.c:80 | An entry set is accepted exactly when its checksum is right, it has one stream extension, and its name entries hold the name's length. |
| ExfatNames.ReadSetMeans | defragger/gui/filesystems/exfat/native/exfat_common.c:80 | What an accepted set says: fields and flags from its one stream extension, and byte k of the name from byte 2 + k % 30 of name entry k / 30 of the set, for every k below twice the stored length. |
| ExfatNames.NthIsOne | defragger/gui/filesystems/exfat/native/exfat_common.c:80 | There is only one j-th name entry, so the name is determined. |
| ExfatCatalogue.CatalogueTold | defragger/gui/filesystems/exfat/native/exfat_common.c:80 | On a scanned volume every directory has as children exactly the entry sets of its bytes that have data, each with the kind, lengths, clusters and flag its set gives it, and as path that of the directory, a slash and its name. |
| ExfatCatalogue.SystemTold | defragger/gui/filesystems/exfat/native/exfat_common.c:82 | The catalogue has the only active bitmap entry and the only up-case entry that the root shows, with the lengths and clusters they name. |
| ExfatAccept.ParsesExactly | defragger/gui/filesystems/exfat/native/exfat_common.c:80 | A directory is parsed with all below it if and only if its bytes store a tree of well-read entry sets in which no directory's first cluster occurs twice or was visited before. |
| ExfatAccept.ReadsExactly | defragger/gui/filesystems/exfat/native/exfat_common.c:84-157 | A volume is read up to the ownership check if and only if its root can be read and shows one active bitmap entry and one up-case entry, whose streams fit and match the stored checksum, and its directories are such a tree. |
| ExfatDirectory.PatchSetReads | defragger/gui/filesystems/exfat/native/exfat_relayout.c:525-576 | A patched entry set is valid and reads as before except for its first cluster and the contiguous flag. |
| ExfatManifest.PatchChildrenExact | defragger/gui/filesystems/exfat/native/exfat_relayout.c:525-576 | Patching all children of a directory changes exactly their entry sets, each to its own patched form. |
| ExfatBuilder.PatchDirectoryPayload | defragger/gui/filesystems/exfat/native/exfat_relayout.c:525-576 | The in-place patch of a payload, children first and system entries then, with its refusals, gives the payload that MeaningPreserved reads. |
| ExfatBuilder.BuildExpectedBitmap | defragger/gui/filesystems/exfat/native/exfat_relayout.c:478-509 | The bitmap built bit by bit, refused on a target outside the heap or set twice. |
| ExfatCanonical.ExpectedBitmapExact | defragger/gui/filesystems/exfat/native/exfat_relayout.c:478-509 | Its bits are set exactly for the clusters in some target. |
| ExfatBuilder.BuildFinalFat | defragger/gui/filesystems/exfat/native/exfat_relayout.c:650-683 | The FAT built in an array, refused when it is too short. |
| ExfatCanonical.FinalFatLinks | defragger/gui/filesystems/exfat/native/exfat_relayout.c:650-683 | On it every system object is a chain over its target run with an end mark, the first two entries are kept, and all other entries are zero. |
| ExfatBuilder.PopulateManifest | defragger/gui/filesystems/exfat/native/exfat_relayout.c:882-905 | Records in catalogue order with consecutive workspace runs. |
| ExfatBuilder.TerminalWorkspace | defragger/gui/filesystems/exfat/native/exfat_relayout.c:359-381 | The search from the top of the heap finds the terminal free run above all targets exactly when there is one. |
| ExfatBoot.FlagKeepsValid | defragger/gui/filesystems/exfat/native/exfat_relayout.c:693-710 | Publishing any flags keeps a valid boot copy valid. |
| ExfatBoot.BootStateValid | defragger/gui/filesystems/exfat/native/exfat_relayout.c:712-740 | The boot copy of the final commit is valid. |
| ExfatBoot.TornCopyIsWhole | defragger/gui/filesystems/exfat/native/exfat_relayout.c:1202-1284 | A copy torn between its two sectors validates exactly when both sectors belong to one version. |
| Checksum.BootSumIgnoresFlags | defragger/gui/filesystems/exfat/native/exfat_common.c:36 | Equal bytes outside 106, 107 and 112 give equal boot checksums. |
| Checksum.EntrySumIgnoresItself | defragger/gui/filesystems/exfat/native/exfat_common.c:29 | The entry-set checksum does not see the two bytes that store it. |
| Checksum.StepsRotate | defragger/gui/filesystems/exfat/native/exfat_common.c:29-36 | One step of either checksum adds the byte to the sum rotated right by one bit, said of every bit. |
| ExfatRedo.BeforeCounts | defragger/gui/filesystems/exfat/native/exfat_worker.c:262-285 | On ascending ranges the resume count is the number of body bytes below the offset, each counted once. |
| ExfatRedo.CommittedBefore | defragger/gui/filesystems/exfat/native/exfat_worker.c:262-285 | The program's count, with its early exits, is that number for the FAT and the allocated runs. |
| ExfatRedo.RunsCover | defragger/gui/filesystems/exfat/native/exfat_worker.c:262-285 | The body is the FAT and exactly the bytes of the allocated clusters. |
| ExfatCommit.Commit.CommitStage | defragger/gui/filesystems/exfat/native/exfat_worker.c:342-440 | From whatever crashes left: it refuses, changing nothing, exactly when the target does not open as the journaled volume with the stage's geometry, or is dirty in a first commit; otherwise every body byte becomes the stage's, durably, the re-reading of the committed ranges finds no difference, nothing else in the body area changes, the clean boot copies are durable, the counts are exact, and its steps are those of the course below. |
| ExfatResume.ReachedHeld | defragger/gui/filesystems/exfat/native/exfat_worker.c:287-322 | Over any number of crashes and resumptions, every body byte below the journaled offset is durably the stage's. |
| ExfatResume.ResumesExactly | defragger/gui/filesystems/exfat/native/exfat_worker.c:342-346 | A crashed commit can be resumed if and only if both boot copies in the crashed image validate and the main one is not the dirty one. |
| ExfatResume.StuckWhileDirty | defragger/gui/filesystems/exfat/native/exfat_plan.c:462-472 | Any crash between the flush of the dirty copies and the writing of the clean ones leaves a volume that the resumed commit refuses to open, because the dirty copies name root cluster 0. |
| ExfatResume.FirstCrashSticks | defragger/gui/filesystems/exfat/native/exfat_plan.c:294-318 | Such a crash is possible in the very first commit. |
| ExfatResume.OpensWhenClean | defragger/gui/filesystems/exfat/native/exfat_worker.c:410-440 | Once the clean copies are flushed every crash leaves a volume that opens. |
| ExfatResume.CompletedIsStaged | defragger/gui/filesystems/exfat/native/exfat_worker.c:342-440 | A commit that completes, after any number of crashes, leaves exactly the stage in the body and the clean boot copies. |
| ExfatCommit.Commit.VerifyRanges | defragger/gui/filesystems/exfat/native/exfat_worker.c:324-340 | The re-reading of the FAT and of every allocated run answers true exactly when all their bytes are the stage's. |
| ExfatStage.BuildStage | defragger/gui/filesystems/exfat/native/exfat_plan.c:320-411 | The stage built along a plan is the scanned volume laid anew: patched payloads in the target runs, final FAT and root; it fails only where a system entry lies inside an entry set. |
| ExfatCheck.VerifyStage | defragger/gui/filesystems/exfat/native/exfat_plan.c:421-460 | The check of a stage accepts exactly what it says: the planned bitmap, and each object, found by kind and path, in its planned run with its hash and a clear reserve. |
| ExfatCheck.StageVerifiesExactly | defragger/gui/filesystems/exfat/native/exfat_plan.c:413-460 | A stage laid anew passes that check if and only if no two objects of one kind have the same path. |
| ExfatRedone.RedoneIsVerified | defragger/gui/filesystems/exfat/native/exfat_worker.c:560-573 | End to end: whichever commit completes, after however many crashes, and whatever a crash after it keeps, the target opens clean and scans, passes verification under the plan, holds every object in its target run, and holds the bytes each file had. |
| AffsFinish.CopyScans | defragger/gui/filesystems/affs/native/affs_native.c:463-490 | The copy of only the allocated blocks scans to the same catalogue. |
| AffsFinish.StageScans | defragger/gui/filesystems/affs/native/affs_native.c:611-703 | The finished image scans to the same directories and bitmap blocks and to the same files, each in its new run. |
| AffsFinish.StageKeepsBytes | defragger/gui/filesystems/affs/native/affs_native.c:565-609 | Every file of the image carries the bytes it had; OFS data blocks are renumbered and relinked under right checksums. |
| AffsFinish.StageLaidOut | defragger/gui/filesystems/affs/native/affs_native.c:705-730 | The image passes the layout verification: each file one run with its reserve free, runs and reserves apart, each file at the earliest place that can hold it, all other metadata untouched, the new bitmap exact. |
| AffsAccept.LaidOutExactly | defragger/gui/filesystems/affs/native/affs_native.c:705-730 | The layout verification accepts exactly the volumes that scan, have each file in one run, and, with growth, have the tenth behind each file, rounded up, inside the volume and free. |
| AffsStage.ReserveIsTenth | defragger/gui/filesystems/affs/native/affs_native.c:653 | The reserve of a file is a tenth of it rounded up, or nothing without growth. |
| AffsFinish.BuildsUnlessBlocked | defragger/gui/filesystems/affs/native/affs_native.c:536-554 | The build is refused exactly when some file in its turn finds every place blocked. |
| AffsBitmap.BitmapRoundTrip | defragger/gui/filesystems/affs/native/affs_native.c:492-509 | Reading the written bitmap gives the map that was written, checksums included. |
| AffsBlocks.PointersReadBack | defragger/gui/filesystems/affs/native/affs_native.c:511-534 | A refilled pointer block reads back its count and pointers, keeps every word outside them, and has a right checksum. |
| AffsBlocks.ChecksumExactly | defragger/gui/filesystems/affs/native/affs_native.c:105-120 | A checksum word is right if and only if all words of the block add up to zero modulo 2^32. |
| AffsBlocks.MovedKeeps | defragger/gui/filesystems/affs/native/affs_native.c:565-609 | A moved data block carries the same file bytes, and in OFS the right header, place, successor and checksum. |
| AffsRescan.FileRefilled | defragger/gui/filesystems/affs/native/affs_native.c:153-222 | A file whose header and list blocks were refilled scans as the same file with the new data blocks. |
| AffsScanner.ScanFileBlocks | defragger/gui/filesystems/affs/native/affs_native.c:153-222 | The file scan over the chain of list blocks, with its refusals. |
| AffsScanner.ScanDir | defragger/gui/filesystems/affs/native/affs_native.c:224-274 | The directory scan with its seen map, ending on every input: it equals the walk of which ScanFindsReached and ScansExactly speak. |
| AffsReach.ScanFindsReached | defragger/gui/filesystems/affs/native/affs_native.c:224-274 | A scan that succeeds lists exactly the blocks reached from the root over table words of directories and the chain words of entries: directories as such, files by header, and no reached block is anything else. |
| AffsReach.FilesTold | defragger/gui/filesystems/affs/native/affs_native.c:153-222 | Every file listed has the size in its header, the list blocks chained from it, and as data blocks the pointers of header and list blocks in order. |
| AffsAccept.FileExactly | defragger/gui/filesystems/affs/native/affs_native.c:153-222 | A file header is accepted if and only if its pointers lead into the volume, and some chain of good list blocks from it points, with it, to as many blocks as its size asks for. |
| AffsAccept.PagesExactly | defragger/gui/filesystems/affs/native/affs_native.c:276-300 | The bitmap pages are those the root lists up to a zero word, then those of the chained extension blocks; refused exactly when one, or the chain, leaves the volume. |
| AffsAccept.ScansExactly | defragger/gui/filesystems/affs/native/affs_native.c:326-395 | A volume is scanned if and only if its boot word is one of DOS 0 to DOS 7, its root block is in the middle, all bitmap pages needed are there with their checksums, and its directories are a tree of good entries in which none occurs twice. |
| AffsScanner.ReadFreeMap | defragger/gui/filesystems/affs/native/affs_native.c:276-324 | The bitmap read page by page, word by word, bit by bit. |
| AffsEngine.WorkingImage.ChooseRun | defragger/gui/filesystems/affs/native/affs_native.c:536-554 | First fit: after a fixed block the search goes on behind it, and no earlier place is missed. |
| AffsEngine.WorkingImage.MoveFileData | defragger/gui/filesystems/affs/native/affs_native.c:565-609 | Batched moves in place equal the block-by-block transformation. |
| AffsEngine.WorkingImage.RewritePtrs | defragger/gui/filesystems/affs/native/affs_native.c:511-534 | Header and list blocks take up all of the new pointers, in order. |
| AffsEngine.WorkingImage.WriteBitmap | defragger/gui/filesystems/affs/native/affs_native.c:492-509 | The bitmap pages are rewritten in place as the round trip needs them. |
| AffsEngine.WorkingImage.PlaceFile | defragger/gui/filesystems/affs/native/affs_native.c:611-703 | One file placed in the mutable image is one step of the specification. |
| AffsEngine.BuildStage | defragger/gui/filesystems/affs/native/affs_native.c:611-703 | The whole build over a mutable image equals the specification, refusals included. |
| AffsEngine.CommitStage | defragger/gui/filesystems/affs/native/affs_worker.c:443-509 | The commit copies the allocated runs in ascending order; when stopped, exactly the allocated blocks below the stop are overwritten. |
| AffsCommit.NeverRefused | defragger/gui/filesystems/affs/native/affs_worker.c:398-433 | In every interleaving of steps, crashes and recoveries the target is never refused as changed: its identity blocks are those of the source. |
| AffsCommit.DoneIsRelaid | defragger/gui/filesystems/affs/native/affs_worker.c:520-597 | Whenever the journal says committed or is gone after success, the durable volume scans, passes the layout verification and holds every file's bytes. |
| AffsCommit.WithdrawnIsUntouched | defragger/gui/filesystems/affs/native/affs_worker.c:443-509 | A transaction withdrawn before its first write leaves the target untouched. |
| AffsCommit.RecoveryProgresses | defragger/gui/filesystems/affs/native/affs_worker.c:520-597 | From every reachable state that still has a journal the undisturbed process can go on, and comes nearer to completion. |
| HelperProtocol.HelperSafe | defragger/native/privileged_helper.cpp:321-620 | In every interleaving of client, reader and worker: at most one unreaped child, never a busy answer to this client, a signal sent for a stop goes to the child of the very request the stop was for, and no child outlives the helper. |
| HelperProtocol.AcceptedStopIsOwn | defragger/native/privileged_helper.cpp:548-586 | A stop read while a request is being served is for that request: it reaches that request's child or is queued for it. |
| HelperProtocol.QueuedStopEnds | defragger/native/privileged_helper.cpp:510-520 | A queued stop never outlives its request. |
| HelperDelivery.QueueIsTaken | defragger/native/privileged_helper.cpp:405-456 | In every interleaving a stop leaves the queue only into the hands of the worker serving its request, or when that request has ended. |
| HelperDelivery.TakenIsSignalled | defragger/native/privileged_helper.cpp:448-495 | A worker that holds a stop gives it up only by signalling it to the child of the stop's own request, or because the transport has failed. |
| HelperDelivery.QueuedStopArrives | defragger/native/privileged_helper.cpp:405-495 | A worker that goes on reading, once its program has produced output or need not, has sent every stop queued for its request to that request's child. |
| HelperDelivery.KillingSignals | defragger/native/privileged_helper.cpp:526-586 | A stop aimed at a child is signalled unless the child has been reaped, and the client is told which. |
| HelperDelivery.RequestNotLost | defragger/native/privileged_helper.cpp:321-523 | In every interleaving, while the helper runs and can be written to, a submitted request is on its way, being served, or reported. |
| HelperDelivery.ShutdownInterrupts | defragger/native/privileged_helper.cpp:588-607 | In every interleaving a helper that shuts down goes on to interrupt the child it knows of, unless it has signalled that child already or the child has been reaped. |
| HelperDelivery.InterruptSignals | defragger/native/privileged_helper.cpp:588-607 | That interruption is a signal to the child, unless it has been reaped. |
| HelperDelivery.ShutdownEnds | defragger/native/privileged_helper.cpp:588-607 | In every interleaving a helper that has begun to shut down can still end: there are further steps that lead to its exit. |
| HelperThreads.Helper.IsBusy | defragger/native/privileged_helper.cpp:344-353 | The first locked section of accepting a request: refused exactly while the protocol's fields are occupied. |
| HelperThreads.Helper.BeginRun | defragger/native/privileged_helper.cpp:355-361 | The second one, after the thread before has been joined: the protocol's acceptance. |
| HelperThreads.Helper.HandleStop | defragger/native/privileged_helper.cpp:548-586 | The locked section of a stop: queued, delivered or answered as the protocol says. |
| HelperThreads.Helper.PublishChild | defragger/native/privileged_helper.cpp:405-424 | Publishing the child takes a queued stop when the program need not produce output first. |
| HelperThreads.Helper.TakeLine | defragger/native/privileged_helper.cpp:448-456 | The first line of output, and no later one, hands a queued stop to the worker, as the protocol's step does. |
| HelperThreads.Helper.PublishIdle | defragger/native/privileged_helper.cpp:510-520 | The section after the child has been reaped leaves the idle fields, so that the next request is accepted. |
| HelperThreads.Helper.SampleActive | defragger/native/privileged_helper.cpp:588-607 | The section of the shutdown loop: a child is interrupted once, and the loop goes on while a worker runs. |
| HelperSession.Session.Run | defragger/gui/ui/privilege_session.py:71-82 | A request is refused when it is not privileged or one is held; else it is submitted, or the helper started, with the failures of both. |
| HelperSession.Session.HandleMessage | defragger/gui/ui/privilege_session.py:203-279 | Every message: readiness submits a held request, output and progress of the newest request are passed on, and only its report frees the session. |
| HelperSession.Session.Exit | defragger/gui/ui/privilege_session.py:293-319 | When the helper ends, a held request is completed with its errors. |
| HelperSession.Session.RequestStop | defragger/gui/ui/privilege_session.py:325-354 | A stop names the request that is running, or fails saying why. |
| HelperSession.CompletedOnce | defragger/gui/ui/privilege_session.py:321-323 | Over every sequence of requests, messages, failed starts, exits and stops: the requests accepted are those completed, in order and once each, and the one held, if and only if no report arrives of a request that was completed before. |
| HelperSession.NoStrayUnlessCutShort | defragger/gui/ui/privilege_session.py:181-201 | Such a report needs a submission that could not be written, or output that could not be read, while its request ran. |
| HelperCompletion.ReportCompletes | defragger/gui/ui/privilege_session.py:203-279 | The helper's report of the active request completes it with the code reported and all lines printed for that request, in order and no others. |
| HelperCompletion.SuccessIsReported | defragger/gui/ui/privilege_session.py:203-319 | A request is answered with code 0 only by such a report of code 0. |
| HelperSession.RequestFollows | defragger/gui/ui/privilege_session.py:71-82 | An accepted request that can be written is the protocol's step, so that the protocol's theorems hold of this client. |
| HelperSession.MessageFollows | defragger/gui/ui/privilege_session.py:203-279 | So is the handling of a message. |
| HelperSession.StopFollows | defragger/gui/ui/privilege_session.py:325-354 | So is a stop. |
| BtrfsMap.MapperPrepare | defragger/gui/filesystems/btrfs/native/btrfs_native.c:424-464 | Preparation accepts exactly non-overlapping, unstriped chunks whose local stripes exist and lie on the device. |
| BtrfsMap.MapperFind | defragger/gui/filesystems/btrfs/native/btrfs_native.c:466-483 | The binary search finds the chunk that holds an address exactly when there is one. |
| BtrfsMap.MapperRanges | defragger/gui/filesystems/btrfs/native/btrfs_native.c:509-547 | The loop over chunks and mirrors appends exactly the pieces of the extent. |
| BtrfsMap.PiecesExact | defragger/gui/filesystems/btrfs/native/btrfs_native.c:509-547 | Each physical byte lies in as many pieces as there are bytes of the extent and local mirrors that put one there. |
| BtrfsMap.PiecesUnlessUnmapped | defragger/gui/filesystems/btrfs/native/btrfs_native.c:509-547 | The split succeeds exactly when every byte of the extent is mapped. |
| BtrfsMap.PiecesLength | defragger/gui/filesystems/btrfs/native/btrfs_native.c:509-547 | Together the pieces are as long as all local copies of the extent. |
| BtrfsSet.MaskIsRemainder | defragger/gui/filesystems/btrfs/native/btrfs_native.c:549-557 | Masking with a power of two less one is taking the remainder. |
| BtrfsSet.NextSlot | defragger/gui/filesystems/btrfs/native/btrfs_native.c:581-607 | On a table whose capacity is a power of two the masked step goes round slot by slot, visiting all. |
| BtrfsSet.U64Set.Rehash | defragger/gui/filesystems/btrfs/native/btrfs_native.c:559-579 | Growing keeps the contents, the probe order and the power of two. |
| BtrfsSet.U64Set.Insert | defragger/gui/filesystems/btrfs/native/btrfs_native.c:581-607 | Insertion adds just the value and says whether it was new; it is refused exactly for zero or a table that cannot double. |
| BtrfsNode.TreeWalk | defragger/gui/filesystems/btrfs/native/btrfs_native.c:609-704 | The walk over stored blocks, with its stack and hash set, equals the specified walk, and what it reads is logged. |
| BtrfsNode.ReaderOneLevel | defragger/gui/filesystems/btrfs/native/btrfs_native.c:609-704 | The block check accepts a block at one level only, the one it stores. |
| BtrfsNode.TreeWalkExact | defragger/gui/filesystems/btrfs/native/btrfs_native.c:609-704 | On any image and any graph of pointers, cyclic ones included: no block is read twice, and a walk that succeeds reads exactly the reachable blocks. |
| BtrfsNode.TreeWalkInOrder | defragger/gui/filesystems/btrfs/native/btrfs_native.c:609-704 | On a stored tree it returns the leaf items from left to right. |
| BtrfsNode.MapperReadPhysical | defragger/gui/filesystems/btrfs/native/btrfs_native.c:485-507 | A tree block is read from its first local stripe when it lies wholly inside its chunk. |
| BtrfsLeaf.BlockExactly | defragger/gui/filesystems/btrfs/native/btrfs_native.c:485-507 | A block has certain bytes if and only if its address is aligned, lies with all of the block in one chunk, and that chunk's first local stripe holds these bytes for it. |
| BtrfsLeaf.LeafReadsBack | defragger/gui/filesystems/btrfs/native/btrfs_native.c:654-683 | A leaf laid out from given items, a table and then the data, reads as these items. |
| BtrfsLeaf.InnerReadsBack | defragger/gui/filesystems/btrfs/native/btrfs_native.c:684-697 | A block of given key pointers reads as their children, and is refused exactly when one is zero. |
| BtrfsLeaf.StoredLeafReads | defragger/gui/filesystems/btrfs/native/btrfs_native.c:609-704 | So a leaf stored for its address is read as its items. |
| BtrfsLeaf.StoredInnerReads | defragger/gui/filesystems/btrfs/native/btrfs_native.c:609-704 | An inner block stored for its address is read as its children. |
| BtrfsTree.NeverReadsTwice | defragger/gui/filesystems/btrfs/native/btrfs_native.c:609-704 | No walk, successful or refused, reads a block twice, whatever the reader answers. |
| BtrfsTree.WalkReads | defragger/gui/filesystems/btrfs/native/btrfs_native.c:609-704 | With a reader that accepts blocks at one level, a successful walk reads exactly the reachable blocks. |
| BtrfsTree.WalkInOrder | defragger/gui/filesystems/btrfs/native/btrfs_native.c:609-704 | A stored tree of distinct blocks is walked completely and in order. |
| Intervals.MergeInPlace | defragger/gui/filesystems/btrfs/native/btrfs_native.c:307-325 | The in-place merge of a sorted array keeps what the array covered; the result is separated except for a lone empty range, which is left as it is. |
| Intervals.MergeRanges | defragger/native/map.cpp:554-570 | Merging gives the separated list of what the ranges cover. |
| Intervals.ComplementRanges | defragger/native/map.cpp:572-586 | The gaps are the separated list of the uncovered units below the total. |
| Intervals.MergingUnique | defragger/gui/backends/ranges.py:22-34 | There is only one separated list for a coverage, so the C, C++ and Python merges agree. |
| MapUnits.CellBoundary | defragger/native/map.cpp:22-30 | The boundary computed in 64 bits without overflow is floor(index * total / count). |
| MapUnits.BoundariesSplit | defragger/native/map.cpp:22-30 | Boundaries start at 0, end at the total and strictly grow while there are no more cells than units. |
| MapUnits.CellsPartition | defragger/native/map.cpp:628-675 | The cells cover every unit once, and their totals are the counts over all units. |
| MapUnits.CellsFor | defragger/native/map.cpp:598-603 | The number of cells is the one asked for when that lies between 1 and the number of units, else the nearer of these. |
| MapForms.RangesAsStream | defragger/gui/backends/ranges.py:179-261 | The map of ranges is the map of the stream of their units. |
| MapForms.BitmapAsStream | defragger/gui/backends/ranges.py:288-337 | The map of a bitmap is the map of the stream of its units. |
| MapForms.BitmapTotals | defragger/gui/backends/ranges.py:288-337 | Over all units the used count is the number of set bits behind the reserved prefix, the free count that of clear ones, and the prefix is unknown. |
| MapForms.StreamTotals | defragger/gui/backends/ranges.py:120-177 | Over all units each count is the number of its states, missing ones unknown. |
| MapUnits.ScriptSplitsExactly | defragger/gui/backends/ranges.py:113-117 | The Python boundaries are the even split exactly when there is a unit; a map of no units gets a cell of one. |
| MapCells.Normalise | defragger/native/map.cpp:605-626 | Clipping, checking and joining refuses exactly an invalid state or an overlap and keeps every unit's state. |
| MapCells.AggregateRanges | defragger/native/map.cpp:588-701 | The single pass counts every unit in its own cell and state, gaps as unknown; refused exactly for no units, an invalid state or an overlap. |
| MapCells.AggregateStates | defragger/gui/backends/ranges.py:120-177 | The stream form counts missing and unknown states as unknown and ignores surplus ones. |
| MapCells.OverlayRanges | defragger/native/map.cpp:703-735 | The overlay of a cell is the number of covered units in it, at most the used ones; the total is the number of covered units, no more than the largest end. |
| MapBitmap.CountSetBits | defragger/gui/backends/ranges.py:264-285 | The masked count over bytes equals counting bit by bit. |
| MapBitmap.AggregateBitmap | defragger/gui/backends/ranges.py:288-337 | The bitmap form counts every unit, the reserved prefix as unknown; refused exactly when the bitmap is too short for the units counted. |
| MapGrid.GridFits | defragger/gui/ui/map_geometry.py:23-39 | There is a grid exactly when there are cells; with no more cells than pixels it has no more blocks than pixels in either direction and just enough rows, whatever the target size. |
| MapGrid.GridIs | defragger/gui/ui/map_geometry.py:23-39 | Width and height are those of the target, at least 1; with more cells than pixels every pixel is a block; else the number of columns is the one nearest to the ideal of those that fit. |
| MapGrid.SlotInverts | defragger/gui/ui/map_geometry.py:55-56 | A pixel lies in a slot's cut exactly when it hits that slot. |
| MapGrid.HitInvertsDraw | defragger/gui/ui/map_geometry.py:42-75 | Hit-testing inverts drawing: a pixel belongs to a cell's block exactly when the hit test answers that cell. |
| MapGrid.CrowdedPixels | defragger/gui/ui/map_geometry.py:59-75 | With more cells than pixels each pixel answers the first cell of its own non-empty share. |

## Left out

- Read and write errors: a failing operation ends the run, as a crash at that point does. Journal contents are saved and
  loaded whole; parsing the journal text, its atomic replacement and the check of the target's identity are not modelled.
- ExfatDevice.AfterCrash: sector 0 and the checksum sector of a boot copy are written whole or not at all; sectors 1 to
  10 of each copy are one place whose bytes tear like those of a cluster.
- ExfatProgram.RelayoutInPlace: it requires the entries of `SystemApart`; what happens without is `RelaidRootRefused`.
- ExfatPlan.BuildPlan: the order comes from the library's sort and is taken as given, a permutation; `SortedUnique` says
  when it is determined.
- Object names are byte strings from the name entries; their conversion to UTF-8 and the case folding are a parameter.
- ExfatBuilder.PopulateManifest: the identity and geometry fields of the manifest are values of the job instead.
- ExfatCommit.Commit.CommitStage: a stop request and the free-space check before it are not steps of it; the hash that a
  resumed commit takes of the stage is taken to match; sectors 1 to 10 of each boot copy are not written.
- ExfatCheck.VerifyStage: the hash is an arbitrary function.
- ExfatResume.ResumesExactly: the boot writes of the redo path tear between the checked sectors only, not inside one.
- AffsCommit.NeverRefused: identity is taken from the blocks it is computed from, so hash collisions do not occur.
- AffsFinish.StageScans: volumes have fewer than 2^32 blocks, so block arithmetic does not wrap.
- AFFS SFS variants, hard links, and the directory cache are not part of this model.
- HelperProtocol.HelperSafe: failure to create a thread and exceptions raised in the client while sending are not steps;
  the latter are in `HelperSession`. The policy that admits programs is an arbitrary yes or no.
- BtrfsNode.TreeWalk: checksums of tree blocks are not computed by the program and are not modelled; the allocation of
  the item array cannot fail.
- MapCells.OverlayRanges: JSON cells are records, and the new field is a sequence beside them.
- MapGrid.GridIs: the ideal number of columns, a rounded square root, is arbitrary.
- ext, FAT, NTFS, XFS, HFS+ and APFS mapping, JSON, the GTK interface, hashing of stages, live progress events and the
  device layer only add parsing and plumbing.
