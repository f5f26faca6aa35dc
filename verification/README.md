# BlazeNet in Dafny

BlazeNet distributes games as content-addressed blocks. An origin node keeps every block, IDC nodes copy versions from
the origin and from each other, cafe servers rebuild the files of a version on their disks, and a scheduler decides who
fetches what. This project models the parts of that system in which a mistake loses data or wastes the origin's
bandwidth, and proves what they keep.

| part | modules | source |
|---|---|---|
| version manifests | `Manifest`, `ManifestRoundTrip`, `ManifestLayout`, `Utf8` | `crates/blaze-common/src/manifest.rs` |
| block store of origin and IDC nodes | `PackStore`, `PackBatch`, `PackBatchRun`, `PackCrash`, `PackFlush`, `Compaction`, `GameStore` | `crates/origin/src/storage.rs`, `crates/blaze-common/src/compio_io.rs` |
| update of a cafe | `ChunkMap`, `UpdatePlan`, `Merge`, `MergeTheorems`, `MergeOutcome`, `CafeUpdate`, `TempFiles`, `MergeSwap`, `MergeSafety`, `MergeRetry`, `MergePermute`, `MergeRollback`, `GameDir`, `CafeStore`, `CafeAgent` | `crates/agent/src/update.rs`, `cafe_store.rs`, `executor.rs`, `crates/blaze-common/src/update_plan.rs` |
| block transfer | `FetchServe`, `DownloadMissing`, `IdcAgent`, `DownloadManager` | `crates/agent/src/fetch.rs`, `executor.rs`, `download.rs`, `crates/origin/src/datapath.rs` |
| scheduler, ledger and IDC nodes over whole runs | `Protocol`, `Ledger`, `Egress`, `EgressTwice`, `IdcRun`, `LostFlush` | `crates/scheduler/src/http.rs`, `db.rs`, `server.rs` |
| publication on the origin | `OriginServer`, `Publication` | `crates/origin/src/server.rs` |
| keepalive probing | `Keepalive`, `Probing` | `crates/scheduler/src/keepalive.rs` |

Run `dafny verify dfyconfig.toml` in this directory.

## How the system is modelled

- **Hashes.** BLAKE3 is a parameter `digest: Bytes -> Hash` of every result. Nothing is assumed about it. Where a
  result needs it, the absence of a collision is a precondition on the bytes at hand (`NoCollision`, `NoFalseAccept`,
  `HashesDecide`, `NoFalseFile`, `NoForeignTemp`), never on all byte strings.
- **Disk.** A game directory is a map from path to bytes, a block file is a byte sequence, the block index is a map
  with atomic commits. Short reads and writes may stop after any positive number of bytes. Methods with a `faulty`
  parameter may fail at any operation when it is true; every disk state they go through is recorded in a ghost trace.
- **Network.** What each peer does with a request (refuse it, or send some byte stream) is a parameter for either round
  of a download, and so are the scheduler's answers and the origin. Nothing is assumed about them; results that need
  honest peers say which. What the sink refuses is part of the same parameter.
- **Integers.** Unbounded, except where the program's width shows: 16- and 32-bit words of the manifest, the 64-bit
  packed location, the 32-bit length of a block, the 32-bit probe number and failure counter (wrapping, as in a release
  build). Lengths and offsets are otherwise natural numbers. The garbage ratio is computed over reals.
- **Concurrency.** The scheduler and its nodes are a state machine of atomic steps; every interleaving is a run of it.

Objects whose fields the program updates are classes, and loops are loops. Each method is tied by its `ensures` to a
function of the old state, and the results about that function are lemmas beside it. Small lemmas without a row below
only serve those proofs.

## Where the program falls short of its documents

The code is modelled as it is. Eight promises do not hold without a condition; each has its condition for all inputs,
most with a concrete run that breaks it.

1. *A batch append is one append after the other.* Only while lengths fit 32 bits and repeats were first placed below
   2^32 (`PackBatch.BatchRefinesFold`). A location from 2^32 on loses its upper bits
   (`PackStore.UnpackableReadsElsewhere`, `PackStore.OffsetTruncationLosesData`).
2. *An interrupted compaction keeps the old file* (`docs/06`, section 4). The file is renamed before the index is
   committed. What a stop leaves is sound exactly when every indexed range ends within the live bytes
   (`Compaction.StoppedSoundIff`), a live block survives exactly when the copy shows it at its old place
   (`Compaction.StoppedReads`), and all survive for every content of the file exactly when they already stand there
   (`Compaction.StopKeepsLiveIff`); the run is `Compaction.StoppedCompactionLosesBlocks`.
3. *A failed update can be retried.* Files are replaced one by one while later ones, and later attempts, still read
   blocks from their old places. An attempt over any disk reports no failure exactly when each due entry still finds
   its blocks (`MergeTheorems.MergeSucceedsIff`, `CafeUpdate.WholeUpdateSucceedsIff`). Swapping two files never
   completes (`MergeSwap.SwapNeverConverges`), and a file whose blocks trade places cannot be merged again
   (`MergePermute.PermuteNeverRetries`).
4. *Temporary files do not touch managed ones.* They leave all files that are not due alone exactly when no due entry
   has one of them as its temporary file (`TempFiles.TempFilesHarmlessIff`); a due file that is its own temporary file
   is lost (`TempFiles.OwnTempAlwaysFails`). Names without the extension `new` are safe
   (`MergeTheorems.NoNewExtensionNoClash`).
5. *Every block leaves the origin once* (`docs/05` section 4.2, `crates/scheduler/src/http.rs:133-134`). It does when
   tasks follow reports and none is started twice (`Egress.OriginAskedOnce`); two tasks created before the first report
   share it (`Egress.BothAssignedIff`, `EgressTwice.AskedTwiceUnlessHandedOver`, `Egress.TwoTasksOneBlock`), and so do
   two attempts of one task (`Egress.OneTaskTwice`).
6. *A reported block is held.* It is indexed exactly while no failed flush dropped it (`Protocol.LedgerEntryTrueIff`,
   `IdcAgent.RunIdc`, the run `LostFlush.ReportsLostBlocks`), and served with its own bytes while the store has at most
   2^32 bytes (the same theorem, the run `LostFlush.ReportsWrappedBlock`).
7. *An update without failures installs the version.* Unchanged entries are not looked at, so it does exactly when
   these files hold their content already (`CafeUpdate.WholeUpdateInstallsIff`). They do after attempts at one version
   only (`MergeRetry.RetrySucceedsIff`), not after another version was abandoned half way
   (`MergeRollback.RollbackKeepsForeignBytes`).
8. *Assigning keeps every block.* An assignment replaces the previous plan, so the partition survives exactly when
   nothing was outstanding (`DownloadManager.DownloadManager.Assign`).

Two smaller differences: `docs/06`, section 3.2, ranks temporary blocks above old files and says that a renamed file is
not recognised, while `crates/agent/src/update.rs:118-141` reads old files first and reuses blocks across all of them.
The model follows the code.

## Model

| member | source | states |
|---|---|---|
| CafeUpdate.WholeUpdateSucceedsIff | crates/agent/src/executor.rs:192-224 | Over any disk (first attempt, retry, another version abandoned half way, damage, missing files): with the plan's blocks and those of missing files downloaded, the merge reports no failure if and only if no due entry lost a source, that is, the file at each block's first place still shows it there, or is replaced before by bytes that keep it, or is missing with the block temporary |
| CafeUpdate.FirstAttemptSucceedsIff | crates/agent/src/executor.rs:192-224 | With all old files on disk and unchanged, the condition is that no due entry takes a block from a shared file that an earlier entry of the same run replaced by bytes that lose it |
| CafeUpdate.WholeUpdateInstallsIff | crates/agent/src/executor.rs:192-224 | In that case no dropped file is left, and the disk holds every file of the new version with exactly its blocks' bytes if and only if the files that were not due held theirs already |
| CafeUpdate.FreshInstall | crates/agent/src/executor.rs:192-224 | A first installation always succeeds and installs the version exactly |
| CafeUpdate.RepairRestores | crates/agent/src/executor.rs:194-221 | Re-running the current version restores any missing subset of files exactly, also when a block's first place is itself a missing or just repaired file |
| CafeUpdate.DownloadList | crates/agent/src/executor.rs:192-205 | The list is sorted and free of duplicates, and a block is on it if and only if some file of the new version has it and either that file is missing on disk, or the block is neither temporary nor in any file of the old version |
| CafeUpdate.CollectRepair | crates/agent/src/executor.rs:194-202 | The repair set is exactly the blocks of the new version's files that are not on disk |
| MergeTheorems.MergeSucceedsIff | crates/agent/src/update.rs:161-241 | For any disk and any temporary blocks: no failed file if and only if every due entry finds the right bytes of every block at its own place, at the first shared place, or in a temporary block, where a file replaced earlier in the loop counts only if its new content shows the block at its old place. Judged from the two versions' contents, the start disk and the temporary names |
| MergeTheorems.MergeInstallsIff | crates/agent/src/update.rs:161-241 | Under that condition every dropped name is gone, and every file of the new version is exact if and only if the files the merge left alone were |
| MergeTheorems.MergeInstalls | crates/agent/src/update.rs:161-241 | In particular the version is installed when every old file on disk has its old or its new content |
| MergeOutcome.MergeOutcome | crates/agent/src/update.rs:161-241 | For any disk, temporary blocks and digest, with unique names that do not clash with temporary ones: a due entry ends up either with bytes of its file hash or among the failed with its file as it was; all other files of the new version are as they were, files only the old version has are gone; merged plus failed is the number of due entries, and deleted the number of dropped files that were there |
| MergeOutcome.DueIs | crates/agent/src/update.rs:206-213 | An entry is due if and only if its file is missing or no old entry of its name has its file hash |
| MergeTheorems.StartShowsIff | crates/agent/src/update.rs:118-133 | Where the files have old or new content, a file shows a block at its old place if and only if it is still old or its new content keeps the block there |
| MergeRetry.RetrySetting | crates/agent/src/update.rs:161-241 | After any number of attempts at one version, each stopped or failed anywhere, every old file is missing or has exactly its old or its new content |
| MergeRetry.RetrySucceedsIff | crates/agent/src/executor.rs:192-224 | A further attempt at that version, after downloading again, has no failures if and only if no due entry lost a source, and then installs the version |
| MergePermute.PermuteNeverRetries | crates/agent/src/executor.rs:221-225 | Concrete run: a file whose two blocks trade places is installed by the first attempt; stopped before the manifest is saved, every later attempt fails with nothing left to download |
| MergeRollback.RollbackKeepsForeignBytes | crates/agent/src/update.rs:205-213 | Concrete run over the disk so left: updating from the old version to itself merges nothing, reports no failure, and the file keeps the other version's bytes, which are then served for its blocks |
| MergeTheorems.AssembleIdeal | crates/agent/src/update.rs:117-144 | From any block on, the assembled bytes are the entry's content exactly when all remaining blocks have a good source; a wrong piece can never be compensated by later ones |
| MergeTheorems.PieceIdeal | crates/agent/src/update.rs:118-141 | Half way through a merge the block chosen by the own-file, shared-file, temporary order is the authentic one exactly when the start-of-merge condition says so |
| MergeTheorems.DueStays | crates/agent/src/update.rs:205-213 | Whether an entry is merged does not depend on the entries merged before it |
| MergeTheorems.NoNewExtensionNoClash | crates/agent/src/update.rs:103-104 | Managed names that do not end in `.new` never clash with a temporary name, so the no-clash precondition is something a caller can check |
| TempFiles.MergeOneKeepsIff | crates/agent/src/update.rs:95-158 | Merging one entry keeps any other file on disk if and only if that file is not the entry's temporary file |
| TempFiles.KeptIff | crates/agent/src/update.rs:205-232 | From any point of the loop on, a file that no later entry replaces, just merged ones included, is kept if and only if it is the temporary file of no entry merged later |
| TempFiles.TempFilesHarmlessIff | crates/agent/src/update.rs:205-232 | All managed files that are not about to be replaced stay untouched through the whole loop if and only if no due entry has one of them as its temporary file; due and not due are judged before the merge |
| TempFiles.IdleGone | crates/agent/src/update.rs:205-240 | A managed file that bears the temporary name of a due entry is gone after the merge |
| TempFiles.OwnTempAlwaysFails | crates/agent/src/update.rs:205-240 | A due file that is its own temporary name is reported failed and gone, whatever blocks there are |
| Merge.NewExtensionIsOwnTemp | crates/agent/src/update.rs:103-104 | Every path whose extension is `new` is its own temporary name |
| Merge.TempNameClash | crates/agent/src/update.rs:103-158 | Concrete loss: merging `a.bin` removes a managed file `a.new` |
| Merge.TempNameExtension | crates/agent/src/update.rs:103-104 | `dir/stem.ext` has the temporary name `dir/stem.new`, where `ext` is what follows the last dot of the file name and `stem` is not empty |
| Merge.TempNameNoExtension | crates/agent/src/update.rs:103-104 | A file name without a dot, or with a leading one only, keeps its whole name before `.new` |
| MergeSwap.SwapNeverConverges | crates/agent/src/update.rs:161-241 | Concrete divergence: an update that swaps two files fails after every number of retries, with nothing left to download |
| MergeSafety.MergesAlwaysTrustworthy | crates/agent/src/update.rs:95-241 | Through any chain of merges stopped between any two disk changes, a managed name holds its first content, nothing, or bytes whose hash some merged manifest gives that name |
| MergeSafety.RunsChain | crates/agent/src/update.rs:161-241 | Runs of legal disk changes chain over different versions, which is how a retry after a stop reads |
| GameDir.GameDir.Merge | crates/agent/src/update.rs:161-241 | A merge that reports no failure, and any merge without I/O faults, is the specified one on disk and in its summary; with reads, writes, removes and renames failing anywhere, every disk change is still a legal one |
| GameDir.GameDir.MergeEntries | crates/agent/src/update.rs:205-232 | The loop over entries: as long as no fault has made an entry fail, progress equals the specification after each entry; failures are collected |
| GameDir.GameDir.WriteNewFile | crates/agent/src/update.rs:95-158 | Success is exactly the verified replacement; a failure without faults leaves only the temporary file, as specified |
| GameDir.GameDir.AssembleNew | crates/agent/src/update.rs:103-144 | The temporary file holds the assembled pieces, read from the directory as it is while the file grows |
| GameDir.GameDir.FinishNew | crates/agent/src/update.rs:145-158 | Verify, remove the old file, rename; bytes with another hash never reach the managed name |
| GameDir.GameDir.ReadPiece | crates/agent/src/update.rs:118-141 | One block in the order own file, first shared file, temporary block |
| GameDir.GameDir.DeleteDropped | crates/agent/src/update.rs:233-239 | Exactly the dropped names still present are removed and counted; a failing delete stops the run |
| GameDir.BuildFileMaps | crates/agent/src/update.rs:167-185 | Name to entry and per-file block places of the old version |
| ChunkMap.BuildChunkMap | crates/agent/src/cafe_store.rs:43-54 | The loop with a running offset computes the specified map |
| ChunkMap.BuildMapKeys | crates/agent/src/cafe_store.rs:43-54 | The map knows exactly the blocks of the version |
| ChunkMap.BuildMapPoints | crates/agent/src/cafe_store.rs:43-54 | Every entry points at its block's bytes inside one of the version's files: offsets are prefix sums of the block lengths |
| ChunkMap.BuildMapFirst | crates/agent/src/cafe_store.rs:43-54 | A block's place is in the first file that has it, at the first block of that hash, with the sum of the lengths before it as offset |
| ChunkMap.ContentLength | crates/agent/src/cafe_store.rs:43-54 | The block lengths of a file add up to the length of its content |
| ChunkMap.FileMapPoints | crates/agent/src/update.rs:170-184 | The same for the map over one old file |
| Common.LexFirstDifference | crates/agent/src/executor.rs:121 | Hashes are sorted bytewise: where two first differ the smaller byte comes first |
| UpdatePlan.Compute | crates/blaze-common/src/update_plan.rs:24-76 | New, changed and dropped names are told apart; the block list is new minus old minus temporary, each once, in manifest order, with its byte count |
| UpdatePlan.CompareFiles | crates/blaze-common/src/update_plan.rs:34-44 | A name is new when the old version lacks it, changed when both have it with different file hashes |
| UpdatePlan.CollectWanted | crates/blaze-common/src/update_plan.rs:53-67 | One pass over the blocks finds the first occurrence of each wanted hash |
| UpdatePlan.WantedHashes | crates/blaze-common/src/update_plan.rs:53-67 | The wanted list is duplicate-free and holds exactly the hashes outside the skip set |
| UpdatePlan.WantedAt | crates/blaze-common/src/update_plan.rs:53-67 | Walking on by one block adds it to the wanted list if and only if its hash is not skipped and no earlier block has it |
| UpdatePlan.IndexLast | crates/blaze-common/src/update_plan.rs:29-31 | Of old entries with the same name the last one counts |
| UpdatePlan.ChunkSetIsVersion | crates/blaze-common/src/manifest.rs:107-112 | A hash is in the block set exactly when some file of the version has such a block |
| CafeStore.ServesVersion | crates/agent/src/cafe_store.rs:134-165 | With a version installed, every block of it is served with its authentic bytes |
| CafeStore.TransparentCache | crates/agent/src/cafe_store.rs:134-196 | Removing any temporary blocks changes the answer for a hash if and only if the hash is outside the installed version and its own block was removed |
| CafeStore.ReportedBlocksServed | crates/agent/src/executor.rs:220-228 | Every block a cafe reports after an update that installs the version is served, also after its temporary copy expired |
| CafeStore.Open | crates/agent/src/cafe_store.rs:68-106 | Opening loads the map of the version the marker names; a marker that is no number, a missing or a damaged manifest is an error |
| CafeAgent.RunCafe | crates/agent/src/executor.rs:159-230 | Plan, download, merge, save, report: the saved version changes only after a merge without failures. The temporary directory grows by blocks of the download list alone, and a run that reports has all of them. Then the report lists exactly the version's blocks; the version is installed if and only if the files the merge left alone held their content, and then each reported block is served with its authentic bytes, whatever reads and writes failed on the way. When both manifests can be read, the peers bring the list and no I/O fails, the run reports if and only if no due entry lost a source |
| CafeAgent.FinishedUpdate | crates/agent/src/executor.rs:192-228 | A finished download leaves authentic temporary blocks that cover the plan; after a merge without failures the version is installed exactly when the files left alone were right, and then every block is served, also once any temporary copies are gone |
| CafeAgent.CompleteUpdate | crates/agent/src/executor.rs:192-224 | With the download list complete the merge has no failures if and only if no due entry lost a source |
| CafeAgent.OldFilesCases | crates/agent/src/cafe_store.rs:87-106 | No version marker stands for an empty old version, a marker that is no number and a missing or damaged manifest are errors, and a saved manifest is the old version of the next update |
| CafeStore.CafeStore.SaveManifest | crates/agent/src/cafe_store.rs:109-122 | Manifest file and version marker are written first; a damaged manifest then leaves the map in memory as it was |
| CafeStore.CafeStore.SetCurrent | crates/agent/src/cafe_store.rs:125-129 | The map changes exactly when the manifest decodes |
| CafeStore.CafeStore.Read | crates/agent/src/cafe_store.rs:134-151 | Temporary block first; nothing exactly when there is neither that nor a mapped file on disk; else the mapped bytes, and a short file is an error |
| CafeStore.CafeStore.Has | crates/agent/src/cafe_store.rs:154-162 | Presence without looking at the bytes: exactly when a read does not find nothing |
| CafeStore.CafeStore.CleanupExpired | crates/agent/src/cafe_store.rs:168-196 | A complete sweep removes exactly the blocks written more than `ttl` before now and counts them; one stopped by an error has removed only such blocks; a block dated in the future stays |
| PackStore.UnpackPack | crates/origin/src/storage.rs:25-31 | Unpacking a packed location gives the offset modulo 2^32 and the length |
| PackStore.AppendRefinesPut | crates/origin/src/storage.rs:217-241 | While locations survive packing, an append keeps all ranges in bounds and pairwise disjoint and adds exactly its block to the map of blocks, deduplication included |
| PackStore.AppendReadsBack | crates/origin/src/storage.rs:217-241 | A new block whose location survives packing reads back as its own bytes |
| PackStore.UnpackableReadsElsewhere | crates/origin/src/storage.rs:25-31 | Any other one does not: a block of 2^32 bytes or more never reads back, and one appended at 2^32 or behind is answered with the bytes at its offset modulo 2^32 |
| PackStore.OffsetTruncationLosesData | crates/origin/src/storage.rs:29-31 | Concrete loss at offset 2^32: the first byte of the file answers for the block |
| PackStore.TailIrrelevant | crates/origin/src/storage.rs:185-214 | Bytes behind the append position never show in the map of blocks |
| PackStore.ReadIsView | crates/origin/src/storage.rs:304-318 | On a sound store a read answers from the map of blocks |
| PackStore.SumOrderIndependent | crates/origin/src/storage.rs:364-373 | The live total does not depend on the order in which the hash set is walked |
| PackStore.LiveBytesBounded | crates/origin/src/storage.rs:364-383 | Live bytes never exceed the file size, so the garbage ratio lies between 0 and 1 |
| PackBatch.BatchRefinesFold | crates/origin/src/storage.rs:245-301 | A batch equals one append after the other in file bytes, size, index and every returned location if and only if every placed length fits 32 bits and every repeated new block was first placed below 2^32 |
| PackBatch.BatchRefinesPutAll | crates/origin/src/storage.rs:245-301 | While every placed block is packable a batch keeps the store sound and adds its blocks in order, first come first kept |
| PackBatchRun.LookUp | crates/origin/src/storage.rs:249-275 | First pass: known locations, places of new blocks, and repeats of a new block with the place of its first occurrence |
| PackBatchRun.FillRepeats | crates/origin/src/storage.rs:283-285 | Last pass: a repeat gets the location of its first occurrence |
| PackBatchRun.IndexPlaced | crates/origin/src/storage.rs:287-299 | The single index commit adds exactly the placed blocks |
| PackCrash.AppendCrashAtomic | crates/origin/src/storage.rs:217-241 | Stop an append after any write and reopen: the store is sound and shows the old blocks or the old ones and the new one |
| PackCrash.BatchCrashAtomic | crates/origin/src/storage.rs:245-301 | Stop a batch after any write and reopen: all of its blocks are there or none |
| GameStore.GameStore.Open | crates/origin/src/storage.rs:185-214 | The append position is the file length |
| GameStore.GameStore.WriteExactAt | crates/origin/src/storage.rs:80-103 | Any split into short writes gives the whole write; every intermediate file leaves the bytes below the append position alone |
| GameStore.GameStore.Append | crates/origin/src/storage.rs:217-241 | Store and result equal the specification: a new block is written behind the others and answered with its place, a known one answers with its old place and changes nothing; every disk state on the way is still the old or already the new one |
| GameStore.GameStore.PlaceAll | crates/origin/src/storage.rs:276-282 | New blocks are written one behind the other and get their locations; the index is untouched |
| GameStore.GameStore.AppendBatch | crates/origin/src/storage.rs:245-301 | The three passes compute the specified batch and its locations; the disk trace is all or nothing |
| GameStore.GameStore.Compact | crates/origin/src/storage.rs:346-425 | Leaves the store alone if and only if it is empty, its dead bytes are fewer than the threshold times its size, or the live bytes exceed the space; a live block outside the file, a failing copy or a failing rename changes nothing; the disk goes through the stopped store (new file, old index) to the compacted one, and a failing index commit leaves it in the stopped one |
| Compaction.WorthInDeadBytes | crates/origin/src/storage.rs:374-383 | The ratio test in dead bytes, without a quotient |
| Compaction.AllLiveNotRewritten | crates/origin/src/storage.rs:374-383 | A store whose bytes are all live is never rewritten for a positive threshold |
| Compaction.FewerLiveStillRewritten | crates/origin/src/storage.rs:364-383 | A compaction that is worth it stays so when fewer blocks are live |
| Compaction.CompactedNotRewritten | crates/origin/src/storage.rs:374-423 | A compacted store is not rewritten again for the same live blocks |
| GameStore.CollectLive | crates/origin/src/storage.rs:364-373 | The indexed live hashes and their total length, for any walking order |
| GameStore.RelocateAll | crates/origin/src/storage.rs:387-392 | New locations are running offsets |
| GameStore.GameStore.Read | crates/origin/src/storage.rs:304-318 | Reading over short reads equals the specified read |
| GameStore.GameStore.Contains | crates/origin/src/storage.rs:321-330 | Presence is membership in the index |
| Common.ReadExactAt | crates/origin/src/storage.rs:64-78 | The read loop over arbitrary short reads returns the exact range or fails at the end of the file; an empty read never fails |
| Compaction.CopyRanges | crates/blaze-common/src/compio_io.rs:29-62 | For every list of ranges and every window: success exactly when all non-empty ranges lie in the file, and then the copy is their concatenation |
| Compaction.CompactionPreserves | crates/origin/src/storage.rs:346-425 | A completed compaction keeps every live indexed block with its bytes, forgets all others, and the file is exactly the live bytes |
| Compaction.SmallPackRelocatable | crates/origin/src/storage.rs:387-392 | The precondition of the previous line holds for every sound store of at most 2^32 bytes |
| Compaction.LiveListUnique | crates/origin/src/storage.rs:385 | Sorting makes the compacted file independent of the order in which the live set is walked |
| Compaction.StoppedSoundIff | crates/origin/src/storage.rs:402-423 | Stopped between rename and index commit, the reopened store is sound if and only if every indexed range, live or dead, ends within the live bytes |
| Compaction.StoppedReads | crates/origin/src/storage.rs:402-423 | A live block then reads back if and only if the copied file shows its bytes at the old place, and fails exactly when that place lies past the end |
| Compaction.StopKeepsLiveIff | crates/origin/src/storage.rs:402-423 | All live blocks survive a stop for every content of the file if and only if every non-empty one already stands at its running offset, a condition on index and lengths alone |
| Compaction.InPlaceStopKeepsLive | crates/origin/src/storage.rs:402-423 | The half of it for one block |
| Compaction.StoppedCompactionLosesBlocks | crates/origin/src/storage.rs:402-423 | Concrete run: a live block is unreadable and a dead one reads as another block's bytes |
| ManifestRoundTrip.DecodeEncode | crates/blaze-common/src/manifest.rs:46-132 | An index survives encoding and decoding if and only if its lengths fit their words, names are valid UTF-8 and its hash is its own |
| ManifestRoundTrip.DecodeEncodeBuilt | crates/blaze-common/src/manifest.rs:34-104 | What `build` makes round-trips if and only if lengths fit and names are valid UTF-8, and then decodes to the given files |
| ManifestRoundTrip.EncodeDecode | crates/blaze-common/src/manifest.rs:46-104 | Re-encoding an accepted manifest gives the same bytes if and only if its flags word is zero |
| ManifestRoundTrip.DecodeInjective | crates/blaze-common/src/manifest.rs:53-104 | Two inputs accepted as the same index are equal unless the digest collides on them |
| ManifestRoundTrip.NoTruncationNoTrailing | crates/blaze-common/src/manifest.rs:53-104 | No proper prefix or extension of an accepted manifest is accepted as the same index |
| ManifestRoundTrip.DecodedShape | crates/blaze-common/src/manifest.rs:53-104 | An accepted manifest is, byte for byte, header, body and hash of its own index |
| ManifestLayout.ManifestLayout | crates/blaze-common/src/manifest.rs:114-120 | Magic, version, zero flags and file count stand at bytes 0, 5, 7 and 9, least significant byte first, then the files, and the hash in the last 32 bytes |
| ManifestLayout.FileLayout | crates/blaze-common/src/manifest.rs:121-130 | A file entry is its name length and name, its file hash, its block count, and 36 bytes for every block: hash and length |
| ManifestLayout.FilesInOrder | crates/blaze-common/src/manifest.rs:121-130 | Files follow one another in order and without gaps |
| Utf8.ValidIff | crates/blaze-common/src/manifest.rs:72-73 | A name is accepted if and only if it is the encoding of a sequence of Unicode scalar values (sections 3 and 4 of RFC 3629) |
| Manifest.BuildIndex | crates/blaze-common/src/manifest.rs:34-43 | The index of some files has these files, format version 1 and the hash of its own body |
| Manifest.EncodeBody | crates/blaze-common/src/manifest.rs:114-132 | The nested loops write the specified body |
| Manifest.DecodeManifest | crates/blaze-common/src/manifest.rs:53-104 | The cursor loops compute the specified parser, every error included |
| Manifest.ReadFiles | crates/blaze-common/src/manifest.rs:66-89 | The counted file list at a cursor, or the first error |
| Manifest.ReadFile | crates/blaze-common/src/manifest.rs:69-88 | Name, file hash and counted blocks at a cursor, or the first error |
| Manifest.ReadChunks | crates/blaze-common/src/manifest.rs:76-83 | The counted block list at a cursor, or the first error |
| FetchServe.FetchOverCut | crates/agent/src/fetch.rs:104-129 | Over the stream of a server that may hold wrong bytes, cut after any byte, into a sink that may refuse: of the answers that arrived whole the genuine ones are sunk in order and the others failed; the unanswered rest is failed when the cut is between answers or inside a length word, and the transfer breaks when it is inside a block or at the first genuine block without room |
| FetchServe.FetchWithoutCut | crates/origin/src/datapath.rs:83-113 | Without a cut the blocks sunk from an honest server are the longest prefix of the request it holds and everything after it is failed |
| FetchServe.FetchAccounts | crates/agent/src/fetch.rs:90-130 | Against any byte stream whatever, a finished fetch splits the request into sunk and failed, and only verified bytes reach the sink |
| FetchServe.FetchChunks | crates/agent/src/fetch.rs:90-130 | The client loop computes the specified fetch |
| FetchServe.ServeRequests | crates/origin/src/datapath.rs:83-113 | The server loop answers in order until the first block it lacks |
| FetchServe.WireOrder | crates/origin/src/datapath.rs:110-111 | The length word carries its most significant byte first |
| DownloadMissing.Download | crates/agent/src/executor.rs:233-410 | Done means every requested block reached the sink with verified bytes; the origin is only asked for assigned blocks, each once, and only after all others arrived. While the scheduler answers usably, a block is sunk, and not asked of the origin, if its listed peers are honest, or one endpoint of them is dead and the second round lists an honest one that was faultless in the first; if that holds for every block the download succeeds without the origin. With an origin that has the blocks and full assignment it succeeds whatever the peers send |
| DownloadMissing.Round | crates/agent/src/executor.rs:274-364 | One round covers: every requested block is sunk or still listed; it stops only for a block whose holders could not be asked or reached. A block whose sources are honest, or all but those of one dead endpoint, is sunk or that endpoint is excluded, and only endpoints with a dishonest source are excluded |
| DownloadMissing.GroupByPeer | crates/agent/src/executor.rs:274-322 | Every block with a usable holder is asked once, of endpoint, address and directness of one and the same candidate, which its first byte picks; the others stay unplaced; one group per target |
| DownloadMissing.CandidatesInOrder | crates/agent/src/executor.rs:286-290 | The candidates are the listed peers with an address, a valid endpoint and no failure so far, in the order listed |
| DownloadMissing.FetchGroups | crates/agent/src/executor.rs:327-363 | All groups transfer at once into one sink, in any interleaving: what is sunk and left is exactly what the single transfers sink and leave, and an endpoint is newly excluded if and only if a transfer from it broke |
| DownloadMissing.Partition | crates/agent/src/executor.rs:369-375 | What is left is split by responsibility |
| DownloadMissing.SortDedup | crates/agent/src/executor.rs:395-396 | The origin list is sorted and free of duplicates |
| Protocol.AlwaysSound | crates/agent/src/executor.rs:114-156 | In every reachable state, through registration, publication, task creation, rollback, buffering, successful and failing flushes, origin requests, reports, aborts and retries: stores of at most 2^32 bytes are sound and hold only blocks that hash to their keys, and what a run or the ledger claims an IDC node has, it has indexed or lost in a failed flush |
| Protocol.LedgerEntryTrueIff | crates/scheduler/src/server.rs:275-281 | In every reachable state, an IDC node that the ledger lists for a block has it indexed if and only if no failed flush of that node dropped it without a later one storing it; a store of at most 2^32 bytes then answers with bytes that hash to it |
| LostFlush.ReportsLostBlocks | crates/agent/src/executor.rs:129-155 | Concrete run: 63 buffered blocks are lost when the flush of the 64th fails, that one is fetched again, and the node reports all 64 |
| LostFlush.ReportsWrappedBlock | crates/origin/src/storage.rs:29-31 | Run without any failing flush: a store grows past 2^32 bytes, and the node reports a block that it answers with the first byte of another |
| Protocol.LedgerNamesRealHolders | crates/scheduler/src/server.rs:275-281 | While no flush fails, an IDC node that the ledger lists for a block has it indexed, and serves genuine bytes from a store of at most 2^32 bytes |
| Ledger.HoldersAreReporters | crates/scheduler/src/db.rs:287-309 | In every reachable state the holders of a block are without repetition, and a node is one of them if and only if it reported that block before |
| Ledger.RepeatedReportQuiet | crates/scheduler/src/db.rs:300-304 | Reporting a block again leaves the ledger as it was |
| Ledger.FirstReportOrder | crates/scheduler/src/db.rs:300-304 | Holders stand in the order of their first reports |
| Ledger.ReportedRunListed | crates/agent/src/executor.rs:152-155 | A run with nothing left to report is listed for every block its version had when it started |
| Ledger.AskedWasMissing | crates/agent/src/executor.rs:114-121 | What a run asks of the origin is assigned, belongs to its version and was not in the node's store when it started |
| Ledger.LatestPublishCounts | crates/scheduler/src/db.rs:527-550 | The last manifest published for a version counts, readable or damaged |
| Protocol.AssignIdcChunks | crates/scheduler/src/http.rs:135-156 | The assignment is the sorted list of the version's blocks without a known holder, empty for other nodes and unknown versions, and an error when the stored manifest does not decode |
| Egress.EgressHadNoHolder | crates/scheduler/src/http.rs:135-156 | Whenever a node asks the origin for a block, its task was created for an IDC node at a moment when the ledger listed no holder of it |
| Egress.ReportedNeverAssigned | crates/scheduler/src/http.rs:403-445 | From the first report of a block on, no newly created task is assigned it |
| Egress.EgressPredatesReport | crates/agent/src/executor.rs:369-408 | Hence every origin request for a reported block belongs to a task created before the report |
| Egress.BothAssignedIff | crates/scheduler/src/http.rs:135-156 | Two tasks share a block on their duties if and only if both are for IDC nodes and versions with it and no holder was reported before the second was created |
| Egress.RequestsAreNew | crates/agent/src/executor.rs:388-403 | Each task, attempt and block in the record of origin requests stands for exactly one request |
| Egress.OriginAskedOnce | crates/scheduler/src/http.rs:133-156 | The origin is asked for a block at most once when no task is started twice and each task for a version with the block, but the first, is created after a holder was reported |
| EgressTwice.AskedTwiceUnlessHandedOver | crates/scheduler/src/http.rs:133-156 | Conversely, a run in which two tasks for versions with the block were created before a holder was reported goes on to one with two requests, as long as their nodes lack the block and the versions stay published and obtainable |
| Egress.OneTaskTwice | crates/agent/src/executor.rs:388-403 | Concrete run in which one task, started again after a stop, takes a block from the origin twice |
| Egress.TwoTasksOneBlock | crates/scheduler/src/http.rs:133-156 | Concrete run in which one block leaves the origin twice |
| Egress.HoldersStay | crates/scheduler/src/db.rs:287-309 | The ledger only grows, in order |
| IdcAgent.RunIdc | crates/agent/src/executor.rs:95-157 | The reported list is exactly the version's blocks; it is true if and only if the store has every listed block that a failed flush dropped on the way. The origin is asked only for assigned blocks the store lacked, and for none when the peers bring them. While nothing fails, the node gets to its report when the peers bring what it lacks, and also when it is responsible for all of that and the origin has the version |
| IdcAgent.IdcSink.Flush | crates/agent/src/executor.rs:129-137 | The taken batch is appended as one; on success nothing the node was known to hold is lost, on failure the old store is still visible and exactly the batch is gone |
| IdcAgent.IdcSink.Push | crates/agent/src/executor.rs:141-149 | Below 64 the block is buffered and the store untouched; the 64th block appends the whole buffer as one batch. Buffered and stored blocks together grow by exactly the pushed one; a push can only fail at that flush |
| IdcAgent.PushAll | crates/agent/src/executor.rs:138-151 | A whole download passes through the buffer: every block is held, buffered or was in a failed flush, and without failures none is lost |
| IdcAgent.FlushIntact | crates/agent/src/executor.rs:129-137 | A flush of verified blocks that ends within 2^32 bytes keeps the store intact |
| DownloadManager.DownloadManager.constructor | crates/agent/src/download.rs:18-23 | A new manager has every block pending |
| DownloadManager.DownloadManager.Assign | crates/agent/src/download.rs:31-42 | Round-robin over the sorted pending blocks: each with one peer, shares differ by at most one; pending, dealt and done still partition the initial set if and only if nothing was outstanding before |
| DownloadManager.DownloadManager.PeerFailed | crates/agent/src/download.rs:45-49 | Exactly the failed peer's unfinished blocks become pending again |
| DownloadManager.DownloadManager.ChunkDone | crates/agent/src/download.rs:52-56 | A finished block leaves whichever plan had it and nothing else moves |
| DownloadManager.DealsAll | crates/agent/src/download.rs:31-42 | A round-robin plan gives every block to exactly one peer and balances the shares |
| DownloadManager.ShareAt | crates/agent/src/download.rs:34-38 | Block number k of peer p is number k n + p of the sorted list |
| OriginServer.AlwaysClosed | crates/origin/src/server.rs:138-312 | After any interleaving of queries, uploads with failing appends, and commits, also ones whose manifest write stops half way, stores below 2^32 bytes hold only blocks that hash to their key, and every published manifest that was written whole decodes and names only stored blocks |
| OriginServer.PublishedIsReadable | crates/origin/src/server.rs:235-312 | Every block such a manifest names reads back as bytes with that hash while its store is below 2^32 bytes |
| OriginServer.TornManifestDiffers | crates/origin/src/server.rs:292-296 | A manifest whose write stopped half way is never read as the version that was committed |
| OriginServer.ProcessUpload | crates/origin/src/server.rs:138-185 | Wrong bytes are refused, a failing append is acknowledged as an error and leaves the stored blocks alone, the rest is appended, a malformed hash ends the stream; the store then has exactly the blocks it had and those acknowledged |
| OriginServer.FindMissing | crates/origin/src/server.rs:266-275 | The commit check finds a missing block exactly when there is one and lists at most five |
| Publication.IndexedIffAcked | crates/origin/src/server.rs:138-185 | Over any run of events a game's store has a block if and only if some upload stream for the game acknowledged it |
| Publication.CommitPublishesIff | crates/origin/src/server.rs:235-312 | After any run of events a commit publishes exactly its manifest if and only if its numbers are positive, the manifest decodes and hashes as announced, every block of the version was acknowledged before and the write is not stopped; a stopped write leaves a torn file there, any other commit changes no published manifest, and no commit changes a store |
| Publication.UploadThenCommit | crates/origin/src/server.rs:138-312 | A version whose blocks one stream acknowledges is published by the commit that follows, whatever came before |
| Publication.CommitVersion | crates/origin/src/server.rs:235-312 | The commit as the program runs it: rejected exactly when malformed, refused exactly when a block of the version is missing, else written |
| Publication.QueryExisting | crates/origin/src/server.rs:191-217 | The asked blocks the store has, in the order asked; a malformed hash is an error |
| Keepalive.UnavailableIff | crates/scheduler/src/keepalive.rs:66-77 | Over any trace an address is unavailable if and only if its last max(1, threshold) results are all failures, also across a wrap of the counter |
| Keepalive.StateIsStreak | crates/scheduler/src/keepalive.rs:66-77 | The counter is the failure streak modulo 2^32 and the flag follows the streak |
| Keepalive.DueOnce | crates/scheduler/src/keepalive.rs:56-63 | In any interval of consecutive seconds every address is due in exactly one |
| Keepalive.Keepalive.RegisterAddr | crates/scheduler/src/keepalive.rs:51-53 | Registering keeps an existing state |
| Keepalive.Keepalive.RecordResult | crates/scheduler/src/keepalive.rs:66-77 | The table is the one the recorded trace stands for |
| Keepalive.Keepalive.ProbeDue | crates/scheduler/src/keepalive.rs:56-63 | Exactly the registered addresses of this second's slot |
| Keepalive.Keepalive.Unavailable | crates/scheduler/src/keepalive.rs:80-86 | Exactly the unavailable addresses |
| Probing.Prober.Send | crates/scheduler/src/keepalive.rs:151-154 | A probe takes the next wrapped number; probes sent equal results recorded plus overwritten plus outstanding, and nothing is overwritten within the first 2^32 probes |
| Probing.Prober.Pong | crates/scheduler/src/keepalive.rs:168-172 | An answer is recorded once, and only for an outstanding number |
| Probing.Prober.Expire | crates/scheduler/src/keepalive.rs:175-185 | Exactly the probes as old as the interval are dropped, each with one recorded failure for its own address |
| Probing.Prober.SendDue | crates/scheduler/src/keepalive.rs:136-156 | Exactly the due reported addresses are probed, once each, under the numbers that follow |
| Probing.Prober.Tick | crates/scheduler/src/keepalive.rs:114-185 | One turn: exactly the due addresses become outstanding, exactly the answered probes are recorded as answered, exactly the unanswered old ones as failures, and the others stay |
| Probing.Prober.Run | crates/scheduler/src/keepalive.rs:111-185 | Over any number of turns every probe sent was recorded, is outstanding or was overwritten, and until the numbers wrap none is overwritten and none is recorded twice |

## Left out

- Protocol.AlwaysSound: each report is one step; task queues and their delivery are not modelled, so a task may start at any time after its creation, again after an abort.
- IdcAgent.PushAll: a block offered in a push that failed is one the run accepts elsewhere; the effect of other offered blocks on the buffer is the same.
- DownloadMissing.Download: an unusable configuration of the origin's endpoint or address is not modelled; an endpoint has one spelling, while the program compares the excluded ones as texts.
- GameStore.GameStore.Compact: a failing reopen after the rename is not modelled: the program then goes on with the handle of the replaced file.
- PackCrash.AppendCrashAtomic: writes reach the disk in order; loss of unsynced writes at power failure is not modelled.
- OriginServer.AlwaysClosed: the report to the scheduler after a published manifest is not part of this model.
- GameDir.GameDir.WriteNewFile: the cached handle of the last source file is not modelled, a source is read anew for each block; directories, absolute names, `..` and names that denote the same file are not modelled.
- Probing.Prober.Tick: all of a turn happens at one instant; node status updates and offline marking in the tables are not modelled.
- Keepalive.UnavailableIff: with overflow checks a failure at 2^32 - 1 stops the program; the model wraps, as a release build does.
- CafeStore.Open: failures to create the directories are not modelled.
- CafeAgent.RunCafe: a temporary block whose write fails leaves no file behind, and writing the manifest files succeeds.
- FetchServe.FetchChunks: the request header (game and count) and connection set-up are not modelled.
- Manifest.DecodeManifest: memory reserved for a declared count is not modelled.
- UpdatePlan.Compute: sums of lengths do not wrap at 2^64.
- Which holders `query_peers` lists and in which order: the answers are a parameter of `DownloadMissing.Download`. Task and node numbers are fresh by the guards of the steps that create them.
- Offsets and file sizes beyond 64 bits are not ruled out; only the packed location is cut to its width.
- FastCDC boundaries, BLAKE3, redb, io_uring and the file system are library code.
- TLS, iroh connections and relays, STUN, gRPC and HTTP plumbing, shutdown and retry timing.
- Accounts, places, groups, audit log, metrics, JSON backup, heat ranking and the web front end: single-branch table operations.
- Download throttling: wall-clock arithmetic in one branch.
- Task status strings: any transition is accepted, so there is nothing to prove.
- The keepalive packet codec: two fixed-size records, simpler than the manifest.
