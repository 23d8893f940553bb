# MobFS, verified model

MobFS mounts a directory of another machine. The daemon there holds the real tree. A mount talks
to it through layers that exist for speed and for bad connections: it caches file blocks, collects
writes and uploads several at a time, remembers names, sizes and inode numbers, and learns what
other clients changed by polling a feed. This project models those layers next to the plain tree
they stand for, and proves where the two agree and, where they do not, exactly when.

`dafny verify dfyconfig.toml` checks everything.

## Structure

| file | models |
|---|---|
| Bytes, Paths, Wrappers, Network | file contents, the zero-filling positional write, cache blocks; the subtree relation; optional values; the fate of a request |
| Uploads | the write buffer per handle and the parallel uploader, as steps: write, dispatch, (partial, repeated) transfer, completion, error report |
| Mount | the uploader together with the block cache, the generations and the fetches that race with both |
| Vfs | the same as an object: `write`, `flush`, `flush_matching`, `read`, `fetch`, `fetch_run`, each proved to keep the invariant of Mount |
| Ranges | range requests: the daemon's read loop, frames, the client's frame loop, cutting into blocks, reassembly |
| BlockStore | the block cache's two indexes, byte count and eviction, against a plain recency list |
| Flights | the table of fetches in progress: leaders, followers, claims of runs |
| Feed | the bounded event log, paging, reset detection, and a client that follows the cursors |
| Coherence | a mount's cache against other clients' changes, across polls and racing fetches |
| Trees | the served tree, `create_dir_all`, rename, and the daemon's mutating requests |
| Journal | the mount's record/apply/clear protocol with crashes and replays |
| Streams | the frames of a streamed write: how many are written, which ranges are announced |
| Announcing | a streamed write among any other steps of Coherence: its frames are changes, its announcements cover them |
| RequestLog | the daemon's history as a log of attempts, and what a repeated call amounts to |
| CutWrites | a write that is cut any number of times among other clients' requests |
| Interference | which of these requests may come in between, exactly |
| Retry | completion markers, the handler of streamed writes, the client's retry loop |
| Resume | resumable upload with restarts |
| Namespace | ordered maps over paths, `subtree_keys`, inode numbers, the mount's rename |
| SyncPlan | the three-way sync plan and its application to both trees |
| NfsDir | directory paging over inode cookies |
| ReadAhead | the read-ahead window and its batches |

State that the source changes in place is a class here. Where threads or machines interleave, a
module has a relation over steps, each as long as a lock is held or a request is served, and its
theorems hold for every run of such steps. What the network, the disk, other clients and crashes
do is a parameter, over which everything is proved.
A write offset, a length or a counter is an unbounded number. The sizes (1 MiB blocks, 50 000
events, 4096 events a reply, 4 MiB announcements and so on) are the source's.

## What does not hold, and exactly when it does

* `invalidate_range` drops the blocks a write touches. A write that starts past the block holding
  the end of the file also changes the blocks from there to its start
  (`Bytes.RangeInvalidationCovers`, `Bytes.GapBlocks`). The cached blocks stay those of the file if
  and only if none of these is cached (`Mount.CacheStaysCurrentExactly`);
  `Mount.GapWriteLeavesStaleBlock` is a run from start-up in which a drained path serves a stale
  block. Such writes are allowed everywhere; what is read through their handle afterwards is not
  claimed to be current.
* `invalidate_tree` advances the generation of the named path and of those paths below it that
  have a cached block, and no others (`Coherence.TreeBumpsExactly`); a reset advances the paths
  that have one, and no others (`Coherence.ResetBumpsExactly`). A fetch on a path without cached
  blocks can therefore insert stale bytes: the runs `Coherence.TreeInvalidationMissesFetch` and
  `Coherence.ResetMissesFetch` end so.
* `apply_change` ignores an event for the root, for an ignored path, or while a local write is
  pending on its path or below (`Coherence.EventDropsBlockExactly`); in the run
  `Coherence.DroppedEventLeavesStaleBlock` a stale block outlives it.
* A blocked poll scans again after each wake-up without looking for eviction. Its reply is
  complete if and only if no foreign event was evicted past its cursor meanwhile
  (`Feed.ReplyComplete`), and what a client collects is everything if and only if this holds of
  every reply that arrives (`Feed.Follower.Run`). `Feed.OvertakenPollLosesEvent` runs the feed
  into the loss, and `Coherence.OvertakenPollLeavesStaleBlock` a mount into what follows from it.
* A mutation whose recovery fails leaves its entry in the journal. The next mutation may be
  recorded behind it, and a replay then performs the older one after the newer. That is harmless
  in every tree if and only if the older one can change no tree at all
  (`Journal.LeftoverHarmlessExactly`).
* A mutation that fails is acknowledged nevertheless if and only if the process lives, no attempt
  at it is answered, and a replay gets through: the replay drops rejected entries and reports
  success (`Journal.RejectedYetAcknowledgedExactly`, and a mount that does so in
  `Journal.RejectedYetAcknowledged`).
* A rejected call changes the tree if and only if it renames a path to below itself and the
  directories above the target can be made and are not all there; then it leaves these
  (`RequestLog.RejectedExactly`, `RequestLog.RejectedLeavesDirectory`).
* An attempt that the client has given up may still be served. Once the marker exists the operation
  can still change the file if and only if such a handler has bytes left to write
  (`Retry.StragglerExactly`, and `Retry.StragglerReached` for how that comes about).
* A request of another client between a cut attempt at a write and the attempt that goes through
  leaves in every tree what it would have left without the cut attempt if and only if it is beside
  the write (`CutWrites.Beside`, `Interference.BesideExactly`); in every tree that has the file, if
  and only if it does not move the file away (`Interference.BesidePresentExactly`).
  `CutWrites.RenamedAwayLeavesPart` is a history in which it does.
* A stream that is cut after m frames of the client leaves the last m mod 4 of them written and
  unannounced: everything written is announced if and only if the stream was complete or m is a
  multiple of four (`Streams.CutAnnouncedExactly`), and then, whatever else happens meanwhile, no
  change is left that other mounts will not hear of (`Announcing.StreamIsRun`).
* An upload that nothing disturbs ends in success if and only if the first attempt at its last
  request that arrives is also answered; otherwise in a server error, although the new content is
  published (`Resume.UndisturbedOutcome`, `Resume.FinishReplyLost`).
* Renaming a path onto itself makes the mount forget its inode numbers and metadata; a renamed
  path keeps its number if and only if it was not also under the target
  (`Namespace.RelabelKeepsExactly`).
* With deletion on, a directory made on the remote side without any file is deleted by the second
  sync: after a sync the next plan is empty if and only if the remote side has no directory that
  the local side lacks (`SyncPlan.NextPlan`, `SyncPlan.NewRemoteDirectoryIsDeleted`).
* A directory is compared without what is in it. A file that is new on one side, in a directory that
  the other side has deleted, raises no conflict: a sync with deletion on removes it with the
  directory, and then fails for want of it. A sync succeeds if and only if there is no such file
  (`SyncPlan.SyncSucceedsExactly`); in `SyncPlan.NewFileIsLost` neither side has it afterwards.
* A maximum read-ahead window of one block makes the window's clamp abort at the first sequential
  read, and only then (`ReadAhead.Reader.Schedule`).
* After a write, a size that was exact exceeds the file if and only if the write had no bytes and
  started past the end (`Vfs.SizeExactly`); the size is only ever used as an upper bound, which it
  stays (`Vfs.Vfs.Write`).

## Model

| member | source | states |
|---|---|---|
| Bytes.RangeInvalidationCovers | src/vfs.rs:592-598 | every block a positional write changes is touched by its range, if and only if the write starts no later than the block holding the end of the file |
| Bytes.GapBlocks | src/vfs.rs:592-598 | the blocks a write changes without touching them are exactly those from the one holding the end of the file to the one before the write |
| Bytes.AdjacentWritesMerge | src/vfs.rs:1481-1533 | extending a buffer by a back-to-back write equals the two writes one after the other |
| Bytes.DisjointWritesCommute | src/vfs.rs:1092-1104 | zero-filling writes to ranges the overlap check lets run in parallel commute, holes included |
| Bytes.PrefixAbsorbed | src/daemon.rs:668-702 | a full write absorbs any earlier prefix of itself |
| Uploads.WriteKeepsInv | src/vfs.rs:1481-1533 | a write (merged, displacing, or first) keeps: the daemon's file overlaid by the uploads in flight and then the buffer is the sequentially written file |
| Uploads.TransferKeepsInv | src/vfs.rs:1125-1129 | an upload that lands in part, in full or again is invisible under that overlay |
| Uploads.FinishKeepsInv | src/vfs.rs:1129-1136 | completion, with the failure recorded in the same step as the removal, keeps overlay, admission and error bookkeeping |
| Uploads.FlushedMeansUploaded | src/vfs.rs:1151-1155 | over every run: if flush of a handle that never got an upload error returns Ok, the daemon holds all its writes applied in issue order |
| Uploads.AdmissionHolds | src/vfs.rs:1092-1124 | over every run: uploads in flight to one path are pairwise disjoint, the byte count is their exact sum, and above the limit only for a lone upload |
| Uploads.AdmissibleExactly | src/vfs.rs:1092-1112 | a dispatch is admitted if and only if each upload of the path ends before its data or begins behind it, and the data is alone or fits into 128 MiB |
| Uploads.BuffersBounded | src/vfs.rs:1501-1526 | over every run: what a handle has buffered beyond the limit is the data of a single write |
| Uploads.WaitingEnds | src/vfs.rs:1092-1112 | a dispatch that waits has something to wait for, each completion shrinks the set, and an empty set admits it |
| Uploads.AnyLandingOrder | src/vfs.rs:1125-1137 | the uploads in flight may land in any order: the result is the issue-order result |
| Mount.ReadSeesWrites | src/vfs.rs:1157-1173 | over every run with racing fetches: once a path is drained, none of its handle's uploads failed, the daemon's file is the written file; and if none of its writes left a gap, every cached block is a block of it |
| Mount.StepKeepsInv | src/vfs.rs:1129-1136 | because ranges are invalidated before an upload leaves the in-flight set, cached and fetched blocks are current except where an upload in flight still owes an invalidation |
| Mount.HoleIsTouched | src/vfs.rs:592-598 | a hole filled by a late upload of a handle without gap writes lies in blocks that uploads still in flight will invalidate |
| Mount.CompleteIsThreeSteps | src/vfs.rs:1125-1137 | the uploader's job is a transfer, an invalidation and a removal, in this order |
| Mount.CacheStaysCurrentExactly | src/vfs.rs:592-598 | after one write and the invalidation of its range the cached blocks are those of the written file if and only if no block from the end of the file to the write is cached |
| Mount.GapWriteLeavesStaleBlock | src/vfs.rs:592-598 | a run from start-up: a byte cached, a write into the next block uploaded, the path drained, and the first block stale |
| Vfs.Vfs.DispatchPending | src/vfs.rs:1087-1137 | waits until the buffer overlaps nothing in flight and fits, admits it as one new upload, and loses no write meanwhile |
| Vfs.Vfs.AwaitAdmission | src/vfs.rs:1092-1112 | the waiting loop ends in a state that admits the buffer, whatever completes or fails meanwhile |
| Vfs.Vfs.TakeUploadError | src/vfs.rs:1073-1078 | returns and removes the recorded failure of the handle; None means none is recorded |
| Vfs.Vfs.DoomedAreReported | src/vfs.rs:1130-1136 | every handle with a failed upload has been told or has its error recorded |
| Vfs.Vfs.Flush | src/vfs.rs:1151-1155 | nothing of the handle is buffered or in flight afterwards; the error is the number of the handle's last failed upload, and the recorded one if nothing was on its way; a handle never given an error gets one now if and only if an upload of it has failed, and if it gets none, every file of it equals what was written to it |
| Vfs.Vfs.FlushMatching | src/vfs.rs:1157-1173 | afterwards nothing at or below the path is buffered or in flight; an error is that of the last failed upload of a handle that had something buffered there, and None means that none of these has one recorded |
| Vfs.Vfs.BufferWrite | src/vfs.rs:1501-1526 | extends the handle's buffer exactly if the write goes on where it ends and fits into 8 MiB, else takes its place and sends it; either way the written file gains exactly this write, wherever it starts |
| Vfs.Vfs.Write | src/vfs.rs:1481-1533 | the recorded error of the handle, if there is one, is returned instead and forgotten; otherwise the written file becomes itself with the data at the offset, and a known size stays an upper bound; it records whether the write left a gap and whether the size was unknown |
| Vfs.SizeExactly | src/vfs.rs:1197-1206 | an exact size exceeds the file after a write if and only if the write has no bytes and starts past the end |
| Vfs.Vfs.Fetch | src/vfs.rs:661-696 | a cached block is returned as it is; a fetched block is cached until evicted and is the daemon's block; on a drained path without failures or gap writes, cached or fetched, that of the written file |
| Vfs.Vfs.FetchRun | src/vfs.rs:627-659 | everything it adds to the cache is a current block of the path within the run, which ends before the first cached block; a request that is not answered adds nothing, and one that arrives whole caches every block there is in the run, up to 16 MiB, if nothing is evicted |
| Vfs.Vfs.FetchBatch | src/vfs.rs:1366-1374 | a batch ends at the first block that is cached, begins the next aligned batch or lies behind a known end of the file |
| Vfs.Vfs.FetchNext | src/vfs.rs:1365-1376 | a batch is fetched ahead of a block exactly for a sequential reader that misses it; what arrives of the block is current |
| Vfs.Vfs.ReadBlocks | src/vfs.rs:1352-1402 | the block loop gathers exactly the requested slice; if the fetch of a block is lost, what lies before it, or an error if that is nothing; nothing is fetched behind a short block |
| Vfs.Vfs.Read | src/vfs.rs:1339-1403 | read-your-writes: the requested slice of the sequentially written file, cut before a block whose fetch is lost, or an error if nothing lies before it; any other error is that of the last failed upload of a handle that had something buffered at the path |
| Vfs.WriteFlush | src/vfs.rs:1151-1155 | a client of a new mount: after a write and a flush without error the daemon has the file as written, and the flush reports an error if and only if an upload failed |
| Vfs.WriteFlushRead | src/vfs.rs:1339-1403 | after them a read without a lost fetch returns the requested slice of the file as written |
| Vfs.HeldGathers | src/vfs.rs:1373-1398 | keeping a lone block uncopied or copying it gathers the same bytes |
| Ranges.ReadRange | src/daemon.rs:989-1014 | the fill loop returns the slice cut at the request limit and the end of file, and eof exactly when it reaches that end |
| Ranges.ReceiveFrames | src/protocol.rs:259-276 | accepts exactly a prefix of the frames that makes up the announced length, and fails only if there is none |
| Ranges.FramesArrive | src/protocol.rs:259-276 | of what the daemon sends, exactly its own frames are taken, and they concatenate to the data |
| Ranges.IntoBlocksExact | src/vfs.rs:2076-2093 | cutting frames keeps the bytes and yields exactly the blocks of their concatenation |
| Ranges.RangeBlock | src/vfs.rs:648-653 | block i of a range that starts at a block boundary is the file's block |
| Ranges.GatherBlock | src/vfs.rs:1376-1394 | one iteration of the read loop adds exactly the wanted part of its block |
| Ranges.ShortBlockEnds | src/vfs.rs:1395-1399 | a short block ends the file: nothing wanted follows |
| BlockStore.EvictShortest | src/vfs.rs:558-566 | evicting one by one removes the shortest least-recently-used prefix that restores the bound |
| BlockStore.InsertedStays | src/vfs.rs:544-567 | the inserted block survives its own insertion if and only if it fits at all |
| BlockStore.RecencyHas | src/vfs.rs:489-496 | the recency list holds exactly the cached blocks, once each |
| BlockStore.RecencyTouch | src/vfs.rs:518-529 | a fresh tick moves a block to the end of the list and changes no size |
| BlockStore.BlockStore.Get | src/vfs.rs:518-529 | a hit returns the block and makes it most recent; a miss changes nothing |
| BlockStore.BlockStore.Remove | src/vfs.rs:549-552 | both indexes lose the block and the byte count its exact length, without saturating |
| BlockStore.BlockStore.InsertBlock | src/vfs.rs:544-567 | refused under an outdated generation; otherwise the plain recency cache's insertion, within capacity |
| BlockStore.BlockStore.InvalidateWhere | src/vfs.rs:569-586 | drops exactly the doomed blocks, keeps the order of the rest, advances each path's generation once |
| BlockStore.BlockStore.InvalidateRange | src/vfs.rs:592-598 | drops exactly the blocks of the path that the range touches |
| BlockStore.BlockStore.InvalidatePath | src/vfs.rs:588-590 | drops all blocks of the path and advances its generation |
| BlockStore.BlockStore.InvalidateTree | src/vfs.rs:600-610 | drops everything at or below the path; advances the named path and the cached ones below it |
| BlockStore.BlockStore.Clear | src/vfs.rs:612-625 | empties the cache and advances every path that had a block |
| Flights.StepKeepsInv | src/vfs.rs:627-696 | every claim, read, removal, finish and wake-up keeps: table and live claims agree, and no flight is lost |
| Flights.OneLeader | src/vfs.rs:661-680 | in every reachable state a key in flight has exactly one live leader and an unfinished flight |
| Flights.DrainReleases | src/vfs.rs:654-658 | whatever its read returned, a leader's own steps remove exactly its keys and finish exactly its flights |
| Flights.NoLostWaiters | src/vfs.rs:465-487 | in every reachable state the flight a follower waits on is finished or finished by a live leader's remaining steps |
| Flights.FlightTable.ClaimRun | src/vfs.rs:627-643 | claims the longest prefix of the range that is neither cached nor in flight |
| Flights.FlightTable.Claim | src/vfs.rs:666-677 | exactly one caller per key becomes leader; others get its flight |
| Flights.FlightTable.Release | src/vfs.rs:654-658 | removes exactly the claimed keys and finishes exactly their flights |
| Feed.RootFeed.Push | src/changes.rs:130-176 | the bounded deque is always the newest part of the whole log, numbered without gaps |
| Feed.RootFeed.Scan | src/changes.rs:206-232 | one pass returns the foreign events after the cursor, or after what was evicted, up to a full page, and the cursor behind the last one looked at |
| Feed.PageFull | src/changes.rs:206-232 | a page holds as many foreign events as fit, or reaches the end of the log |
| Feed.ForeignExactly | src/changes.rs:212-226 | the foreign events are those of just the entries that are not the client's own, in the order of the log; client 0 owns none |
| Feed.AnsweredExactly | src/changes.rs:206-246 | a poll waits through just the batches of arrivals before which nothing retained behind its cursor is from another origin |
| Feed.RootFeed.Wait | src/changes.rs:178-247 | reset exactly for another epoch, a cursor from the future or one behind the oldest retained event; otherwise the page of the moment of the first wake-up with news, or of the deadline |
| Feed.SkipIsFilter | src/changes.rs:206-210 | skipping by arithmetic equals filtering by sequence number |
| Feed.ReplyComplete | src/changes.rs:206-232 | a reply carries everything foreign between its cursors if and only if nothing foreign was evicted past the cursor while it was blocked |
| Feed.OvertakenPollLosesEvent | src/changes.rs:206-232 | a client that opens an empty feed, polls, and is overtaken while blocked by one event more than the log holds, gets no reset and misses the first event |
| Feed.Follower.PollOnce | src/vfs.rs:2037-2062 | a lost reply changes nothing; an arriving one is a reset exactly if the cursor had been evicted when the poll was made, else it adds its page and moves the cursor to its end |
| Feed.Follower.Run | src/vfs.rs:2037-2062 | over any sequence of polls, pages, timeouts and lost replies, with events recorded during and between them, until a reset: exactly the foreign events since the first cursor, in order, none twice, if and only if no arriving reply was made past an evicted foreign event, in particular if the log stayed within the bound; the reset, the cursor and the progress of an arriving reply are exact |
| Coherence.StepKeepsInv | src/vfs.rs:1934-1957 | every change, announcement, poll (overtaken or not), application, drop, reset (with events recorded after its answer), racing fetch and eviction keeps the cache covered or notes the path as blind |
| Coherence.CacheCoherent | src/vfs.rs:686-695 | over every run from start-up: a cached byte that differs from the daemon's is covered by a change not yet applied here, or its path is blind after a gap write, a dropped event, an event evicted before a blocked poll was answered, or an unnoticed invalidation or reset |
| Coherence.CaughtUpMeansCurrent | src/vfs.rs:809-850 | when every change to a path has been applied and none went unnoticed its cached blocks are the daemon's |
| Coherence.ReplacementLiftsBlindness | src/vfs.rs:600-610 | the invalidation of a tree that no fetch has data from leaves just those of its paths blind that something above the tree makes blind |
| Coherence.ResetLiftsBlindness | src/vfs.rs:2016-2034 | after a reset just the paths are blind that a fetch with data is not cut off from |
| Coherence.PollIsReply | src/changes.rs:206-232 | whatever the feed answers, also to an overtaken cursor, is what a poll step receives; paths become blind exactly if the reply misses a foreign event |
| Coherence.TreeBumpsExactly | src/vfs.rs:600-610 | which generations a tree invalidation advances |
| Coherence.ResetBumpsExactly | src/vfs.rs:612-625 | a reset advances exactly the paths with a cached block |
| Coherence.TreeInvalidationMissesFetch | src/vfs.rs:600-610 | a run from start-up in which a racing fetch survives a replacement and stays stale with nothing left to come |
| Coherence.ResetMissesFetch | src/vfs.rs:2016-2034 | a run from start-up in which a racing fetch survives a reset and stays stale with nothing left to come |
| Coherence.OvertakenPollLeavesStaleBlock | src/changes.rs:206-232 | a run from start-up in which a blocked poll is overtaken and the block its lost event concerns stays stale with nothing left to come |
| Coherence.EventDropsBlockExactly | src/vfs.rs:1934-1957 | an event drops a cached block if and only if it concerns it, its path is not the root, no name on it matches the ignore list, and no local write is pending on the path or beneath it; all other blocks are kept |
| Coherence.PendingElsewhere | src/vfs.rs:1062-1072 | a write pending elsewhere does not keep an event from being applied |
| Paths.IgnoredExactly | src/vfs.rs:970-973 | a path is ignored exactly if one of its names is a pattern or extends one that ends in a star |
| Paths.PartsJoin | src/vfs.rs:970-973 | the names of a path hold no slash and, joined by slashes, are the path |
| Paths.UnderExactly | src/vfs.rs:1062-1072 | under a path are the path itself and what starts with it and a slash |
| Coherence.DroppedEventLeavesStaleBlock | src/vfs.rs:1934-1938 | a run from start-up in which a dropped event leaves a stale block with nothing left to come |
| Trees.Idempotent | src/daemon.rs:431-558 | every mutating request, successful or rejected, done twice in a row is done once and answered alike |
| Trees.MakeDirsTwice | src/daemon.rs:439-441 | creating a directory with its parents succeeds into a chain of directories, keeps everything else, and repeats as a no-op |
| Trees.MakeDirsIs | src/daemon.rs:439-441 | it succeeds if and only if nothing on the way is something else than a directory, then adds exactly the missing directories, and in a tree changes nothing if it fails |
| Trees.RenameMoves | src/daemon.rs:459-478 | a rename moves the whole subtree, leaves nothing behind, and touches nothing else but the directories it makes |
| Trees.RemoveRemoves | src/daemon.rs:543-558 | a removal leaves nothing at the path or below a directory, and all the rest |
| Trees.RenameTwice | src/daemon.rs:459-478 | a repeated rename finds its source gone and changes nothing |
| Trees.PerformRooted | src/daemon.rs:431-558 | every mutating request, successful or not, keeps everything inside a directory |
| Trees.TruncateLeaves | src/daemon.rs:431-451 | it succeeds exactly where the way is free and no other thing than a file is there; the file then has the wanted length, its old bytes and zeros behind them, its old mode and time, and nothing else changes |
| Trees.OpenLeaves | src/daemon.rs:659-668 | opening a file for writing creates it and the directories above it where they are missing, and nothing else |
| Trees.SymlinkLeaves | src/daemon.rs:498-518 | a link replaces what is there unless it is a directory, and nothing else changes |
| Trees.MetadataLeaves | src/daemon.rs:519-536 | just the given mode and time of just the named path change |
| Trees.MkdirLeaves | src/daemon.rs:537-542 | the missing directories are there afterwards, or something on the way is no directory |
| Trees.RenameSucceeds | src/daemon.rs:459-476 | exactly when a rename of something that is there succeeds |
| Trees.RenameOfNothing | src/daemon.rs:459-476 | a rename of what is not there succeeds wherever the target can be reached and is not below it, and makes nothing but the directories above the target |
| Trees.RemoveSucceeds | src/daemon.rs:543-558 | a removal fails exactly for a directory that is not named as one |
| Journal.Mount.Send | src/remote.rs:714-734 | however often an attempt is lost before or after it is performed, the effect is one performance exactly if any attempt arrives |
| Journal.Mount.Replay | src/vfs.rs:2169-2191 | performs every recorded operation in order and clears, or performs a prefix and keeps the journal |
| Journal.Mount.Mutate | src/vfs.rs:1008-1023 | which deaths and losses lead to which result, whatever the journal holds; acknowledged and rejected mean performed and cleared, failed means recorded behind what was there; with an empty journal, or once the request is answered, the tree stays what the settled and the recorded operations make of it |
| Journal.ResultExactly | src/vfs.rs:1008-1023 | the answer to a living process decides between acknowledged and rejected; without one, whether any of twelve replays is answered decides between acknowledged and failed |
| Journal.RejectedYetAcknowledgedExactly | src/vfs.rs:1008-1023 | a failed operation is acknowledged if and only if the process lives, no attempt is answered, and a replay gets through |
| Journal.RejectedYetAcknowledged | src/vfs.rs:2169-2191 | a mount that acknowledges an operation that failed and changed nothing |
| Journal.Mount.Restart | src/vfs.rs:801-807 | mounting replays the one recorded operation to exactly one performance in effect |
| Journal.Mount.Run | src/vfs.rs:992-1023 | over any sequence of mutations with crashes and failures: the operations whose callers were told of success are exactly those settled as such, in order; every result follows from the tree its operation met; the tree is what the settled operations made of it, each once, plus at most the recorded one; as long as nothing is disturbed every operation is settled, and acknowledged exactly if it succeeds |
| Journal.LeftoverHarmlessExactly | src/vfs.rs:984-1023 | an entry left behind by a failed recovery is harmless in all trees before all operations if and only if it can change no tree |
| Retry.Daemon.Once | src/daemon.rs:723-739 | with the marker nothing changes; without it the operation is performed and, if successful, marked |
| Retry.Daemon.HandleStream | src/daemon.rs:640-707 | with the marker nothing changes; without it exactly the frames before the length, the end or an overshoot are written, marked if complete, and announced as Streams describes |
| Retry.Daemon.WriteFrames | src/daemon.rs:668-702 | frame by frame equals one write of the frames taken; success exactly if they make up the length; the announcements are the specified ones |
| Streams.TakenExactly | src/daemon.rs:668-677 | which frames are written: all before the length is made up, they run out, or the next would overshoot |
| Streams.AnnouncementsTile | src/daemon.rs:679-702 | the announcements follow each other without gap or overlap, cover everything of a complete stream, and leave less than 4 MiB of a cut one out |
| Streams.CutAnnouncedExactly | src/daemon.rs:679-690 | of a client's stream cut after m frames the last m mod 4 are unannounced: everything is announced if and only if it is complete or m is a multiple of four |
| Announcing.StreamIsRun | src/daemon.rs:668-702 | a streamed write with any other steps between its frames and announcements is a run: its next step can always be taken, what it still has to announce is what it wrote since the last announcement, and in the end nothing is unannounced if and only if the announcements reach as far as the bytes |
| Announcing.TileOwing | src/daemon.rs:679-702 | an announcement covers every change since the last, also if others moved the end of the file meanwhile |
| Announcing.StreamWrites | src/daemon.rs:668-678 | if nobody else changes the file, it holds the frames written, in one piece |
| Retry.FrameWritten | src/daemon.rs:668-678 | the next frame behind the others is the write of the longer concatenation |
| Retry.Attempt | src/remote.rs:278-297 | a request or a stream cut anywhere adds at most one attempt, with the marker none; its bytes are whole frames from the start of the data, all of it if answered; answered, it tells whether the operation is complete |
| Retry.PerformOp | src/remote.rs:714-734 | Ok means the operation is complete, a server error that it is refused, and it gives up exactly when the attempts end without an answer; what is not lost is handled, and only what others asked for is added besides; a call amounts to one performance or none whatever others do, a write to one whatever they do beside it; alone, Ok means performed on the tree as it was |
| Retry.Client.WriteFileAt | src/remote.rs:278-297 | Ok means the tree is as if the write had been performed once, in one piece, among whatever others do beside it; alone, it is the tree before with the data written, the file and its directories made if missing |
| RequestLog.CompletedOnce | src/daemon.rs:723-739 | a completed operation was completed once and left no later trace |
| RequestLog.Rejected | src/daemon.rs:431-558 | a rejected request changes nothing, unless it renames a path to below itself |
| RequestLog.NeverIntoItself | src/daemon.rs:459-476 | renaming a directory into itself is always rejected |
| RequestLog.RejectedExactly | src/daemon.rs:459-476 | a rejected request changes the tree if and only if it renames a path to below itself and the directories above the target can be made and are missing |
| RequestLog.RejectedLeavesDirectory | src/daemon.rs:459-476 | a tree and a rejected rename that leaves a directory behind |
| RequestLog.RetriedCallIsOneCall | src/daemon.rs:723-739 | any log of attempts at a call among any requests of others: the tree is that of the log with only the completing attempt |
| CutWrites.RetriedWriteIsOneWrite | src/daemon.rs:650-706 | any log of cut attempts among requests of others beside the path: once complete, the tree is that of the log without the cut attempts; before, it differs only by part of the range, the file and directories above it |
| CutWrites.AlikeForeign | src/daemon.rs:431-558 | no request beside the path tells a tree with cut attempts from one without |
| CutWrites.RenamedAwayLeavesPart | src/daemon.rs:459-476 | a rename between two attempts carries off what a cut attempt wrote |
| Interference.BesideExactly | src/daemon.rs:650-706 | one request between a cut attempt and the one that goes through is absorbed in every tree if and only if it is beside the write |
| Interference.BesidePresentExactly | src/daemon.rs:650-706 | in every tree that has the file, if and only if it does not move the file away |
| Retry.StragglerExactly | src/daemon.rs:650-656 | after the marker the operation can still change the file if and only if an overlapping handler has bytes left |
| Retry.StragglerReached | src/daemon.rs:650-656 | a run from the start leads there for any data: of two attempts without a marker one is served before the other writes |
| Retry.MarkedStartsNothing | src/daemon.rs:650-656 | after the marker no attempt begins to write |
| Resume.Server.Handle | src/daemon.rs:357-398 | start keeps what has arrived, a chunk writes at its offset, offset reports the length |
| Resume.Server.HandleProper | src/daemon.rs:478-497 | the temporary file stays a prefix of the local file and only a full digest match replaces the target |
| Resume.Server.UploadFile | src/remote.rs:354-462 | the exact result for any losses, deaths and disk failures; Ok means the complete new content is published, and so does a server error unless a disk failed |
| Resume.UndisturbedOutcome | src/remote.rs:442-462 | undisturbed, the upload succeeds if and only if the first arriving attempt at the finishing request is answered, otherwise it ends in a server error |
| Resume.FinishReplyLost | src/daemon.rs:478-497 | an upload that loses only the reply to its finishing request: published, and reported as a server error |
| Resume.UploadByMany | src/remote.rs:354-462 | through any sequence of clients that die, the target is the old or the complete new content, every client ends as its losses and deaths decide from where the upload was, and the target is the new one once a client was left undisturbed |
| Resume.ChunkExtends | src/daemon.rs:371-386 | a chunk, whole or in part, extends a prefix to a prefix |
| Namespace.PrefixInterval | src/vfs.rs:444-457 | the keys that start with a prefix are contiguous in key order and begin at the prefix |
| Namespace.SubtreeKeys | src/vfs.rs:444-457 | the range scan returns exactly the path and the keys below it, in order |
| Namespace.Inodes.Ino | src/vfs.rs:405-414 | a known path keeps its number; a new one gets a number never used before |
| Namespace.Inodes.RemoveTree | src/vfs.rs:424-430 | removes exactly the subtree; the maps stay mutual inverses |
| Namespace.Inodes.Rename | src/vfs.rs:432-441 | for any two paths, related or not, the maps stay mutual inverses and become the relabelled map |
| Namespace.RunInodes | src/vfs.rs:386-442 | over any run the numbers are what the operations make of them, those handed out are consecutive, and the maps stay mutual inverses |
| Namespace.RelabelEntries | src/vfs.rs:1805-1826 | removing the target's keys and moving the source's one by one yields the relabelled map |
| Namespace.RelabelKeepsExactly | src/vfs.rs:1805-1826 | a moved key keeps its value under its new name if and only if it was not under the target; renaming onto itself forgets |
| Namespace.PrunedExactly | src/vfs.rs:424-430 | removing a subtree leaves all but the path and what begins with it and a slash |
| Namespace.Names.DirUpsert | src/vfs.rs:1043-1049 | the parent's cached listing gets the entry in place of any other of its name |
| Namespace.Names.DirRemove | src/vfs.rs:1051-1060 | the parent's cached listing loses the name and listings below the path are forgotten |
| Namespace.Names.Rename | src/vfs.rs:1803-1842 | for any two paths: inode numbers, metadata and listings are relabelled by the same map, then listings at and below the old path are forgotten and the parents' updated |
| Namespace.RenamedListings | src/vfs.rs:1836-1841 | the new name is listed exactly once with its metadata, the old name not at all, every other name as often as before |
| Namespace.RetainExactly | src/vfs.rs:1043-1060 | the entries of other names stay as they are, in their order |
| Namespace.JoinNames | src/vfs.rs:1043-1049 | joining adds one name to those of the parent |
| SyncPlan.SyncItems | src/snapshot.rs:82-123 | the plan has exactly the item each path calls for, in path order |
| SyncPlan.PlanExactly | src/snapshot.rs:82-123 | which item each path has: copies and deletions go from a side that changed to the one that did not, deletions only if asked for, conflicts exactly where all three snapshots differ |
| SyncPlan.SyncKeepsFiles | src/snapshot.rs:104-119 | without deletion asked for no file is removed, and a side that changed at a path keeps what it has there |
| SyncPlan.Workspace.ApplyPlan | src/sync.rs:1612-1644 | items are applied in list order, each to the sides as they are by then, up to the first that has nothing to copy |
| SyncPlan.DeleteFiles | src/sync.rs:1704-1712 | a deletion removes the path, and what is below it if it is a directory, and no other file |
| SyncPlan.DeleteExactly | src/sync.rs:1704-1712 | of all entries a deletion takes just the path and, of a directory, what is below it |
| SyncPlan.SyncAgrees | src/sync.rs:540-581 | where nothing survives below a deleted path the plan succeeds in any order and both sides end with the changed side's file, or its absence, at every path |
| SyncPlan.SyncSucceedsExactly | src/sync.rs:1612-1644 | in the order of the paths a plan without conflicts succeeds if and only if nothing survives below a path that one side deleted |
| SyncPlan.NewFileIsLost | src/snapshot.rs:104-118 | three snapshots without a conflict after whose sync a new file is on neither side |
| SyncPlan.NextPlan | src/sync.rs:1530-1560 | after a sync that succeeded the next plan has no file in it, and is empty if and only if the remote side has no directory the local side lacks |
| SyncPlan.NewRemoteDirectoryIsDeleted | src/snapshot.rs:104-118 | a new remote directory without files is left alone by one sync and deleted by the next |
| NfsDir.ReadDir | src/nfsmount.rs:274-303 | a page has the entries after the cookie in ascending order, leaves out only later ones, and says end exactly when none remain |
| NfsDir.BuildListing | src/vfs.rs:1285-1301 | the listing looks every name up in turn; known entries keep their numbers and no two entries of a listing share one |
| NfsDir.Enumerate | src/nfsmount.rs:274-303 | across lookups, removals and renames anywhere between pages: cookies strictly increase, every page but the last brings something new, only listed names are returned, and every entry present throughout is returned exactly once |
| NfsDir.ProgressExactly | src/nfsmount.rs:284-300 | an empty page that is not the last occurs only for page size zero |
| ReadAhead.Reader.Advance | src/vfs.rs:1416-1431 | the window stays within the maximum over any sequence of reads, and updating it aborts exactly for a maximum of one |
| ReadAhead.Reader.Schedule | src/vfs.rs:1405-1454 | tiles start behind the block that holds the last byte read, reach the horizon, never pass the last block; a read within two blocks of where the last one ended doubles the window up to the maximum, any other resets it |
| ReadAhead.ScheduleLoop | src/vfs.rs:1438-1454 | the loop ends; its tiles are consecutive, non-empty and each within one aligned batch, and those to be fetched are started in order |
| ReadAhead.TilingCovers | src/vfs.rs:1438-1454 | tiles cover exactly the blocks from first to last and do not overlap |
| ReadAhead.WantedExactly | src/vfs.rs:1445-1453 | a tile is started if and only if it has a missing block and is not queued |

## Left out

- Premises of the data path: a file is written through one handle, as over NFS (src/nfsmount.rs:19, src/nfsmount.rs:202); emptying a handle's slot and admitting what was in it count as one step, so no step observes the moment between the two; a path is not renamed between buffering and dispatch.
- Uploads.FlushedMeansUploaded: an upload is transferred any number of times while it is in flight and not after; an attempt that was given up and is still being served when its upload has left the set (Retry.StragglerExactly) is not part of Uploads, Mount and Vfs, so that flushed data and what Vfs.Vfs.Read returns rest on there being none.
- Uploads.Write: the order of writes through different handles to one range is not promised by the code and not modelled.
- Mount.StepKeepsInv: a handle with a failed upload or a write past the block holding an end is exempt from the claim about cached blocks from then on; no other client writes; other clients are in Coherence, where local writes are announced changes without a buffer.
- Vfs.Vfs.AwaitAdmission: while the loop waits uploads end in any order and with any result, but no other thread admits new ones; that the wait ends rests on this.
- Vfs.Vfs.FetchRun: which blocks the cache evicts as it takes one is a parameter (what it does evict is in BlockStore); runs one thread at a time; claims and waiting of concurrent fetches are in Flights, racing generations in Mount and Coherence.
- Vfs.Vfs.Read: nothing is claimed of a file whose size was unknown when it was written, of a handle with a failed upload or with a write past the block holding an end, nor about sizes changed by other clients.
- Coherence.StepKeepsInv: announcements that the operating system's file watcher adds are allowed as spurious changes; the watcher and its echo suppression are not modelled; neither is a daemon that starts again with an empty log.
- Feed.RootFeed.Wait: the live flag, the wake-up clock and starting the watcher.
- Flights.OneLeader: the outcome of a follower's own second read after waking.
- Trees.Perform: requests for the served root itself (renaming or removing it); symbolic links are leaves, so an operation through a link is rejected here; permissions, modification times set by the kernel, hard links and full disks.
- Journal.Mount.Mutate: no other writer meanwhile; behind a leftover entry the tree is described only if the request is answered; all entries of one replay meet the same fates; mode bits of create and mkdir under recovery, which are not journaled; an unreadable journal line; failing local disks; the WriteAt and WriteBlob entries.
- Journal.Mount.Run: one mutation at a time, and the mount is started again whenever something is left in the journal.
- Retry.Daemon.Once: a daemon that dies between performing an operation and marking it; markers pruned after a day; bytes sent by other means than the streamed write.
- Retry.Daemon.HandleStream: one handler runs at a time; what overlapping handlers can do is in StragglerExactly.
- CutWrites.RetriedWriteIsOneWrite: requests of others that are not beside the write; which are is exact for one request (Interference.BesideExactly), not for combinations of several.
- Resume.Server.Handle: SHA-256 is represented by the hashed bytes; the local file does not change during an upload; upload ids are unique; the mode set at the end.
- Namespace.RenamedListings: paths that contain one another, whose rename the daemon rejects, and a path renamed onto itself, which is forgotten (RelabelKeepsExactly).
- Namespace.Names.Rename: extended attributes, sidecar files, ignored names, and the time stamps of cached listings.
- SyncPlan.SyncAgrees: needs deletion on, no conflict and no path changing between file and directory; symbolic links, modification times and `push`/`pull` alone.
- SyncPlan.Workspace.ApplyPlan: an upload or download is an exact copy and fails only where there is nothing to copy; the temporary file that a failed download leaves.
- NfsDir.Enumerate: entries renamed within the directory between pages are not tracked under their new names.
- ReadAhead.Reader.Schedule: the prefetch threads that work the batches off; arithmetic near the largest 64-bit number.
- Encryption, tunnels and sockets: a connection is a reliable ordered channel that may break anywhere.
- FUSE and macOS glue, mount commands, error number mapping, command line, configuration, remote builds, search, statfs and the folder backend.
- Wall-clock behaviour: cache lifetimes, idle delays and back-off are nondeterministic choices.
