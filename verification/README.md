# CrossSync: a verified model of the sync core

CrossSync keeps folders on several devices identical without a server. This
project models the parts of it where a mistake loses or resurrects data, and
proves what those parts are for:

* **Versions and winners** (`Versions`, `Entries`, `GlobalModel`): version
  vectors, the tie-breaker for concurrent edits and the choice of the winning
  entry among any number of peer views.
* **Join, overwrite and convergence** (`Overwrite.dfy` with the modules
  `Overwrite` and `Joining`, `ConflictNames`, `Converge`, `SyncRound`): joining
  the vectors of identical copies, preserving a local copy before it is
  replaced, and one full round between two devices.
* **Incremental pending lists** (`Pending`, `PendingEngine`): a cache fed by a
  dirty set that must answer like a walk over the whole index.
* **Index exchange** (`IndexFrames`, `Exchange`, `Sessions`): full and delta sends
  in frames, markers and session ids, connections that break at any frame, peers
  that restart, and the pruning of tombstones.
* **Block pulls** (`Hashing`, `PullFile`, `PullPlan`, `PullBatch`,
  `PullRunner`): streaming hashes, run planning, resume, local reuse, and
  responses in any order under a byte budget.
* **Scanner gates** (`ScanGates`, `Renames`, `ScanRunner`): the stability gate,
  the deletion gate, scoped passes and rename pairing over whole scan histories.
* **Directory tombstones** (`Names`, `DirState`, `DirDelete`, `DirHold`,
  `DirFamilies`, `DirFolder`): the recursive application of a directory deletion to a mutable
  index and disk, with conflict copies, archives, the hold area and failures.

The index is a map from name to row, a disk a map from path to bytes (or a set
of paths), and SHA-256 the free constructor `Sha256(of)`, hence injective.
Clocks, stats, hash results, refusals of the file system and answers of the
network are parameters. Objects that the program mutates are classes
(`Engine`, `Receiver`, `Pull`, `Runner`, `Folder`, `Scanner`, `Node`) whose
methods equal a function on values; the theorems are lemmas about that
function. Verify with `dafny verify dfyconfig.toml`.

## Where the code differs from what it is meant to do

Each of these is stated with the exact condition or with a concrete witness.

* A round between two devices converges unless a live file loses a concurrent
  conflict against a deletion while conflicts are kept as copies (the file is
  moved aside, the second preservation inside `applyDeletion` fails, and the row
  stays live), or two contents claim one version: `Converge.RoundConverges` is
  an if-and-only-if and `Converge.RoundCanStick` a witness.
* A directory can die over a live row. With the hold area this takes a tombstone
  that is not typed as a directory (every tombstone `applyDeletion` writes) above
  a row that cannot be removed on its turn: `DirHold.HeldDirectoryExactly` says
  exactly when, from the index and the disk before the deletion. Without the hold
  area it takes a conflict copy under a name that a peer has buried:
  `DirDelete.DirectoryDiesAlone` shows that nothing else can do it,
  `DirHold.PlainDirectoryExactly` is exact where no copy is made, and
  `DirFamilies.RenameSwallowsRow` on a family where one is.
  `DirFamilies.HoldCanSwallow` and `DirFamilies.RenameCanSwallow` are witnesses. A
  tombstone not typed as a directory ignores what lies beneath it altogether
  (`DirDelete.FileTombstoneIgnoresBeneath`).
* A conflict copy made while a directory is deleted can be destroyed by the same
  pass, because `applyDeletion` does not look at the winner again
  (`DirFamilies.CollisionDestroysCopy`, `DirFamilies.CollisionHappens`); in general
  this takes a tombstone that a peer holds under its name (`DirDelete.LoserIsKept`).
* A conflict copy overwrites an earlier one of the same path, second and device
  (`Converge.EarlierCopyIsOverwritten`).
* A scan cancelled after its deletion stage forgets the deletions that were due
  (`ScanGates.LateCancelForgets`, `ScanGates.LateCancelHappens`).
* The doc comment of `detectRenames` promises pairing only for one-to-one
  groups. The code checks the new side only: of two vanished rows with the same
  content the first in the listing moves and the second is deleted
  (`Renames.SecondHolderIsDeleted`).
* A deletion whose new half is still settling is deferred only if the deleted
  row has block hashes; an empty file goes out early
  (`ScanGates.UnhashedDeletionIsNotDeferred`, `ScanGates.EmptyFileGoesOutEarly`).
* The dirty set ignores the empty name, so the cached lists agree with the walk
  on every other name (`PendingEngine.EmptyNameEscapes`).
* `BlockSizeForSize` follows its rule exactly up to 2^63 - 2^23 bytes; above
  that an int64 sum overflows (`Hashing.BlockSizeForSize`).
* `ConflictOrigin` undoes `conflictName` except for a dot file in the folder root
  and for names whose extension is itself a conflict marker
  (`ConflictNames.OriginRoundTrip`).
* A counter at 2^64 - 1 wraps, and the bumped vector is then below the old one
  (`Versions.BumpIsAbove`).
* With three or more candidates the winner can depend on the visit order
  (`GlobalModel.VisitOrderCanMatter`); with two devices they agree exactly when
  the entries do not contradict each other (`GlobalModel.TwoDevicesAgree`).
* A marker that cannot be read does not hold pruning back
  (`Exchange.UnreadableMarkerIsPassedOver`).

## Model

| member | source | states |
|---|---|---|
| Versions.CompareKeys | internal/version/version.go:59-90 | the two flags collected over the union of keys classify the pointwise order of the vectors |
| Versions.MergeKeys | internal/version/version.go:43-54 | the loop computes the keywise maximum, keeping absent and zero counters apart as the code does |
| Versions.CloneKeys | internal/version/version.go:19-28 | the copy equals the original |
| Versions.MergeIsLeastUpperBound | internal/version/version.go:43-54 | merge is above both vectors and below every vector above both |
| Versions.BumpIsAbove | internal/version/version.go:31-39 | a bump is strictly above exactly when the counter does not wrap, and strictly below when it does |
| Versions.MergeIsStable | internal/version/version.go:43-54 | merging in either order, or with an already merged partner, lands on the same point of the order |
| Versions.EqualIsCongruent | internal/version/version.go:59-90 | vectors that compare equal stand in the same relation to every third vector |
| Entries.CanonicalVersionInjective | internal/sync/engine.go:2140-2154 | the rendered tie-breaker text identifies the vector |
| Entries.ExactlyOneWins | internal/sync/engine.go:2122-2138 | of two entries with different vectors exactly one is newer-or-greater |
| Entries.LaterTimeWins | internal/sync/engine.go:2129-2138 | of two entries whose times fit an int64 of nanoseconds the later one wins, down to the nanosecond; the vector text decides only between equal times |
| GlobalModel.RenderVersion | internal/sync/engine.go:2140-2154 | the loop over sorted keys builds the canonical text |
| GlobalModel.GlobalFrom | internal/sync/engine.go:784-834 | one pass over the peer views leaves the winner of the fold, in every branch; the second result says it is the local entry, which holds exactly when no view's entry replaces it |
| GlobalModel.TwoDevicesAgree | internal/sync/engine.go:784-834 | two devices pick the same winner if and only if they do not hold two different entries of one version, liveness and size |
| GlobalModel.WinnerOfTwo | internal/sync/engine.go:784-834 | a later version wins, between equal versions a deletion and then the larger size, between concurrent ones the later time |
| GlobalModel.DominantWins | internal/sync/engine.go:784-834 | an entry that has seen every other entry of its name wins among any number of views, in every order and whatever the dates |
| GlobalModel.LaterPrevails | internal/sync/engine.go:784-834 | an entry with a later version stays the winner against any number of devices that hold the old version or an older one, and each of them takes it over |
| GlobalModel.WinnerIsTop | internal/sync/engine.go:784-834 | if later versions carry later stamps and one version means one entry, the winner beats every other candidate |
| GlobalModel.WinnerIgnoresVisitOrder | internal/sync/engine.go:784-834 | under the same hypotheses the winner does not depend on the order of the views |
| GlobalModel.VisitOrderCanMatter | internal/sync/engine.go:784-834 | a witness with three candidates whose winner depends on the order |
| ConflictNames.OriginRoundTrip | internal/sync/engine.go:2173-2194 | exactly when the origin of a conflict name is the original name |
| ConflictNames.OriginOfParts | internal/sync/engine.go:2187-2194 | what ConflictOrigin answers for any base, tag and extension put together |
| ConflictNames.CopyIsElsewhere | internal/sync/engine.go:2173-2178 | a conflict copy never lands on the path it came from |
| Joining.JoinEntry | internal/sync/engine.go:960-1003 | the loop with its veto computes the joined entry, or none |
| Joining.JoinIdentical | internal/sync/engine.go:936-1012 | rewritten are exactly the live, valid, settled rows that are directories or match a stat and that a join changes, each to its joined entry |
| Joining.MergedIsLeastUpperBound | internal/sync/engine.go:960-987 | the joined vector is the least above the local vector and every matching view's |
| Joining.JoinExactly | internal/sync/engine.go:960-1003 | a join happens exactly when no peer has the path deleted or invalid and some peer provably has the bytes at a version not yet seen; it changes nothing but the vector, to the least above all of theirs |
| Joining.JoinConverges | internal/sync/engine.go:936-1012 | two devices with identical bytes and any vectors reach equal vectors, against the partner's old or joined entry, and a further join changes nothing |
| Joining.EditAfterJoinIsFastForward | internal/sync/engine.go:1404-1437 | after both joined, the partner against the old or the joined entry, a one-sided edit strictly dominates, wins, and is planned without a conflict copy under every policy |
| Overwrite.PlanPreserves | internal/sync/engine.go:1404-1437 | there is a plan unless no device knows the name; a copy that wins itself is not moved aside; archive and conflict copy are never both planned; a loser of a real conflict is kept by one of them except under the versioning policy with versioning off |
| Pending.MembershipDependsOnName | internal/sync/pending_incremental.go:106-163 | whether a name is pulled or uploaded depends on what index, views and in-flight set say about that name alone |
| Pending.WalkFindsAll | internal/sync/engine.go:855-892 | the walk over index and views meets every name that is wanted |
| Pending.PullCases | internal/sync/pending_incremental.go:208-264 | pull work case by case, over the winner of all views, complete or not: direction, in-flight, gate and type of the first holder for names not owned, tombstones, deletions, later and concurrent versions |
| Pending.UploadIsWanted | internal/sync/pending_incremental.go:273-303 | upload work are exactly the live, settled names for which a peer with a complete view lacks the name or has an older version, and by its own pull decision wants ours |
| Pending.AdoptingSettles | internal/sync/pending_incremental.go:211-264 | with coherent entries a name whose winner has been adopted is not wanted again |
| PendingEngine.Engine.SetPeerIndex | internal/sync/engine.go:693-729 | the replaced or updated view; dirty are exactly the names sent and, on a replacement, those the peer had before; a new view makes everything dirty |
| PendingEngine.Engine.SetPeerIndexAppend | internal/sync/engine.go:748-761 | the extended view; dirty are exactly the names sent, and everything if the view is new |
| PendingEngine.WrittenAt | internal/sync/engine.go:693-761 | of the entries sent for one name the last one is what the view holds |
| PendingEngine.Engine.SetInFlight | internal/sync/engine.go:251-278 | the new in-flight set; dirty are exactly the names that entered or left it |
| PendingEngine.Engine.BeginExchange | internal/sync/peerview_exchange.go:27-41 | the view becomes partial, everything is dirty |
| PendingEngine.Engine.EndExchange | internal/sync/peerview_exchange.go:45-54 | the view becomes authoritative, everything is dirty |
| PendingEngine.Engine.DecideUpload | internal/sync/pending_incremental.go:273-296 | the upload decision against the complete views only |
| PendingEngine.Engine.Rebuild | internal/sync/pending_incremental.go:146-163 | the lists are the full walk's, and the dirty set taken with them is spent |
| PendingEngine.Engine.UpdateNames | internal/sync/pending_incremental.go:124-143 | re-deciding the dirty names makes the cached sets right again |
| PendingEngine.Engine.EnsurePending | internal/sync/pending_incremental.go:106-144 | whichever branch is taken, the lists answer like the full walk |
| PendingEngine.Engine.Run | internal/sync/pending_incremental.go:106-163 | after any sequence of writes, view replacements, appends, removals, exchange steps and in-flight updates the lists equal the walk's on every non-empty name, and they are exactly the walk's lists if neither the start nor any operation names the empty path |
| PendingEngine.FreshRun | internal/sync/pending_incremental.go:106-163 | from an empty engine, operations that do not name the empty path leave exactly the walk's lists |
| PendingEngine.EmptyNameEscapes | internal/sync/pending_incremental.go:45-55 | a run in which the empty name is wanted but not listed |
| IndexFrames.CutFrames | internal/node/session.go:296-314 | the loop cuts a listing into the frames of the chunk size, the last one final |
| IndexFrames.FramesAreTheListing | internal/node/session.go:296-314 | the frames carry the listing in order, only the last is final, none exceeds the chunk |
| IndexFrames.Receiver.RecvFull | internal/node/session.go:347-385 | reads until every shared folder has had its final frame and not a message further; each folder then holds exactly what its own frames up to the final one give, whatever is interleaved; it completes exactly if all final frames arrive before a close, and nothing after a close is read |
| IndexFrames.FullSendRebuilds | internal/node/session.go:388-426 | for every chunk size a full send rebuilds exactly the listed entries whatever was held before, and the view is partial at every point before the final frame |
| IndexFrames.ListingIsTheView | internal/node/codec.go:9-40 | a listing of an index is rebuilt name for name, up to the local sequence |
| Exchange.StepKeepsInv | internal/node/session.go:240-341 | every protocol step keeps the invariant that ties rows, markers, frames on the wire and views together |
| Exchange.LiveMarkerMeansKnown | internal/node/session.go:240-341 | in every run, a marker under the receiver's live session id means that every row up to it is in the receiver's view with its version, deleted flag and blocks |
| Exchange.DeltaLeavesFullKnowledge | internal/node/session.go:255-341 | in every run, once a session's last frame is in, delta or full, the view is complete up to the captured sequence |
| Exchange.NoDeltaIntoPartialView | internal/node/session.go:388-426 | in every run no delta frame meets a missing or truncated view, and a full send mid-stream has its view marked partial |
| Sessions.SessionSends | internal/node/session.go:255-341 | in every run, a session sends exactly the rows written since the capture of the last completed session with the same process of the peer, and the whole index if there was none |
| Sessions.NothingNewNothingSent | internal/node/session.go:326-341 | in every run, when a session completes, nothing was written since its capture and the same process comes back, the next session sends nothing |
| Sessions.WrittenIsSent | internal/index/index.go:679-695 | in every run, a row written before a session starts is sent in it with a sequence above all others |
| Sessions.RestartedGetsAll | internal/node/session.go:229-290 | in every run, a peer whose process restarted is sent the whole index in its next session, and one without a session id in every later one |
| Sessions.QuietChanges | internal/index/index.go:368-465 | a stat-only update changes exactly that stat and a hard delete removes exactly that row; neither uses up a sequence number |
| Sessions.PushIsLearned | internal/node/session.go:718-732 | a row pushed on a live connection is what the peer's view holds once everything on the wire has arrived |
| Sessions.BrokenIsOver | internal/node/session.go:326-341 | after a break nothing of the session arrives any more, it is not recorded, and the peers can greet again |
| Exchange.ComputeFloor | internal/node/node.go:1577-1599 | the loop with its early return computes the floor |
| Exchange.FloorIsLeast | internal/node/node.go:1577-1599 | the floor is attained by a marker and below every marker read |
| Exchange.PrunedWasCarried | internal/node/node.go:1577-1599 | in every run, a pruned row is a tombstone that a completed session carried to each configured sharing peer whose marker was readable |
| Sessions.PrunesExactly | internal/index/index.go:801-818 | in every run, pruning drops exactly the tombstones at or below the captured sequence of the last completed session of every configured sharing peer whose marker can be read, if there is one and these sequences are positive; nothing else changes |
| Exchange.NothingPrunedWithoutMarker | internal/index/index.go:801-818 | nothing is pruned while such a peer is known to lack a marker |
| Exchange.UnreadableMarkerIsPassedOver | internal/node/node.go:1577-1599 | a run of one full session after which a tombstone is pruned of which a peer with an unreadable marker never heard |
| Hashing.BlockHashes | internal/hash/hash.go:53-92 | for every way the reader splits its data the result is the content cut at the block size, each piece hashed |
| Hashing.BlockSizeForSize | internal/hash/hash.go:21-34 | int64 arithmetic; right if and only if the size is at most 2^63 - 2^23 |
| Hashing.BestIsSmallest | internal/hash/hash.go:21-34 | the rule gives the smallest power of two from 128 KiB to 16 MiB with at most 2000 blocks, or 16 MiB |
| Hashing.CutAt | internal/sync/engine.go:2156-2170 | block i is the hash of the range that blockSizeAt gives |
| Hashing.CutInjective | internal/hash/hash.go:53-92 | equal block lists at one block size mean equal content |
| PullFile.Pull.StartPull | internal/sync/engine.go:1563-1609 | a staged temp of the right size resumes with a block marked exactly if it and all blocks before it are the peer's content; anything else starts over with nothing marked |
| PullFile.Pull.NeedBlocks | internal/sync/engine.go:1769-1783 | the loop lists the unwritten blocks |
| PullFile.NeedsAreUnwritten | internal/sync/engine.go:1769-1783 | every need is an unwritten block with its offset, size and hash, in ascending order |
| PullFile.UnwrittenIsNeeded | internal/sync/engine.go:1769-1783 | every unwritten block is among the needs |
| PullFile.Pull.FillFromLocalCopy | internal/sync/engine.go:1652-1692 | exactly the needs before the first one the donor cannot serve are written, soundly |
| PullFile.Pull.FillBlocksFromLocal | internal/sync/block_reuse.go:187-278 | exactly the needed blocks that some local read serves are written, soundly |
| PullFile.Pull.ReceiveBlock | internal/sync/engine.go:1786-1799 | a block is written exactly if its hash matches, and the pull stays sound |
| PullFile.Pull.ReceiveBlocks | internal/sync/pull_run.go:26-61 | the loop verifies the whole run before one write; any defect leaves the pull as it was |
| PullFile.ReceiveRunIsSound | internal/sync/pull_run.go:26-61 | an accepted run keeps every marked block equal to the peer's block |
| PullFile.RunMeaning | internal/sync/pull_run.go:26-61 | data is accepted exactly if it is the peer's content from the first block to some later block boundary, and then marks exactly the blocks in between |
| PullFile.CompleteIsContent | internal/sync/engine.go:1803-1818 | a sound pull with every block marked is the peer's content |
| PullFile.Pull.Finish | internal/sync/engine.go:1803-1818 | commits exactly when no block is missing, and then the peer's content |
| PullPlan.PlanPulls | internal/node/pull_batch.go:77-99 | the needs in order, partitioned into contiguous byte ranges within the caps (single blocks aside), cut only where forced |
| PullPlan.PlanIsTight | internal/node/pull_batch.go:77-99 | a run of several blocks is one byte range within 16 MiB and the configured size, and ends because the next needed block does not follow or would not fit |
| PullPlan.PlanCoversNeeds | internal/node/pull_batch.go:77-99 | every run belongs to the entry and every unwritten block is in a run |
| PullPlan.AcceptedRunMarksItsBlocks | internal/sync/pull_run.go:26-61 | an accepted answer to a planned run marks exactly that run's blocks and is the peer's content of exactly its range |
| PullBatch.HandleKeepsInv | internal/node/pull_batch.go:426-508 | every response, whatever its id, code, data and order, keeps the batch invariant |
| PullBatch.AdmitKeepsInv | internal/node/pull_batch.go:323-399 | starting a job keeps it |
| PullBatch.BatchIsBounded | internal/node/pull_batch.go:188-254 | at most K live jobs under distinct names, and bytes owed never above the larger of the budget and one run |
| PullBatch.OnlyTheRequesterIsWritten | internal/node/pull_batch.go:426-508 | a response changes a pull only if it answers an outstanding request of that live job, and then exactly the requested run is written |
| PullBatch.RepeatedAnswerIsDropped | internal/node/pull_batch.go:426-441 | a second response with an answered id changes nothing |
| PullBatch.AnsweredInFullIsWritten | internal/node/pull_batch.go:478-508 | when the received count reaches the total every block is written |
| PullBatch.LastAnswerCommits | internal/node/pull_batch.go:510-521 | the completing answer commits the peer's content |
| PullBatch.RightAnswerAsksNext | internal/node/pull_batch.go:404-508 | the peer's bytes of a run that is not the last are written, the file stays in the batch, and its next run is outstanding if there is one and the budget has room |
| PullBatch.WrongAnswerAbandons | internal/node/pull_batch.go:426-530 | an error, or anything but the peer's bytes of the run, takes the file out of the batch and changes nothing else |
| PullBatch.AdmitFillsWindow | internal/node/pull_batch.go:373-423 | a file is admitted with its first runs outstanding, up to the window, the end of the plan or the budget |
| PullRunner.Runner.StartJob | internal/node/pull_batch.go:323-399 | admission with its first window, or an immediate commit, skipping names already in flight |
| PullRunner.Runner.AbortAll | internal/node/pull_batch.go:543-549 | every live job ends, nothing is written or committed |
| PullRunner.Runner.Drive | internal/node/pull_batch.go:188-254 | every run of offers, responses and failures keeps the bounds, and whatever was committed is the peer's content |
| ScanGates.CountIsBacked | internal/scanner/scanner.go:657-742 | over any history a missing-table count is at most the number of latest covering passes that missed the path |
| ScanGates.DeletionIsConfirmed | internal/scanner/scanner.go:657-742 | over any history of full and scoped passes a deletion is reported only after deletionScans consecutive covering passes missed the path |
| ScanGates.DeletionIsReported | internal/scanner/scanner.go:657-759 | over any history a missed path is reported exactly when the pass completes, this is its deletionScans-th consecutive unexplained miss, and no file that is in the settling table, drifts or is held by this pass has the size and time of a hashed missed file at or under it; the stored count and time are those of the streak |
| ScanGates.LateCancelForgets | internal/scanner/scanner.go:609-620 | a missed path is neither reported nor remembered exactly when its deletion was due in a pass cancelled after the deletion stage; its count then starts over |
| ScanGates.LateCancelHappens | internal/scanner/scanner.go:609-620 | a history of two passes that forgets a confirmed deletion |
| ScanGates.SightingResets | internal/index/index.go:906-955 | a covering pass that sees a path forgets it; a pass that does not cover it or ends early keeps its count |
| ScanGates.RenameHalvesStayTogether | internal/scanner/scanner.go:693-759 | while a file that is in the settling table, drifts or is held by the pass has the size and time of a hashed missed file at or under a path, the path stays in the table with its full count; otherwise it goes out exactly when counted |
| ScanGates.UnhashedDeletionIsNotDeferred | internal/scanner/scanner.go:693-742 | a file without block hashes is reported exactly when its count is reached |
| ScanGates.EmptyFileGoesOutEarly | internal/scanner/scanner.go:693-742 | a history of two passes over the rename of an empty file: the deletion is reported by a pass that finds, and still holds, a file with its size and mtime |
| ScanGates.RenameIsDeferred | internal/scanner/scanner.go:693-742 | the same history for a hashed file: the deletion has its count, is not reported, and stays in the table |
| ScanGates.WalkDecides | internal/scanner/scanner.go:472-541 | a forced pass hashes every file; any other leaves a file with its row's size and time alone and, with the gate off, hashes every other; only held and drifted files keep a settling row |
| ScanGates.DriftRestarts | internal/scanner/scanner.go:585-602 | a file whose stat moved while it was hashed starts a new count with that stat and keeps the window it was released from |
| ScanGates.ScopeIsClosed | internal/scanner/scanner.go:362-374 | a scope covers its paths and everything under them, and nothing else |
| ScanGates.HeldIsSettling | internal/scanner/scanner.go:561-637 | over any history the published in-flight set is the settling table |
| ScanGates.SettleRowIsBacked | internal/scanner/scanner.go:503-541 | over any history a settling row's count and start time come from the unbroken run of passes that saw its stat |
| ScanGates.ReleaseIsSettled | internal/scanner/scanner.go:503-541 | with the gate on, a file is hashed only after settleScans consecutive recorded covering passes saw exactly its stat; they form a run whose first pass lies settleSeconds back unless the file drifted in that first pass |
| ScanGates.QuietFileIsReleased | internal/scanner/scanner.go:503-541 | a file that settleScans passes in a row find unchanged, over at least settleSeconds, is queued for hashing by one of them, whatever the table held |
| ScanGates.ScopedPassStaysInScope | internal/scanner/scanner.go:561-637 | a scoped pass reports deletions only inside its scope and leaves every settling row, missing row and in-flight entry outside unchanged |
| Renames.DetectRenames | internal/scanner/scanner.go:783-861 | the loop with its claimed set reports, row by row, what the order-free definition says, and drops exactly the added files that became targets |
| Renames.UnclaimedIsFirst | internal/scanner/scanner.go:797-843 | deciding by "not yet claimed" is deciding by "first movable row of that content" |
| Renames.MovesAreOneToOne | internal/scanner/scanner.go:797-843 | no two moves share a target |
| Renames.MoveKeepsContent | internal/scanner/scanner.go:812-843 | a move carries its old path's content from the only added file that has it; out of scope it also needs a stat that says gone |
| Renames.EveryChangeSurvives | internal/scanner/scanner.go:850-861 | every change of the pass is still reported, or is an added file reported as a move's target |
| Renames.DeletionsAreUnpaired | internal/scanner/scanner.go:797-848 | reported as deleted are exactly the vanished, owned, in-scope rows that no move explains |
| Renames.SecondHolderIsDeleted | internal/scanner/scanner.go:762-774 | of two vanished rows with the content of the one added file the later is deleted |
| Renames.MoveIsReported | internal/scanner/scanner.go:797-861 | an unexplained hashed row (in scope and owned, or out of scope with a stat, gone, and cross-scope pairing on) whose content exactly one new file has, and no earlier such row, is reported as one rename and neither as deleted nor as added |
| Renames.ReportedIsMove | internal/scanner/scanner.go:797-843 | every in-gate rename that is added is one of those |
| Renames.LossIsReported | internal/scanner/scanner.go:797-848 | a row is reported deleted exactly if it vanished in scope, is owned, is no half of a move and did not leave the gate |
| Renames.GateMoveIsReported | internal/scanner/scanner.go:829-845 | a vanished row whose bytes are found outside the gate is reported as moved there with its content and history |
| ScanRunner.Walk | internal/scanner/scanner.go:472-541 | the walk splits the files met into unchanged, held back and queued |
| ScanRunner.MarkUpwards | internal/scanner/scanner.go:706-713 | cutting at the last slash visits exactly the path and the directories above it |
| ScanRunner.ConfirmDeletions | internal/scanner/scanner.go:657-742 | the reported changes and the stored missing table are those of the gate |
| ScanRunner.PairedIsSane | internal/scanner/scanner.go:609-615 | what rename detection leaves as deletions are live, unseen, in-scope rows, so every pass fits the history theorems |
| ScanRunner.ConfirmedAreReported | internal/scanner/scanner.go:715-742 | the deletions a complete pass returns are exactly the reported ones |
| ScanRunner.OthersPass | internal/scanner/scanner.go:715-742 | every change that is not a deletion passes the gate |
| ScanRunner.Scanner.Scan | internal/scanner/scanner.go:324-640 | one pass, cancelled early, late or not at all, moves the three tables by the step of the history model |
| Names.RangeIsSubtree | internal/index/index.go:632-653 | the range from "dir/" to "dir0" holds exactly the names under dir |
| Names.ParentSortsFirst | internal/index/index.go:632-653 | a directory sorts before everything under it |
| DirDelete.ChildrenFirst | internal/index/index.go:632-653 | the listing is exactly the live subtree, children before parents |
| DirFolder.Classify | internal/sync/engine.go:1906-1929 | the loop sorts the live rows beneath into those that may go and the number that must stay |
| DirFolder.Folder.DeleteDeletedChildren | internal/sync/engine.go:1906-1940 | terminates and equals the recursive pass: decide on all rows first, delete deepest first, count every row that stays or whose deletion fails |
| DirDelete.ApplyKeeps | internal/sync/engine.go:1942-2021 | whatever the tree, every applyDeletion, conflict copies, archives, hold area and failures included, keeps the invariant that ties index, disk, moved paths and copies to the start |
| DirDelete.OnlyTheDoomedDie | internal/sync/engine.go:1906-2021 | beneath the path only rows die that were deletable, or that bear a conflict name of this device under which a peer holds a tombstone; every other row is unchanged or its own bumped tombstone |
| DirDelete.UndoomedStay | internal/sync/engine.go:1906-1929 | a row beneath that is being written, or whose winner is not a deletion, is untouched unless it bears a conflict name of this device |
| DirDelete.DeathIsFinal | internal/sync/engine.go:2004-2014 | a row that dies leaves a tombstone without type, content and time whose version is above the row's exactly if the counter does not wrap, and then the deletion wins against any number of devices with the old row or an older one |
| DirDelete.BuriedStays | internal/sync/engine.go:1948-1955 | deleting a path that is a tombstone already changes nothing |
| DirDelete.NoCopyNoDeath | internal/sync/engine.go:1485-1490 | the deletion of a row that needs a conflict copy fails exactly if the file cannot be moved to the copy's name, and then changes nothing |
| DirDelete.HistoryIsKept | internal/sync/engine.go:1942-2021 | whatever becomes of a row, conflict copies included, it keeps the counters of all other devices |
| DirState.CopySupersedes | internal/sync/engine.go:1490-1515 | a conflict copy is indexed with the stat and hashes of the moved file and with a version above whatever the index had under its name, up to the wrap |
| DirDelete.OnlyTheDoomedAreLost | internal/sync/engine.go:1942-2008 | only paths at or beneath the path leave the disk, and without the hold area only those of rows that may die or that a conflict copy took along |
| DirDelete.DirectoryDiesOverLiveRow | internal/sync/engine.go:1982-2021 | with or without the hold area, a directory row dies only if every live row beneath was deletable and nothing of it is left on disk; a row it dies over lies at or under a path that had live rows beneath it and whose removal carries them off (one direction; the exact conditions are in `DirHold`) |
| DirDelete.DirectoryDiesAlone | internal/sync/engine.go:1930-2021 | without the hold area a directory never dies over a live row, unless conflict copies are made and a peer holds a tombstone beneath it under a name shaped like one of this device's copies |
| DirHold.HeldDirectoryExactly | internal/sync/engine.go:1906-2021 | with the hold area, from the start state alone and in both directions: when the directory row dies, which rows beneath it stay live, which paths beneath it stay on disk, and hence when it dies over a live row |
| DirHold.PlainDirectoryExactly | internal/sync/engine.go:1906-2021 | without hold area, versioning and conflicts: the directory row dies exactly if every live row beneath is deletable and everything in it on disk goes by itself; the rows that stay are exactly the directory rows over something that does not; it never dies over a live row |
| DirDelete.FileTombstoneIgnoresBeneath | internal/sync/engine.go:1975-2013 | a tombstone not typed as a directory kills its row and leaves the rows beneath alone, so it dies over a live row exactly if there was one |
| DirDelete.FileTombstoneOnDisk | internal/sync/engine.go:1942-2003 | what a tombstone not typed as a directory takes from the disk, exactly: a held path with everything under it, or at most the path itself, if it is removed or archived |
| DirDelete.LoserIsKept | internal/sync/engine.go:1454-1523 | a row that loses a conflict to a deletion dies only with a copy indexed under its conflict name; the copy is live and in place at the end, or a peer holds a tombstone under that very name, or it was carried off with a risky path; a row that bears a conflict name itself can also die because another row's copy took its name and was buried |
| DirDelete.OnePeerNeedsNoCopy | internal/sync/engine.go:1404-1437 | with one peer, dated live rows and undated tombstones no deletion needs a conflict copy |
| DirFamilies.HoldCanSwallow | internal/sync/engine.go:1966-2013 | three nested directories, the middle tombstone untyped, an unindexed file in the innermost: with the hold area the outermost dies over the innermost |
| DirFamilies.CollisionDestroysCopy | internal/sync/engine.go:1930-1975 | a conflict copy is unlinked and tombstoned by the pass that made it exactly if a deletable row already bore its name, although the copy itself loses to no deletion |
| DirFamilies.CollisionHappens | internal/sync/engine.go:1930-1975 | a concrete member with sane dates: a concurrent edit of which neither row nor file remains |
| DirFamilies.RenameSwallowsRow | internal/sync/engine.go:1930-2013 | without the hold area, a directory in conflict under a directory being deleted, with deletable rows under the names its contents get when it is moved aside: the outer row dies, and over the live inner row exactly if something unindexed keeps the inner directory from being removed |
| DirFamilies.RenameCanSwallow | internal/sync/engine.go:1930-2013 | a concrete member of that family with an unindexed file, dated rows and no refusal of the system |
| DirFolder.ApplyTombstone | internal/sync/engine.go:1906-2021 | applying a tombstone to a mutable folder: what may die and that no older row brings it back, what may leave the disk, when a directory dies and, with the hold area, exactly when it dies over a live row, and what a file-typed tombstone does |
| Converge.WantsIsDecide | internal/sync/pending_incremental.go:211-264 | with one peer the pull decision is a function of the two entries |
| Converge.OfferIsWanted | internal/sync/pending_incremental.go:273-303 | with faithful views a device offers every name the other lacks and, of those it has or had, exactly the later versions that the other wants |
| Converge.IdlePhase | internal/sync/engine.go:936-1012 | with nothing wanted at most the vector changes, and only between identical, valid copies whose stat still matches |
| Converge.TwinsAreJoined | internal/sync/engine.go:936-1012 | copies with provably the same bytes end a phase with a vector that has seen both |
| Converge.ErasePhase | internal/sync/engine.go:1942-2021 | a winning deletion leaves no file and a tombstone above the deleted row, up to the wrap, which then wins against every device with that row or an older one; the peer is told, and with versioning the content is archived |
| Converge.StuckPhase | internal/node/pull_batch.go:323-343 | a deletion that wins a conflict kept as a copy is not recorded: the file moved away, the row stays live, the peer is not told |
| Converge.AdoptPhase | internal/sync/engine.go:1803-1830 | a pull adopts the peer's entry and bytes under the observed stat; a conflict's loser is on disk and indexed under the conflict name, above what that name held; with versioning the content is archived |
| Converge.WrongBytesAreRefused | internal/sync/engine.go:1786-1818 | bytes that are not the listed content are not committed, the row stays and the peer is not told |
| Converge.SameContentSameBytes | internal/sync/engine.go:2087-2118 | entries with the same content describe the same bytes, whatever their block sizes |
| Converge.RoundConverges | internal/node/session.go:957-1010 | from any pair of absent, live or tombstoned rows a round ends with both not live, or both live with the same row content and bytes, each knowing the other has it, and neither wanting a pull, if and only if it does not start in one of two failing families; then neither has upload work left |
| Converge.DatedRoundConverges | internal/node/session.go:957-1010 | with positive stamps on live rows, none on tombstones, and one entry per version every round converges |
| Converge.LoserSurvives | internal/sync/engine.go:1454-1523 | under conflict copies without versioning the concurrent loser's bytes are on disk and indexed at its conflict name and the winner's stay |
| Converge.ReplacedIsArchived | internal/sync/engine.go:1466-1483 | with versioning, unless the archive fails, the content a round replaces or deletes is in the versions area of the device that had it |
| Converge.RoundCanStick | internal/node/pull_batch.go:323-343 | a witness that does not converge |
| Converge.EarlierCopyIsOverwritten | internal/sync/engine.go:1485-1490 | making a conflict copy replaces whatever its name held; an earlier copy is gone unless another path holds its bytes |
| Converge.SameSecondSameCopy | internal/sync/engine.go:2173-2178 | two conflicts of one path on one device share a name exactly if their formatted times agree |
| Converge.OtherDeviceOtherName | internal/sync/engine.go:2173-2178 | two devices never give copies of one path the same name |
| SyncRound.Sync | internal/node/session.go:957-1138 | two mutable devices end in the state of the round function, converged exactly outside the failing families |

## Left out

- PendingEngine.Engine.Run: operations are atomic, and Direction, Include and the peers' visit order are fixed; `PruneTombstones`, which removes rows without the write hook, is not among the operations; an index read error while dirty names are re-decided, which drops those names until the next walk, is not modelled; the lists are exact up to the empty name.
- Exchange.LiveMarkerMeansKnown: stays within one `Open` of the sender's index (a reopen after hard deletes can move the next sequence backwards); the receiver loses its view only by restarting; views agree on version, deleted flag and blocks, since a stat-only update keeps its sequence.
- Exchange.PrunedWasCarried: says nothing about a peer whose marker cannot be read, because the code passes it over.
- PullBatch.BatchIsBounded: safety only; that every job finishes is not claimed, since error answers do not return their bytes to the budget and only the answered job is refilled.
- PullFile.Pull.ReceiveBlocks: disk write errors are not modelled; entries have a positive block size and list the blocks of some content.
- DirDelete.ApplyKeeps: index write errors and a stat that fails after a successful rename are not modelled; the system refuses to rename or to remove fixed paths; the disk is a set of paths here, so that a copy takes the place of an earlier file is stated in `Converge` only.
- DirState.MayRename: paths on disk have no type, so a rename of a file onto an empty directory, or of a directory onto a file, succeeds here although the system refuses both.
- DirDelete.DirectoryDiesOverLiveRow: one direction; where conflict copies are made without the hold area, the exact condition is proved on the family of `DirFamilies.RenameSwallowsRow` only, because in general it depends on what the chain of copies of copies is decided by.
- DirDelete.DirectoryDiesAlone: a sufficient condition, for the same reason.
- DirDelete.LoserIsKept: one-way; that a tombstone under the copy's name destroys the copy is proved on the family of `DirFamilies.CollisionDestroysCopy`.
- Converge.RoundConverges: one name per round, a regular file whose live rows are hashed, send-receive on both sides, no include gate, nothing in flight; moves planned by `PlanMoves` and the soft hold of the deletion guard are not part of the round; sequence numbers are left at 0 there because no decision reads them.
- SyncRound.Node.Fetch: the transfer is one step that succeeds exactly when the served bytes are the listed content; the block level is `PullFile` and `PullBatch`.
- ScanRunner.Scanner.Scan: failures to read or write the settling and missing tables, walk errors (they end a pass early) and progress reports are not modelled; which old paths the cheap rename pass claims is a parameter, because it trusts size and mtime and establishes no content equality.
- Renames.DetectRenames: the candidates for a move out of the include gate are a parameter with their hash result; which paths the gate excludes is a parameter.
- ConflictNames.ConflictName: the formatted timestamp is a parameter made of digits and dashes.
- A nil version vector is not told apart from an empty one.
- Ignore matching, include matching, the deletion guard's weights, pull order, backoff and the event log.
- Staging renames, ownership, modes, versioning retention, the hold manifest and other operating system behaviour.
- SQLite text, write-ahead logging and corruption recovery: rows are maps with atomic transactions.
- TLS, dialling, keepalives, stall timers and JSON framing.
- The REST interface, the web interface, metrics, backup, self-update and alerts.
