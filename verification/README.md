# A verified model of the Raft key-value server and its operator

This project models, in Dafny 4.11, the parts of the repository where a mistake would cost data or elect two leaders,
and proves what those parts guarantee. `dafny verify dfyconfig.toml` checks all of it.

**The durable node** (`Types`, `Wal`, `Replay`, `Decimal`, `Snapshots`, `KvStore`, `Durable`, `Persistence`,
`FailedSaves`, `Recovery`, `RaftNode`, `Restarts`, `Installs`). `Durable` is a state machine over a node's disk (WAL records and snapshot files) and its memory.
One action is one atomic step of the event loop: a record appended, a file written, removed or renamed, or a step in
memory, each of which may also fail where the code only logs the failure; a crash may come between any two. `Persistence`
proves what every run keeps on disk before it sends, and `FailedSaves` exactly what failed Saves cost. `Recovery` proves that in runs
of contiguous batches a restart rebuilds the state of applying the whole log. `Restarts` treats all other runs, with
overwritten entries and snapshots sent by peers, and says exactly which sent entries, which peer snapshots and when the
whole log a restart finds again, and `Installs` says what the store holds after a peer's snapshot. The classes `WAL`, `Snapshotter`, `KVStore` and `RaftNode` are the code's own form, loops
included; `RaftNode.HandleReady` is proved to have the effect `AfterReady`, whatever fails in it, `ReadyPath` proves that
effect to be a run of the machine, and `ReadyStaysRecoverable` and `RestartStaysRecoverable` carry the recovery theorem
over to both methods.

**Membership and elections** (`Membership`). A cluster is a map from servers to runs of the durable node. A vote is
something a server has sent, so election safety rests on the persistence theorem and not on a separate vote model.

**The operator** (`Operator`). `Reconcile` over the persisted status, with failed writes, mode switches, unknown steps and
a possibly stale answer to whether reconfiguration is needed.

**The linearizability check** (`Linearizability`, `History`). The event conversion, the key-value model and the histories
the API handlers record.

**Identity, peers and proposals** (`RaftId`, `Peers`, `PeerTables`, `Proposals`).

What is assumed of the etcd/raft library, whose source is not part of this model, is written out in five places:
`Durable.LibraryReady` (what a Ready may contain: hard states that never go back, entries that continue the log or the
Ready's own snapshot and rewrite nothing applied, committed entries that are the log's next ones and lie within the commit
index), `Durable.Follows` (one vote per term), `Replay.Append` (`MemoryStorage.Append`), `Membership.ApplyChange` (a
single-server configuration change) and `Proposals.Allowed` (what is applied stays, and an entry never changes its index).

Several laws one might expect of the code are false. Each of those has a concrete counterexample and an exact condition:

- Compaction keeps the meaning of a WAL that overwrote a suffix only if the stream ends above the cut or holds nothing
  above it (`ExactCompaction`); otherwise a stale entry comes back (`CompactionResurrects`).
- Restarting with a single `Append` restores the log only if nothing was overwritten, or the overwriting leaves the stream
  exactly one record ahead at the snapshot and stops there (`ExactRestart`, `RestartMisplaces`, `RestartMakesGood`).
- A restart counts WAL records instead of reading their indices. An entry that was sent is recovered if and only if the
  newest snapshot covers it or its record is in place (`SentEntryExactly`); otherwise it is dropped although every Save
  succeeded (`SentEntryDropped`). The whole log is recovered if and only if the disk is sound (`RecoversLogExactly`).
- A snapshot sent by a peer is durable if and only if a local one at or above it has been written since
  (`PeerSnapshotDurableExactly`, `PeerSnapshotIsNotDurable`).
- A failed Save is only logged. The hard states behind the messages survive if and only if no Save that failed at the
  record of a new hard state was followed by the sending (`StatesHonouredExactly`, `FailedSaveBreaksPromise`), and the
  entries if and only if neither such a Save nor a later compaction lost one (`EntriesKeptExactly`).
- A Ready whose entries fit only after its own snapshot makes the storage panic, since the code appends first:
  `HandleReady` returns false exactly then, and the machine crashes there (`PanicPath`).
- A DELETE is an unrecorded PUT of the empty string, and a PUT that timed out may be applied later, so a correct serial
  run can be reported as a violation (`HistoryAcceptedExactly`, `DeleteLooksLikeAViolation`,
  `LateLandingLooksLikeAViolation`).
- A proposer can be told that its entry is applied when only an earlier one is (`AckExactlyWhen`, `LeaderAckExactlyWhen`,
  `EarlyAcknowledgement`), or time out although it was applied (`SentExactly`, `MissedNotification`).
- Switching replica counts without a joint phase can elect two leaders (`DirectSwitchExactly`), and a safe workflow given
  up at LeaveJoint can go from one quorum to a disjoint one (`SafeStepsExactly`).

Where the documentation and the code disagree, the model follows the code: the sixth workflow step is completion, not a
leader transfer, and `LeaderTransfer` is an unknown step that resets the workflow; the controller only writes status
fields, so the link from a step to a voting configuration is the premise `QuorumUnder`; a DELETE never reaches the
model's "delete" case; the snapshot interval, even when given as a duration, is compared with a number of entries.

## Model

| member | source | states |
|---|---|---|
| Types.ApplyAllHolds | server/pkg/raftnode/raftnode.go:405-421 | after applying any log to any map, each key holds the value of the last entry that writes it, and what it held before if none does |
| Wal.WAL.constructor | server/pkg/storage/wal.go:34-53 | opening a WAL leaves the existing file alone and the mirror empty |
| Wal.WAL.WriteEntries | server/pkg/storage/wal.go:73-81 | a write failing after k entry records leaves exactly the first k in the file |
| Wal.WAL.Save | server/pkg/storage/wal.go:56-90 | the state record comes first and only if non-empty and new, then the entries, then the sync; a failure or crash after k writes leaves exactly those k records and an unextended mirror, a failed sync all of them; through a closed handle nothing is written; success keeps mirror and file equal |
| Wal.WAL.ReadAll | server/pkg/storage/wal.go:93-132 | returns the last hard state and the entries in file order, skipping other records, and makes the mirror equal the file |
| Wal.WAL.FilterAbove | server/pkg/storage/wal.go:139-145 | keeps exactly the entries above the index, in order |
| Wal.WAL.WriteTemp | server/pkg/storage/wal.go:156-188 | the temporary file holds the hard state unless empty, then the kept entries |
| Wal.WAL.Compact | server/pkg/storage/wal.go:135-211 | file and mirror become the compacted ones; a failure before the rename changes nothing, one at the reopen leaves the new file with the old mirror and a closed handle |
| Wal.MirrorInvariant | server/pkg/storage/wal.go:56-211 | from any file, after ReadAll and any sequence of successful Saves and Compacts, the fields equal a fresh ReadAll and the hard state is the last non-empty one saved |
| Wal.SaveReadsBack | server/pkg/storage/wal.go:61-88 | a Save keeps a mirrored WAL mirrored, equal-state skip included |
| Wal.CompactReadsBack | server/pkg/storage/wal.go:156-188 | a compacted file reads back as its hard state and kept entries, also for the empty hard state |
| Replay.ExactCompaction | server/pkg/storage/wal.go:139-145 | for every stream that skips no index, compacting at c and replaying with truncation equals the full replay past c if and only if the stream ends above c or has nothing above c |
| Replay.ExactCompactionOfFile | server/pkg/storage/wal.go:135-208 | the same for the WAL file before and after Compact |
| Replay.CompactionResurrects | server/pkg/storage/wal.go:139-145 | a stream with one overwrite whose compaction brings back a discarded entry |
| Replay.ExactRestart | server/pkg/raftnode/raftnode.go:145-169 | one Append of the whole stream on a snapshot restores the log it stands for if and only if nothing was overwritten, or the stream counts as covered, or the record counted as the one after the snapshot has the snapshot's own index and nothing is overwritten from there on |
| Replay.RestartMisplaces | server/pkg/raftnode/raftnode.go:164-169 | a four-record stream that the single Append restores as four entries where the log has three |
| Replay.RestartMakesGood | server/pkg/raftnode/raftnode.go:164-169 | the same four records on a snapshot at 2, where the third replaces the dummy slot and the log past 2 is restored |
| Replay.RestartOfAny | server/pkg/raftnode/raftnode.go:145-169 | for any stream and snapshot index: when one Append panics, and what it restores otherwise, the replaced dummy slot included |
| Replay.RestartHolds | server/pkg/raftnode/raftnode.go:145-169 | for any stream: an entry is at hand after a restart if and only if the restart succeeds and the entry is covered by the snapshot or has a record in place |
| Decimal.ParseOfDec | server/pkg/storage/snapshot.go:86-92 | decimal print then parse is the identity on all 64-bit numbers |
| Decimal.DigitsExactly | server/pkg/storage/snapshot.go:89-92 | exactly the non-empty strings of digits have a value, and leading zeros do not change it |
| Snapshots.IndexOfFileName | server/pkg/storage/snapshot.go:81-92 | a snapshot's file name gives its index back, for all 64-bit indices |
| Snapshots.IndexOfExactly | server/pkg/storage/snapshot.go:81-92 | a name counts as snapshot i if and only if it is the prefix, digits with value i below 2^64, and the suffix |
| Snapshots.StreamingTop | server/pkg/storage/snapshot.go:120-170 | keeping the n largest as numbers arrive gives the n largest of all |
| Snapshots.RetentionIsStreamingTopThree | server/pkg/storage/snapshot.go:30-57 | after any Saves into an empty directory the files are exactly the three largest indices ever saved, each with its last content |
| Snapshots.ThreeStay | server/pkg/storage/snapshot.go:51-54 | at most three files stay, and exactly three once three different indices were saved |
| Snapshots.LatestEverSaved | server/pkg/storage/snapshot.go:72-116 | after any Saves the index Load settles on is the largest ever saved, with its last content |
| Snapshots.SortSpec | server/pkg/storage/snapshot.go:156-159 | the sort yields a descending permutation |
| Snapshots.RankOfListing | server/pkg/storage/snapshot.go:131-167 | in any directory, the file at position p of the sorted listing has at most p files of larger index and more than p of at least its own |
| Snapshots.Snapshotter.Load | server/pkg/storage/snapshot.go:60-117 | the file with the largest positive index wins in any directory; index 0 counts as no snapshot; undecodable content is an error |
| Snapshots.Snapshotter.List | server/pkg/storage/snapshot.go:121-150 | lists exactly the non-folder files whose names parse, each once |
| Snapshots.Snapshotter.RemoveFrom | server/pkg/storage/snapshot.go:161-167 | removes the files from a position on, up to a failing removal, and nothing else |
| Snapshots.Snapshotter.Cleanup | server/pkg/storage/snapshot.go:120-170 | in any directory only snapshot files go, each leaving enough files of at least its index, and without a failing removal no more than asked stay; in a directory that only Save wrote to exactly the newest stay, with the oldest after a failing removal |
| Snapshots.Snapshotter.Save | server/pkg/storage/snapshot.go:30-57 | writes the snapshot and thins out the rest, in any directory; from Saves alone exactly the newest three stay, with the oldest after a failing removal; a failing write or a folder in the way changes nothing |
| KvStore.KVStore.Get | server/pkg/kvstore/kvstore.go:45-51 | the stored value and whether it exists; a missing key reads as "" |
| KvStore.KVStore.Put | server/pkg/kvstore/kvstore.go:54-59 | sets one key and nothing else |
| KvStore.KVStore.RecordOperation | server/pkg/kvstore/kvstore.go:70-75 | appends to the history |
| KvStore.KVStore.Snapshot | server/pkg/kvstore/kvstore.go:97-107 | the copy made key by key equals the map |
| KvStore.KVStore.Restore | server/pkg/kvstore/kvstore.go:110-121 | replaces the whole map |
| Persistence.PersistBeforeSend | server/pkg/raftnode/raftnode.go:319-339 | in every run whose Saves succeed, with any peer snapshots, overwrites, compactions, failing snapshots and crashes, the hard state on disk is at least as new as the one behind every message sent, and every entry of a sent Ready is in the WAL or below a snapshot |
| Persistence.OneVotePerTerm | server/pkg/raftnode/raftnode.go:323-339 | no node ever sends two different votes in one term, across any crashes and any failed Saves but those that lose a new hard state and send |
| Persistence.SnapshotLag | server/pkg/raftnode/raftnode.go:342-373 | in every run the snapshot index never passes the applied index, so the unsigned subtraction never wraps; without failing snapshots the lag between Readys is below the interval |
| Persistence.SnapshotExactly | server/pkg/raftnode/raftnode.go:368-373 | in every run a snapshot of the store is written if and only if the applied index is at least the interval past the snapshot index |
| FailedSaves.FailedSaveBreaksPromise | server/pkg/raftnode/raftnode.go:323-339 | a failed Save is only logged: a run in which a vote is sent and then forgotten |
| Persistence.StatesHonouredExactly | server/pkg/raftnode/raftnode.go:323-339 | for every run, failed Saves included: the hard states behind all messages survive at every point if and only if no Save that failed at the record of a new hard state was followed by its sending |
| FailedSaves.FailedSaveForgets | server/pkg/raftnode/raftnode.go:323-339 | after any run, a failed Save and the sending, the promised vote is forgotten if and only if nothing was written and the hard state had a new term or vote |
| FailedSaves.FailedSaveLoses | server/pkg/storage/wal.go:61-81 | after any run, a failed Save and the sending, an entry is on disk if and only if its write came before the failure or it was there before |
| FailedSaves.CompactionKeepsMirrored | server/pkg/storage/wal.go:139-188 | a compaction keeps an entry if and only if the mirror holds it or a snapshot covers it, so entries of a failed Save go |
| FailedSaves.EntriesKeptExactly | server/pkg/raftnode/raftnode.go:323-373 | for every run, failed Saves included: every entry of a sent Ready stays on disk at every point if and only if no Save that failed before writing an entry was followed by its sending and no compaction came while a sent entry was missing from the mirror |
| Recovery.RecoveredMemory | server/pkg/raftnode/raftnode.go:130-169 | what Start rebuilds from the disk of any reachable state: the latest snapshot's state and the log after it |
| Recovery.RecoveryRefinesWholeLog | server/pkg/raftnode/raftnode.go:130-169 | at every point of every run of contiguous batches, after any crashes at any record or file boundary and any failing snapshots, snapshot plus WAL rebuild at every recovered index the state of applying every entry ever written, and nothing applied lies beyond the recovered commit index or log |
| Recovery.RecoveredValues | server/pkg/raftnode/raftnode.go:130-169 | at every index the recovered log reaches, a key is there if and only if an entry up to that index writes it, with the value of the last one; likewise in the store of the running node |
| Recovery.AppliedStateSurvives | server/pkg/raftnode/raftnode.go:319-373 | a state once applied is still the state at its index in whatever any later crash recovers |
| Recovery.WalHoldsOnlyNewEntries | server/pkg/raftnode/raftnode.go:459-485 | without crashes every entry kept in the WAL lies above the snapshot index |
| Recovery.PeerSnapshotIsNotDurable | server/pkg/raftnode/raftnode.go:342-352 | a snapshot sent by a peer is lost by a crash while the commit index stays |
| Restarts.SentEntryExactly | server/pkg/raftnode/raftnode.go:145-169 | in every run whose Saves succeed, a restart has a sent entry at its own index or covered if and only if Start comes up and the newest snapshot covers it or its record is in place |
| Restarts.PlainSentRecovered | server/pkg/raftnode/raftnode.go:145-169 | in runs of contiguous batches a restart recovers every sent entry |
| Restarts.SentEntryDropped | server/pkg/raftnode/raftnode.go:342-372 | a run with successful Saves after which a restart drops an entry already sent |
| Restarts.PeerSnapshotDurableExactly | server/pkg/raftnode/raftnode.go:342-352 | in every run and for every installed peer snapshot, a restart comes up at or past its index if and only if a local snapshot at or above it was written since and the WAL lets Start come up |
| Restarts.RecoversLogExactly | server/pkg/raftnode/raftnode.go:130-169 | in every run with successful Saves whose earlier crashes found a sound disk, overwrites and peer snapshots included, a restart recovers exactly the node's log past the newest snapshot if and only if the disk is sound |
| Restarts.AppliedStateRecovered | server/pkg/raftnode/raftnode.go:130-169 | then applying the recovered log to the recovered store gives the node's own store at its applied index |
| Restarts.PlainRunIsCareful | server/pkg/raftnode/raftnode.go:319-373 | runs of contiguous batches have a sound disk at every point |
| Installs.InstallReplacesStore | server/pkg/raftnode/raftnode.go:342-372 | in every run, from the install of a peer's snapshot until a crash or the next install, the store is the snapshot's data with the entries applied since, whatever it held before, and a local snapshot written in that time carries that state |
| Installs.InstalledLog | server/pkg/raftnode/raftnode.go:342-365 | those entries are the first of the log past the snapshot, unless the installing Ready brought committed entries itself |
| RaftNode.ReadyPath | server/pkg/raftnode/raftnode.go:319-373 | handling one Ready, whatever fails in it, is a run of atomic steps of the machine, so every theorem about runs covers it |
| RaftNode.PanicPath | server/pkg/raftnode/raftnode.go:323-333 | a Ready whose entries do not fit the storage leaves the disk of a run that stops inside the Save |
| RaftNode.ReadyStaysRecoverable | server/pkg/raftnode/raftnode.go:319-373 | handling a plain Ready keeps a node among those from which a restart rebuilds the state of the whole log |
| RaftNode.RestartStaysRecoverable | server/pkg/raftnode/raftnode.go:130-169 | so does dying at any point and starting again, which always succeeds |
| RaftNode.RaftNode.Start | server/pkg/raftnode/raftnode.go:130-169 | comes up with exactly the recovered memory, fails exactly where the storage panics, and after a plain run comes up recoverable |
| RaftNode.RaftNode.ApplyEntryToStore | server/pkg/raftnode/raftnode.go:405-421 | only a decodable normal entry changes the store |
| RaftNode.RaftNode.ApplyCommitted | server/pkg/raftnode/raftnode.go:356-365 | applies the committed entries in order, moves the applied index to the last and notifies each |
| RaftNode.RaftNode.BeginSave | server/pkg/raftnode/raftnode.go:323-333 | Save, succeeding or failing at any record or at the sync, and the storage's append, before anything is sent; fails exactly where the append panics |
| RaftNode.RaftNode.SendAndInstall | server/pkg/raftnode/raftnode.go:335-352 | messages leave, then a peer's snapshot replaces store and indices |
| RaftNode.RaftNode.CreateSnapshot | server/pkg/raftnode/raftnode.go:459-485 | snapshot of the applied state, retention up to a failing removal, compaction and the new snapshot index, each as far as the first failure |
| RaftNode.RaftNode.HandleReady | server/pkg/raftnode/raftnode.go:319-373 | the whole Ready branch takes the node to AfterReady, whatever fails in it, dies exactly where the append panics, and keeps a plainly reached node recoverable |
| Membership.ChangeMovesOneVoter | server/pkg/server/admin.go:49-115 | AddLearner, Promote and RemoveNode each move at most one voter |
| Membership.LastChangeDecides | server/pkg/server/admin.go:49-115 | after any changes, the last one that names a server decides whether it is a learner, a voter or neither; others are as at the start |
| Membership.NeighbouringMajoritiesMeet | server/pkg/server/admin.go:49-115 | voter sets one member apart have no disjoint majorities |
| Membership.ElectionSafety | server/pkg/server/admin.go:49-115 | over all runs with crashes and failed Saves that lose no new hard state, candidates winning one term under configurations at most one committed change apart, at the same or different times, are the same |
| Membership.JointQuorumMeetsAll | operator/controllers/raftcluster_controller.go:332-361 | a joint quorum meets every old, new and joint quorum, for all voter sets |
| Membership.JointElectionSafety | operator/controllers/raftcluster_controller.go:332-361 | a candidate elected by a joint quorum is the only one any phase can elect in that term |
| Membership.ClashExactly | operator/controllers/raftcluster_controller.go:405-423 | any two voter sets have disjoint majorities if and only if both have members and together room for a majority of each |
| Membership.DirectSwitchExactly | operator/controllers/raftcluster_controller.go:405-423 | going from a to b > a replicas without a joint phase can elect two leaders in one term if and only if a/2 + b/2 + 2 <= b |
| Operator.Controller.Update | operator/controllers/raftcluster_controller.go:317-319 | a status write persists everything to the second, or nothing |
| Operator.Controller.Reconcile | operator/controllers/raftcluster_controller.go:37-102 | the persisted status after every combination of outcomes, a Degraded write carrying the already advanced step included |
| Operator.Controller.Reconfigure | operator/controllers/raftcluster_controller.go:279-304 | cooldown check and dispatch; the status in memory advances even if its write fails |
| Operator.Controller.SafeStep | operator/controllers/raftcluster_controller.go:307-384 | one step of the safe workflow |
| Operator.DeferredExactly | operator/controllers/raftcluster_controller.go:282-291 | a needed reconfiguration in safe mode is deferred if and only if a stamp exists and less than the cooldown has passed since |
| Operator.UnsafeStamps | operator/controllers/raftcluster_controller.go:386-423 | in the unsafe modes, unless deferred, one reconcile ends the workflow and stamps it with the clock to the second |
| Operator.NothingToDo | operator/controllers/raftcluster_controller.go:92-99 | with nothing to reconfigure the status comes to rest and keeps stamp, joint state and index |
| Operator.FailedWriteDegrades | operator/controllers/raftcluster_controller.go:82-88 | after a failed status write a successful Degraded write persists all that was to be written, in phase Degraded |
| Operator.FailuresPersistNothing | operator/controllers/raftcluster_controller.go:41-80 | other failures persist nothing beyond the initialisation |
| Operator.WorkflowInvariant | operator/controllers/raftcluster_controller.go:279-423 | in every run a workflow step fixes the joint state, and the configuration index is the number of persisted entries into CommitNew modulo 2^64 |
| Operator.ConfigurationIndexMonotone | operator/api/v1/raftcluster_types.go:83-84 | the configuration index never goes back, short of 2^64 commits |
| Operator.UnsafeModesNeverCommit | operator/controllers/raftcluster_controller.go:386-423 | in runs of the unsafe modes alone no workflow step is persisted and the index stays 0 |
| Operator.SafeModeCompletes | operator/controllers/raftcluster_controller.go:307-384 | from any status, favourable reconciles complete the workflow on exactly the one its step calls for, the seventh at the latest |
| Operator.StampStep | operator/controllers/raftcluster_controller.go:282-289 | one reconcile leaves the stamp or moves it by at least the cooldown |
| Operator.CooldownSpacing | operator/controllers/raftcluster_controller.go:282-304 | successive persisted stamps are at least the cooldown apart in every run mixing modes and interrupted workflows |
| Operator.SafeStepsExactly | operator/controllers/raftcluster_controller.go:77-384 | reading steps as configurations, a safe-mode reconcile keeps all quorums meeting if and only if it does not give the workflow up at LeaveJoint or the pod sets have no room for disjoint majorities |
| Linearizability.StepByCopy | test/correctness/porcupine/model.go:28-73 | copying and editing the map decides as the pure transition does |
| Linearizability.DeletedIsGone | test/correctness/porcupine/model.go:62-72 | after a delete a read is accepted only if it finds nothing, other keys are unaffected, and failed writes and unknown operations are rejected |
| Linearizability.ConvertToPorcupineEvents | test/correctness/porcupine/checker.go:145-193 | each recognised operation becomes a call followed at once by its return, in history order, others are skipped |
| Linearizability.OthersAreSkipped | test/correctness/porcupine/checker.go:148-158 | only GET and PUT records take part |
| Linearizability.PrecedesIsOrder | test/correctness/porcupine/checker.go:173-189 | real-time order of the converted events is exactly history order |
| Linearizability.CheckIsAFold | test/correctness/porcupine/checker.go:145-193 | for every history a linearization exists if and only if the model accepts the operations in history order, which is then the only linearization |
| History.Api.Handle | server/pkg/server/api.go:78-201 | GET acts and records, PUT records if acknowledged and lands on time or not, DELETE writes "" and records nothing, an empty key does nothing |
| History.AckedPutIsRead | server/pkg/server/api.go:78-165 | after any events an acknowledged PUT leaves its value at its key alone, and a GET right after records it as found |
| History.OtherEffects | server/pkg/server/api.go:78-201 | what a GET of a missing key records and what DELETEs, landing entries and early acknowledgements do |
| History.NoEffects | server/pkg/server/api.go:137-140 | a write answered with an error does nothing at once, a request without a key nothing at all |
| History.LastWritesDecide | server/pkg/server/api.go:111-201 | the store holds what landed last on each key, the recorded PUTs what was recorded last |
| History.HistoryAcceptedExactly | server/pkg/server/api.go:78-201 | the history of any serial run, however its proposals are answered and whenever their entries land, is accepted if and only if every GET reads a key whose last landed value is its last recorded one |
| History.SerialRunsAreLinearizable | server/pkg/server/api.go:78-165 | a serial run of GETs, PUTs acknowledged when applied, failed writes and refused requests is linearizable and the model ends in the store's map |
| History.DeleteLooksLikeAViolation | server/pkg/server/api.go:174-201 | a correct PUT, DELETE, GET run that no linearization explains |
| History.LateLandingLooksLikeAViolation | server/pkg/raftnode/raftnode.go:533-543 | a PUT that times out and lands between two GETs, which no linearization explains |
| RaftId.NodeIdToRaftId | server/pkg/raftnode/raftnode.go:494-502 | the wrapping loop computes the base-31 hash |
| RaftId.AdminNodeIdToRaftId | server/pkg/server/admin.go:181-189 | the admin service's copy computes the same hash |
| RaftId.SuffixesNeverCollide | server/pkg/raftnode/raftnode.go:494-502 | under any prefix, distinct equal-length suffixes of at most 12 characters from 31 consecutive code points get distinct IDs |
| RaftId.ThirteenCollide | server/pkg/raftnode/raftnode.go:494-502 | at 13 characters two suffixes collide under every prefix |
| RaftId.PodIdsDistinct | server/pkg/server/admin.go:182-189 | pods with single-digit ordinals never share an ID, whatever the cluster's name |
| Peers.BuildPeers | operator/controllers/raftcluster_controller.go:162-171 | prints one name=address item per replica, joined by commas |
| Peers.ItemFormat | operator/controllers/raftcluster_controller.go:168-170 | one item of the list, letter by letter |
| Peers.GetPeers | server/pkg/config/config.go:19-39 | folds the trimmed pieces into a map, skipping blank and incomplete ones |
| Peers.TrimSpec | server/pkg/config/config.go:26 | trimming takes off white space at both ends, all of it and nothing else |
| Peers.NamedEntry | server/pkg/config/config.go:44-49 | an entry with an equals sign is split at the first one, both sides trimmed |
| Peers.BareEntry | server/pkg/config/config.go:51-63 | an entry without one is an address named by what comes before its first colon or dot |
| Peers.LastPieceDecides | server/pkg/config/config.go:25-36 | a name is in the map if and only if a piece gives it an address, and the last such piece decides which |
| Peers.SplitJoined | server/pkg/config/config.go:25-29 | splitting a joined list of comma-free items gives the items back |
| Peers.PeerListRoundTrip | server/pkg/config/config.go:19-49 | for every replica count and plain name, parsing the printed list yields exactly the pods and their addresses |
| Peers.AddressListRoundTrip | server/pkg/config/config.go:51-64 | the address-only list yields the same map for a name without dot or colon |
| Peers.ExpectedHasAll | operator/controllers/raftcluster_controller.go:162-171 | that map has one entry per pod |
| PeerTables.Transport.AddPeer | server/pkg/transport/transport.go:94-105 | keeps a peer it already has |
| PeerTables.Transport.RemovePeer | server/pkg/transport/transport.go:108-117 | stops the peer and forgets it; all others keep running |
| PeerTables.Peer.Stop | server/pkg/transport/transport.go:277-287 | stopping once or often closes the channel exactly once |
| PeerTables.PeerTable.Handle | server/pkg/raftnode/raftnode.go:432-452 | both tables change together; a change without an address changes neither |
| PeerTables.TablesAgree | server/pkg/raftnode/raftnode.go:204-214 | in every run both tables have the same keys, the node's holding the latest applied address and the transport's the first since the last removal |
| PeerTables.BootstrapIsOrderFree | server/pkg/raftnode/raftnode.go:184-191 | the bootstrap voters are the same set for every iteration order |
| PeerTables.BootstrapFromOperator | server/pkg/raftnode/raftnode.go:183-192 | from the operator's list for up to ten replicas every node bootstraps the same n distinct voters, the IDs of the pods |
| Proposals.AckMeansApplied | server/pkg/raftnode/raftnode.go:511-558 | in every interleaving a channel is sent to at most once, no send is dropped, and a success implies the expected index is applied |
| Proposals.AckExactlyWhen | server/pkg/raftnode/raftnode.go:511-558 | when the acknowledgement is sent, the proposer's own entry is applied if and only if the whole log as it stood before the proposal was applied when the index was read, and the entry is still in its place |
| Proposals.LeaderAckExactlyWhen | server/pkg/raftnode/raftnode.go:511-558 | on a leader that stays one, if and only if there was no backlog when the index was read |
| Proposals.SentExactly | server/pkg/raftnode/raftnode.go:526-558 | a registered call is sent to if and only if its index is notified later, before any call expecting the same index registers or times out |
| Proposals.OutcomeExactly | server/pkg/raftnode/raftnode.go:534-543 | in every interleaving a call has returned success if and only if it received, and an error if and only if it timed out |
| Proposals.SentCallSucceeds | server/pkg/raftnode/raftnode.go:534-558 | a call that was sent to and has not timed out first has returned success or does so on receiving |
| Proposals.SilenceExactly | server/pkg/raftnode/raftnode.go:526-543 | for a call registered in time and alone on its index, silence means the index is unapplied or its notification pending, and conversely |
| Proposals.MissedNotification | server/pkg/raftnode/raftnode.go:522-531 | an interleaving in which an applied proposal times out |
| Proposals.EarlyAcknowledgement | server/pkg/raftnode/raftnode.go:522-531 | an interleaving that acknowledges an entry not yet applied |

## Left out

- The internals of etcd/raft, porcupine, controller-runtime, gRPC and HTTP; their source is not part of this model.
- JSON bytes, torn writes and fsync: a record, a file write and a rename are atomic, and encoding is the identity.
- Recovery.RecoveryRefinesWholeLog: speaks of contiguous batches without peer snapshots or failed Saves; what the code does otherwise is in Restarts and in StatesHonouredExactly.
- Restarts.RecoversLogExactly: after a crash that found an unsound disk the node's own log is no longer what it had written, so later points of such a run are not covered.
- RaftNode.RaftNode.CreateSnapshot: no folder bears a snapshot's name; Snapshotter.Save covers that case.
- Operator.Controller.Reconcile: the Service and StatefulSet objects are reduced to whether writing them succeeded; overflow of the cooldown as a Go duration is not modelled.
- Proposals.AckMeansApplied: the proposal map and the channels are values of a state machine, not objects; goroutine scheduling is any interleaving of its steps, index + 1 does not wrap, and a proposal forwarded by a node that has just lost the leadership is not modelled.
- Membership.ElectionSafety: which configuration a candidate counts votes under is given, not derived from the log.
- PeerTables.BootstrapIsOrderFree: with colliding names the table entries, unlike the membership, may depend on the order.
- RaftNode.RaftNode.Start: ends with the filled storage; the library's own refusal of a hard state whose commit index lies past that log is not modelled, so the machine has more restarts than the code, never fewer.
- The snapshot's Term and ConfState, which the code never fills in, and the applied configuration after a restart.
- Parsing the snapshot interval, leader status, leadership transfer, catch-up tolerance, status reporting, the admin client, the client hash of the checker, the load generator and the scripts: thin wrappers or single comparisons.
