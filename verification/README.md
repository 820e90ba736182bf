# Verification of aeon's replication, rebalancing and transport core

A Dafny model of the parts of aeon where state, concurrency or arithmetic is hardest to get right, with proofs about
every run, every input and every interleaving. `dafny verify dfyconfig.toml` checks all of it.

**Push-source backpressure** (`PushBuffer`, `PushBufferRuns`, `PushBufferCounter`, `PushBufferOverload`). Any number of
cloned senders and one receiver share a bounded channel, an atomic spill counter and an overload flag. Every atomic
operation is a step; a schedule is any sequence of steps. What a call takes off the counter is exact under any
interleaving, nothing is lost, and the buffer can always drain. Overload cannot stick unless a counted send was
cancelled, and how many of those it takes is proved exactly. The flag can also be lost under full pressure, exactly
when enough senders count between the receiver's last look at the counter and its clear. `NextBatch` is the receiver's
code with the senders acting between its operations.

**Persistent Raft log** (`RaftKeys`, `RaftLogModel`, `RaftLogMem`, `RaftLogStore`, `RaftLogRuns`, `RaftLogPlain`,
`RaftLogHistory`, `RaftLogL3`). The key-value store with a four-field cache is refined to the in-memory log over every
run with crashes and restarts. The byte-level keys carry the proof: the last pair of a scan is the highest index
because big-endian order is numeric order. Two results differ from what the code intends. `append` caches a stale id
exactly when the top index is given two ids. `purge` asks for a write lock while its own read guard is alive and hangs
exactly when it empties a log that had entries. `GuardScope` names the two lifetimes: the block's, which an `if let`
gives the guard, and the intended one. Runs are compared with a store that waits alike, with the plain one that never
waits, and with what the operations of the run alone say.

**Rebalancing** (`PartitionTable`, `Loads`, `ComputeRebalance`, `ComputeRebalanceCode`, `PlanRebalance`,
`PlanRebalanceLaws`, `PlanRebalanceCode`, `RebalanceOrder`, `RebalanceAgreement`, `InitialAssignment`). Both planners
are proved against specifications, shown optimal against arbitrary plans, and to leave the initial round-robin
assignment alone. The hash map's iteration order is a parameter. Two comments turn out to be wrong: replicas can end
with different tables after the same rebalance (with equal counts), and a plan can leave a member below the floor. For
both the exact condition is proved.

**Replicated cluster state** (`ClusterState`, `Checkpoints`, `StateMachine`, `CommittedLog`, `StateMachineStore`). Each
committed request as a function, and the class that applies them in place. What table, offsets and configuration a log
leaves, told from the log alone; what may hand a partition over; and that replicas which apply, snapshot, install and
restart in any order equal the fold of the log prefix they have applied. A snapshot that passes the seal but does not
decode is persisted before it is rejected; the exact effect on the next restart is stated.

**Partition handover** (`Transfer`, `Driver`, `DriverOutcome`). Concurrent drives of one node's transfer driver,
interleaved with all other writers of the table and with proposals whose outcome was never learned. When a drive
succeeds and when it fails is stated exactly; what an abort or a completion takes, and from whom, is stated for every
state, including an abort that takes a partition from its new owner.

**Wire formats** (`Bytes`, `Words`, `Crc32`, `Crc32Bits`, `LengthPrefix`, `BatchWire`, `StreamFraming`). The
table-driven CRC-32 against the bit-serial one and the polynomial of RFC 1952, detection of every burst of up to 32
bits, which frames exactly are accepted, their round trip, and length-prefixed frames over an arbitrarily fragmented
stream. Words are natural numbers with a recursive exclusive-or.

`Naturals` and `Wrappers` hold what several modules share.

Where source and documentation disagree the source is followed: the disk spill of the push buffer's module comment is
not implemented and not modelled.

## Model

| member | source | states |
|---|---|---|
| `PushBuffer.StepKeepsInv` | crates/aeon-connectors/src/push_buffer.rs:37-116 | Every atomic operation of any sender or of the receiver, taken in any order, keeps the counter bound, the flag rule, conservation, batch sizes and each sender's order together. |
| `PushBuffer.RunKeepsInv` | crates/aeon-connectors/src/push_buffer.rs:37-116 | All of that holds after every schedule of any number of senders with the receiver. |
| `PushBuffer.SpillJustified` | crates/aeon-connectors/src/push_buffer.rs:42-52 | The spill counter never underflows and never exceeds queued events, counted senders still enqueuing, events of the unfinished batch and counted sends that gave up. |
| `PushBuffer.OverloadCannotStick` | crates/aeon-connectors/src/push_buffer.rs:84-116 | If no counted send gave up, overload stands only while an event is queued, a counted sender is enqueuing or a batch is being finished; a quiet buffer is clear with a zero counter. OverloadSticksIff says exactly when it is not. |
| `PushBufferOverload.CancelledSendLeavesCount` | crates/aeon-connectors/src/push_buffer.rs:42-52 | A counted send that is cancelled leaves behind its count, the flag exactly if its count reached the threshold, and nothing else. |
| `PushBufferOverload.OverloadSticksIff` | crates/aeon-connectors/src/push_buffer.rs:37-116 | For every configuration and k: some schedule in which exactly k counted sends gave up ends quiet and overloaded if and only if k is at least one and, for capacity zero, at least the threshold; so for every buffer that can be built one is enough. |
| `PushBufferOverload.SignalKeptIff` | crates/aeon-connectors/src/push_buffer.rs:42-113 | While the count is at the threshold the flag is up or a sender is about to raise it; every step keeps this, except exactly a clear taken with the count at the threshold and nobody about to raise the flag. |
| `PushBufferOverload.SignalledThroughoutIff` | crates/aeon-connectors/src/push_buffer.rs:42-113 | Over every schedule: that holds all the way through if and only if no such clear is in it. |
| `PushBufferOverload.LostBetweenIff` | crates/aeon-connectors/src/push_buffer.rs:104-113 | A clear leaves the count at the threshold with the flag down exactly when at least max(1, threshold) senders counted between the receiver's second load, which found zero, and the clear, whatever else happened in between. |
| `PushBufferOverload.FlagLostIff` | crates/aeon-connectors/src/push_buffer.rs:42-113 | Some schedule ends with senders blocked, the channel full, the count at the threshold, nobody given up and the flag down if and only if the capacity is not zero, so in every buffer that can be built. |
| `PushBufferCounter.CountsRemembered` | crates/aeon-connectors/src/push_buffer.rs:42-108 | Over every schedule the counter falls by no more than what was received: it is at most the number of sends that counted, and with the events already set against it at least that number. |
| `PushBufferCounter.CallTakesOff` | crates/aeon-connectors/src/push_buffer.rs:104-108 | From a call's first load on, whatever the senders do: the count is what was loaded, plus the sends that counted since, less the smaller of the load and the batch once it is subtracted, and so at the return. |
| `PushBufferCounter.ClearsIff` | crates/aeon-connectors/src/push_buffer.rs:104-112 | The second load finds zero, so that the flag is cleared, exactly when nobody counted since the first and the batch covers the count found then. |
| `PushBuffer.NothingLost` | crates/aeon-connectors/src/push_buffer.rs:37-116 | Delivered batches, then the batch in hand, then the queue are exactly what entered; per sender the order is kept; no batch exceeds max(1, batch size). |
| `PushBuffer.TrySendOutcomes` | crates/aeon-connectors/src/push_buffer.rs:38-55 | What a send can meet: the receiver gone, and then nothing changes; a full channel; room with nobody waiting, and then it goes straight in; or room held by others, and then either. |
| `PushBuffer.ReceiverGone` | crates/aeon-connectors/src/push_buffer.rs:42-55 | Once the receiver is dropped, over every schedule nothing enters the channel, leaves it or is returned any more. |
| `PushBufferRuns.FinishingDescends` | crates/aeon-connectors/src/push_buffer.rs:37-116 | Every step that finishes begun work lowers a rank, so no schedule of such steps goes on for ever. |
| `PushBufferRuns.NeverStuck` | crates/aeon-connectors/src/push_buffer.rs:37-116 | A buffer that is not quiet always has such a step to take. |
| `PushBufferRuns.AlwaysDrains` | crates/aeon-connectors/src/push_buffer.rs:37-116 | With room for at least one event, an open receiver and no counted send given up, finishing steps lead from every reachable state to a quiet, clear buffer that has delivered every event ever sent, in each sender's order. |
| `PushBufferRuns.NoOverloadWithoutPressure` | crates/aeon-connectors/src/push_buffer.rs:42-46 | With at most n senders that do not give up counted sends and a threshold above capacity + n + one batch, no schedule ever sets the overload flag. |
| `PushBufferRuns.DrainChannel` | crates/aeon-connectors/src/push_buffer.rs:88-99 | The first part of one call: wait for an event, then drain until full, empty or timed out, as a run of the protocol, whatever the senders do in between. With no sender acting it takes exactly the first min(queued, batch size, receives in time) events. |
| `PushBufferRuns.SettleCounter` | crates/aeon-connectors/src/push_buffer.rs:101-113 | The second part: set the batch against the counter and clear the flag, as a run of the protocol that returns exactly the drained batch. With no sender acting it is the five operations one after the other. |
| `PushBufferRuns.NextBatch` | crates/aeon-connectors/src/push_buffer.rs:84-116 | One whole call is a run of the protocol, keeps every invariant and delivers exactly the returned batch, which starts with the oldest event and is empty only if nothing was queued when it polled. With no sender acting it lowers the count by min(count, batch), keeps the flag exactly if it was up and the count exceeded the batch, and changes nothing else. |
| `RaftKeys.KeyRoundTrip` | crates/aeon-cluster/src/log_store.rs:52-66 | A key reads as index i exactly when it is the key of i. |
| `RaftKeys.KeyNames` | crates/aeon-cluster/src/log_store.rs:47-57 | The keys spelled out: the three markers and the log prefix as text, and an index as its eight bytes, highest first. |
| `RaftKeys.KeyInjective` | crates/aeon-cluster/src/log_store.rs:52-57 | Different indices have different keys. |
| `RaftKeys.KeyOrder` | crates/aeon-cluster/src/log_store.rs:52-57 | Keys compare byte by byte as their indices compare as numbers. |
| `RaftKeys.MarkersApart` | crates/aeon-cluster/src/log_store.rs:47-50 | The three markers differ, and none lies under the log prefix. |
| `RaftLogMem.Range` | crates/aeon-cluster/src/store.rs:77-79 | The walk over a sorted map yields exactly the entries within the bounds, in index order. |
| `RaftLogMem.MemLogStore.constructor` | crates/aeon-cluster/src/store.rs:58-70 | The in-memory store starts as the empty log. |
| `RaftLogMem.MemLogStore.TryGetLogEntries` | crates/aeon-cluster/src/store.rs:73-80 | The range read answers with the log's entries in range, and panics on a range that starts after it ends. |
| `RaftLogMem.MemLogStore.GetLogState` | crates/aeon-cluster/src/store.rs:86-94 | The last id is the one stored at the highest index, and the last purged one exactly when nothing is stored. |
| `RaftLogMem.MemLogStore.ReadVote` | crates/aeon-cluster/src/store.rs:106-109 | Answers the vote of the model. |
| `RaftLogMem.MemLogStore.ReadCommitted` | crates/aeon-cluster/src/store.rs:120-123 | Answers the committed marker of the model. |
| `RaftLogMem.MemLogStore.SaveVote` | crates/aeon-cluster/src/store.rs:100-104 | Moves the model by that vote and nothing else. |
| `RaftLogMem.MemLogStore.SaveCommitted` | crates/aeon-cluster/src/store.rs:111-118 | Moves the model by that marker, cleared when none is given. |
| `RaftLogMem.MemLogStore.Append` | crates/aeon-cluster/src/store.rs:125-141 | Inserting entry by entry is the model's append: later entries overwrite earlier ones of the same index. |
| `RaftLogMem.MemLogStore.Truncate` | crates/aeon-cluster/src/store.rs:143-150 | Removing the collected keys leaves exactly the entries below the given index. |
| `RaftLogMem.MemLogStore.Purge` | crates/aeon-cluster/src/store.rs:152-161 | Removing the collected keys leaves exactly the entries above the given index, and the marker is set. |
| `RaftLogStore.ScanIsLog` | crates/aeon-cluster/src/log_store.rs:155-204 | In a well-formed database a key-ordered scan of the log prefix is the log in strictly ascending index order. |
| `RaftLogStore.LastOfScan` | crates/aeon-cluster/src/log_store.rs:190-198 | The last pair of a scan is the entry with the highest index; an empty scan means an empty log. |
| `RaftLogStore.WriteRefines` | crates/aeon-cluster/src/log_store.rs:264-409 | The one atomic write of every operation keeps the database well formed and moves its meaning exactly as the in-memory store moves. |
| `RaftLogRuns.AppendCacheIff` | crates/aeon-cluster/src/log_store.rs:313-332 | After an append the cached last id is that of the highest stored index if and only if, among the cached id and the appended ids, the first and the last at the top index are the same. |
| `RaftLogRuns.AscendingAppendAgrees` | crates/aeon-cluster/src/log_store.rs:319-322 | Appending strictly beyond the last index always satisfies that condition. |
| `RaftLogRuns.OverwriteGoesStale` | crates/aeon-cluster/src/log_store.rs:319-322 | Overwriting the last entry with one of another term leaves the old id in the cache. |
| `RaftLogRuns.CacheKeepsUp` | crates/aeon-cluster/src/log_store.rs:264-409 | A cache that mirrors the database still does after any operation, except exactly the appends that violate the condition. |
| `RaftLogRuns.ReadsLeaveAlone` | crates/aeon-cluster/src/log_store.rs:207-302 | Reading never changes the store, a stale cache included. |
| `RaftLogRuns.AnswersAgree` | crates/aeon-cluster/src/log_store.rs:207-302 | Every read answers as the in-memory store does; where that one panics on a bad range this one returns nothing. |
| `RaftLogRuns.StepAgrees` | crates/aeon-cluster/src/log_store.rs:155-409 | One operation, crash or restart gives the same reply as the reference, and keeps the two in step if and only if it is not such an append. |
| `RaftLogRuns.RunsAgree` | crates/aeon-cluster/src/log_store.rs:155-409 | Every run of operations, crashes and restarts without such an append gets the replies and ends in the state of a reference that is the in-memory store, waiting where the guard's lifetime makes purge wait. |
| `RaftLogRuns.CrashRecovers` | crates/aeon-cluster/src/log_store.rs:155-204 | A crash at any point of any such run, before or after the write, reopens to exactly the state before or after the interrupted operation, with a cache that mirrors it. |
| `RaftLogRuns.PurgeHangsIff` | crates/aeon-cluster/src/log_store.rs:399-408 | With the read guard alive through the block, purge blocks on its own lock exactly when it empties a log that had entries; with the guard dropped after the read, never. |
| `RaftLogRuns.RestartFinishesPurge` | crates/aeon-cluster/src/log_store.rs:377-409 | A purge that blocked is already durable: the restart finds it done. |
| `RaftLogPlain.PlainStepAgrees` | crates/aeon-cluster/src/log_store.rs:377-409 | Against the plain in-memory store: one such event gets its reply exactly when it does not hang, and leaves the plain log either way. |
| `RaftLogPlain.PlainRunsAgreeIff` | crates/aeon-cluster/src/log_store.rs:155-409 | Such a run gets every reply of the plain in-memory store, and ends in its state, if and only if the read guard is dropped after the read or no purge in the run empties a log that had entries. |
| `RaftLogPlain.RestartsResume` | crates/aeon-cluster/src/log_store.rs:377-409 | If the process restarts right after every such purge, the replies to those purges are all that is missing and the log ends as the plain one. |
| `RaftLogPlain.PurgeHangsAtFive` | crates/aeon-cluster/src/log_store.rs:399-408 | Append index 5 to an empty store and purge up to it: the store hangs with the guard held, and runs on with it dropped. |
| `RaftLogHistory.HistoryIs` | crates/aeon-cluster/src/log_store.rs:264-409 | After every run of operations, crashes and restarts on an empty log: vote and committed id are those saved last, the purged id that of the last purge, and an index holds the entry last appended there unless a later truncation or purge covers it. |
| `RaftLogHistory.AnswersFromHistory` | crates/aeon-cluster/src/log_store.rs:207-258 | A store that followed the run answers from that history: the last log id is that of the highest index holding an entry, the purged one only when none does; a read of a..b gives exactly the entries from a up to and without b, ascending. |
| `RaftLogHistory.StateIsOfWhatIsStored` | crates/aeon-cluster/src/log_store.rs:249-258 | From any database and after any orderly run, unless the store waits for its lock, the state it answers is that of what is stored. |
| `RaftLogHistory.RunsFollowHistory` | crates/aeon-cluster/src/log_store.rs:155-409 | Every orderly run on an empty database that never waits for its lock is followed. |
| `RaftLogHistory.AppendIsSeen` | crates/aeon-cluster/src/log_store.rs:304-340 | After entries appended in ascending order beyond everything stored, the state read next names the last of them. |
| `RaftLogHistory.RangesJoin` | crates/aeon-cluster/src/log_store.rs:207-244 | Reading a..b and then b..c is reading a..c; a..=b is a..b with the entry at b; before, at and after a bound is everything. |
| `RaftLogHistory.RefusedIff` | crates/aeon-cluster/src/store.rs:73-80 | A range is refused exactly when its bounds are the wrong way round, or at one index and both excluding it. |
| `RaftLogRuns.OthersUntouched` | crates/aeon-cluster/src/log_store.rs:264-409 | No operation touches a key that is neither a marker nor under the log prefix. |
| `RaftLogL3.ScanPrefix` | crates/aeon-types/src/state.rs:70-71 | The scan returns everything under the prefix, once, in key order. |
| `RaftLogL3.Deletes` | crates/aeon-cluster/src/log_store.rs:342-358 | The batch built from a scan removes exactly the log keys within the bounds. |
| `RaftLogL3.AppendBatch` | crates/aeon-cluster/src/log_store.rs:313-326 | The loop builds the puts of all entries in order and the id the cache will hold. |
| `RaftLogL3.LastScanned` | crates/aeon-cluster/src/log_store.rs:360-373 | The recomputed last id is that of the highest stored index. |
| `RaftLogL3.L3RaftLogStore.constructor` | crates/aeon-cluster/src/log_store.rs:200-203 | A store over a database with a given cache. |
| `RaftLogL3.L3RaftLogStore.Open` | crates/aeon-cluster/src/log_store.rs:155-204 | Opening a well-formed database never fails and caches its markers and its highest-index id. |
| `RaftLogL3.L3RaftLogStore.TryGetLogEntries` | crates/aeon-cluster/src/log_store.rs:207-244 | The filtering scan answers the entries within the bounds in index order and never meets an unreadable value. |
| `RaftLogL3.L3RaftLogStore.GetLogState` | crates/aeon-cluster/src/log_store.rs:249-258 | Answers from the cache; with a cache that mirrors the database, the last id is the one stored at the highest index, and the last purged one exactly when nothing is stored. |
| `RaftLogL3.L3RaftLogStore.ReadVote` | crates/aeon-cluster/src/log_store.rs:274-276 | Answers from the cache. |
| `RaftLogL3.L3RaftLogStore.ReadCommitted` | crates/aeon-cluster/src/log_store.rs:300-302 | Answers from the cache. |
| `RaftLogL3.L3RaftLogStore.SaveVote` | crates/aeon-cluster/src/log_store.rs:264-272 | Takes the store to the protocol's next state for that operation and keeps it well formed. |
| `RaftLogL3.L3RaftLogStore.SaveCommitted` | crates/aeon-cluster/src/log_store.rs:278-298 | Takes the store to the protocol's next state, deleting the marker when none is given. |
| `RaftLogL3.L3RaftLogStore.Append` | crates/aeon-cluster/src/log_store.rs:304-338 | Takes the store to the protocol's next state; an empty append writes and caches nothing. |
| `RaftLogL3.L3RaftLogStore.Truncate` | crates/aeon-cluster/src/log_store.rs:340-375 | Takes the store to the protocol's next state; the rescan always succeeds. |
| `RaftLogL3.L3RaftLogStore.Purge` | crates/aeon-cluster/src/log_store.rs:377-409 | Reports whether it is stuck on its own lock; the database is the protocol's next one either way, and the cache too when it is not stuck. |
| `Loads.PlanLowerBound` | crates/aeon-cluster/src/partition_manager.rs:25-32 | Any plan whatsoever needs a move for every partition above a cap or off the list. |
| `ComputeRebalance.CapsAddUp` | crates/aeon-cluster/src/partition_manager.rs:37-46 | The targets of distinct nodes add up to the number of partitions. |
| `ComputeRebalance.SourcesMeetSlots` | crates/aeon-cluster/src/partition_manager.rs:52-83 | As many partitions must leave as slots are open, so no slot and no partition is left over. |
| `ComputeRebalance.RebalanceMeetsTargets` | crates/aeon-cluster/src/partition_manager.rs:29-107 | For distinct nodes, every table (transfers included) and every iteration order, applying the moves leaves each listed node with exactly its target and no partition elsewhere. |
| `ComputeRebalance.RebalanceMovesOnce` | crates/aeon-cluster/src/partition_manager.rs:29-107 | No partition moves twice; each move takes it from its own node to another, listed one; there are as many moves as partitions off target. |
| `ComputeRebalance.RebalanceIsShortest` | crates/aeon-cluster/src/partition_manager.rs:25-28 | No sequence of reassignments that reaches the same targets is shorter. |
| `RebalanceOrder.MovesInOrder` | crates/aeon-cluster/src/partition_manager.rs:65-104 | Moves come in order: partitions of unlisted nodes first, as iterated; then those of overloaded nodes, node by node as listed and each node's as iterated; and receivers are filled in the order they are listed. |
| `RebalanceOrder.FirstIteratedGo` | crates/aeon-cluster/src/partition_manager.rs:86-104 | A listed node above its target gives up the partitions it iterates first. |
| `ComputeRebalance.ReplicasAgreeOnLoads` | crates/aeon-cluster/src/store.rs:483-490 | Two replicas that rebalance equal tables under different iteration orders end with equal counts on every node. |
| `ComputeRebalance.ReplicasMayDiffer` | crates/aeon-cluster/src/types.rs:114-118 | Two iteration orders of one table whose rebalanced tables differ: the comment's claim of identical replicas fails. |
| `RebalanceAgreement.ReplicasAgreeIff` | crates/aeon-cluster/src/types.rs:114-118 | For distinct nodes, all iteration orders give equal tables if and only if nothing is left to choose: the partitions of unlisted nodes all go to one node, and every node over target gives up all it has, to one node. The condition reads the counts alone. |
| `RebalanceAgreement.SwapDiffers` | crates/aeon-cluster/src/store.rs:483-490 | If of two partitions on the same node one moves and the other stays or goes elsewhere, exchanging them in the iteration order exchanges their fates, and the tables differ. |
| `RebalanceAgreement.ForcedEnds` | crates/aeon-cluster/src/store.rs:483-490 | Under the condition, where a partition ends is a function of its node. |
| `ComputeRebalanceCode.FirstOpen` | crates/aeon-cluster/src/partition_manager.rs:77-78 | The search finds the first entry with room left, or reports that there is none. |
| `ComputeRebalanceCode.Place` | crates/aeon-cluster/src/partition_manager.rs:77-81 | One placement takes exactly the next open slot, or changes nothing when all are taken. |
| `ComputeRebalanceCode.PartitionCounts` | crates/aeon-cluster/src/types.rs:428-434 | The counts are the loads of all nodes that serve anything. |
| `ComputeRebalanceCode.BuildTargets` | crates/aeon-cluster/src/partition_manager.rs:42-46 | The loop builds the target map, the last entry winning for a node listed twice. |
| `ComputeRebalanceCode.Classify` | crates/aeon-cluster/src/partition_manager.rs:51-63 | The loop splits the nodes into those over and those under target, with their exact excess and open slots in order. |
| `ComputeRebalanceCode.Orphans` | crates/aeon-cluster/src/partition_manager.rs:65-72 | The loop collects exactly the partitions served by unlisted nodes, in iteration order. |
| `ComputeRebalanceCode.PlaceOrphans` | crates/aeon-cluster/src/partition_manager.rs:76-83 | Orphans take the first open slots in order. |
| `ComputeRebalanceCode.PlaceExcess` | crates/aeon-cluster/src/partition_manager.rs:86-104 | One node's excess, its first partitions in iteration order, takes the next open slots. |
| `ComputeRebalanceCode.PlaceOverloaded` | crates/aeon-cluster/src/partition_manager.rs:86-104 | All excess, node by node, takes the slots after the orphans. |
| `ComputeRebalanceCode.Compute` | crates/aeon-cluster/src/partition_manager.rs:29-107 | The imperative algorithm returns exactly the moves that pair what must leave with what is open. |
| `PlanRebalance.Pick` | crates/aeon-cluster/src/rebalance.rs:146-157 | The pick is eligible, nobody eligible has more room or equal room and a lower id, and there is none only if nobody is eligible. |
| `PlanRebalance.FillPlacesAll` | crates/aeon-cluster/src/rebalance.rs:138-161 | With room in supply every peeled partition is handed on, never to its owner, each costing its receiver one slot: the early exit is never taken. |
| `PlanRebalance.FillLowersEveryDepth` | crates/aeon-cluster/src/rebalance.rs:145-160 | Handing to the roomiest lowers the room in excess of every depth by one per move until none is left. |
| `PlanRebalance.FillReceiversLevel` | crates/aeon-cluster/src/rebalance.rs:145-160 | Whoever receives ends with room at least that of any other member less one. |
| `PlanRebalanceLaws.PlanReachesCeiling` | crates/aeon-cluster/src/rebalance.rs:71-79 | No live member ends above the ceiling, and the plan has exactly one move per partition above it. |
| `PlanRebalanceLaws.PlanRaisesEveryLevel` | crates/aeon-cluster/src/rebalance.rs:71-79 | For every level up to the ceiling, what is missing below it after the plan is what was missing before less the number of moves. |
| `PlanRebalanceLaws.FloorOrCeilingIff` | crates/aeon-cluster/src/rebalance.rs:76-79 | Every live member ends at the floor or the ceiling if and only if the partitions above the ceiling cover those missing below the floor. |
| `PlanRebalanceLaws.FloorMissed` | crates/aeon-cluster/src/rebalance.rs:76-79 | Loads 2, 2, 0 give an empty plan and leave a member below the floor: the comment's claim fails. |
| `PlanRebalanceLaws.EvenSplit` | crates/aeon-cluster/src/rebalance.rs:76-79 | When the total divides evenly all live members end equal. |
| `PlanRebalanceLaws.ReceiversStayLevel` | crates/aeon-cluster/src/rebalance.rs:145-160 | A member that received ends at most one above any other live member. |
| `PlanRebalanceLaws.PlanMovesDown` | crates/aeon-cluster/src/rebalance.rs:80-86 | Moves come once each in ascending partition order, off settled partitions of a live member above the ceiling, to a live member below it. |
| `RebalanceOrder.LowestGo` | crates/aeon-cluster/src/rebalance.rs:114-147 | A live member above the ceiling gives up its lowest-numbered partitions. |
| `PlanRebalanceLaws.PlanIsShortest` | crates/aeon-cluster/src/rebalance.rs:90-168 | No sequence of reassignments that brings every live member to the ceiling is shorter. |
| `PlanRebalanceLaws.PlanIsFairest` | crates/aeon-cluster/src/rebalance.rs:145-160 | No plan with at most as many moves leaves less missing below any level up to the ceiling. |
| `PlanRebalanceLaws.PlanConserves` | crates/aeon-cluster/src/rebalance.rs:90-168 | What the live members own between them does not change. |
| `PlanRebalanceLaws.PlanSettles` | crates/aeon-cluster/src/rebalance.rs:88-89 | Planning again once the moves have completed yields the empty plan. |
| `PlanRebalanceLaws.PlanIsDeterministic` | crates/aeon-cluster/src/rebalance.rs:114-117 | Neither the hash map's iteration order nor the order or repetition of the live list changes the plan. |
| `PlanRebalanceCode.FillBuckets` | crates/aeon-cluster/src/rebalance.rs:101-113 | Every live member's bucket holds exactly its settled partitions, in iteration order. |
| `PlanRebalanceCode.SortBuckets` | crates/aeon-cluster/src/rebalance.rs:114-117 | Each bucket becomes what ascending iteration would have filled. |
| `PlanRebalanceCode.Total` | crates/aeon-cluster/src/rebalance.rs:119 | The sum of the bucket sizes is the total load of the live members. |
| `PlanRebalanceCode.Deficits` | crates/aeon-cluster/src/rebalance.rs:124-134 | The vector holds each member's room below the ceiling. |
| `PlanRebalanceCode.PickTarget` | crates/aeon-cluster/src/rebalance.rs:149-156 | The scan finds the pick. |
| `PlanRebalanceCode.Peel` | crates/aeon-cluster/src/rebalance.rs:139-160 | One owner's surplus with the early exit hands out exactly what handing out without it would. |
| `PlanRebalanceCode.Compute` | crates/aeon-cluster/src/rebalance.rs:90-168 | The imperative algorithm returns the plan, for every iteration order. |
| `InitialAssignment.DealtMeetsTarget` | crates/aeon-cluster/src/partition_manager.rs:10-18 | Round robin gives the i-th of distinct nodes exactly its rebalancing target. |
| `InitialAssignment.RebalanceLeavesInitial` | crates/aeon-cluster/src/partition_manager.rs:10-107 | After the initial assignment over any non-empty list of distinct nodes, compute_rebalance over it has no moves, for every count and iteration order. |
| `InitialAssignment.PlanLeavesInitial` | crates/aeon-cluster/src/partition_manager.rs:10-18 | Nor has plan_rebalance when the live members are those nodes in any order. |
| `ClusterState.PartitionsRemain` | crates/aeon-cluster/src/store.rs:406-516 | No request of any kind removes a partition. |
| `ClusterState.RejectedChangesNothing` | crates/aeon-cluster/src/store.rs:412-457 | A request answered with an error leaves the whole state as it was. |
| `ClusterState.ChangesHandsIff` | crates/aeon-cluster/src/store.rs:406-516 | The exact requests on which the node serving a partition changes, read off the table before, and the node it changes to. |
| `ClusterState.ReplyMeansDone` | crates/aeon-cluster/src/store.rs:412-464 | When a transfer is accepted, that it still runs at its source, that a completion is idempotent, and that after an abort the same transfer can begin again. |
| `ClusterState.OthersAreAccepted` | crates/aeon-cluster/src/store.rs:406-518 | Only a transfer begun or completed can be refused, and a registry command that reaches this far. |
| `ClusterState.RequestsStayApart` | crates/aeon-cluster/src/store.rs:406-516 | A request for one partition touches no other entry, and table, offsets and configuration never change together. |
| `ClusterState.InTransferAsBegun` | crates/aeon-cluster/src/store.rs:412-433 | After any log at all, a partition in transfer is in the transfer that its last accepted BeginTransfer started. |
| `ClusterState.OnlyCompletionHandsOver` | crates/aeon-cluster/src/store.rs:412-464 | After any log, a transfer request whose abort names the source in flight hands a partition over only by completing the last accepted transfer, from its source to its target. |
| `ClusterState.LateAbortTakesBack` | crates/aeon-cluster/src/store.rs:458-464 | An abort that arrives after the completion takes the partition back: the guard on aborts is needed. |
| `Checkpoints.MergeOffsets` | crates/aeon-cluster/src/store.rs:471-482 | The merge loop computes the pointwise merge in whatever order the submission is walked. |
| `Checkpoints.OffsetsAreHighWater` | crates/aeon-cluster/src/store.rs:471-482 | After any log each submitted partition's offset is the larger of zero and the largest submitted, nothing else is held, and the casts between signed and unsigned never wrap. |
| `Checkpoints.OrderAndReplayDoNotMatter` | crates/aeon-cluster/src/store.rs:471-482 | Logs with the same submissions, reordered, repeated or interleaved with anything, give the same offsets. |
| `Checkpoints.OffsetsNeverRegress` | crates/aeon-cluster/src/store.rs:473-474 | No request makes an offset go back. |
| `StateMachine.ApplyConcat` | crates/aeon-cluster/src/store.rs:619-680 | Where batches are cut makes no difference, panics included. |
| `StateMachine.StampedWithLast` | crates/aeon-cluster/src/store.rs:628-667 | The machine carries the id of the last entry, stamped into the state, and the last membership. |
| `CommittedLog.ApplyAllIsRunLog` | crates/aeon-cluster/src/store.rs:628-668 | Applying a log is running its requests, registry commands aside, in order and each once: the same state up to the stamped index and term, and a panic exactly when they panic. |
| `CommittedLog.ConfigIsLast` | crates/aeon-cluster/src/store.rs:465-469 | After every log each configuration key has the value it was given last, and no key has one that was not. |
| `CommittedLog.TableIsAsLastSettled` | crates/aeon-cluster/src/store.rs:405-518 | After every log each partition is as the last accepted request about it says: assigned or reverted to its node, in the transfer begun, completed at the target, rebalanced to a listed node, or dealt to node p modulo their number; and it has no entry if there was none. |
| `CommittedLog.PanicsIff` | crates/aeon-cluster/src/store.rs:498-518 | An entry panics exactly when it asks for an initial assignment to no nodes on an empty table. |
| `CommittedLog.RefusedIff` | crates/aeon-cluster/src/store.rs:415-457 | Registry aside, an entry is answered with an error exactly when it begins a transfer away from its owner or completes one that is neither in flight nor done; it then changes nothing but the stamp. |
| `StateMachine.OrderOnlyMattersToRebalance` | crates/aeon-cluster/src/store.rs:483-490 | Without a rebalance, replicas that iterate differently agree on every log. |
| `StateMachine.OwnedListIs` | crates/aeon-cluster/src/store.rs:280-288 | The broadcast list is exactly the partitions the node serves, ascending. |
| `StateMachine.InstallRestores` | crates/aeon-cluster/src/store.rs:706-760 | Installing a built snapshot puts machine, read copy and watch where the builder's state was. |
| `StateMachine.NextKeepsInStep` | crates/aeon-cluster/src/store.rs:329-373 | Every apply, builder hand-over, build, install, watch installation or restart, with or without a disk, keeps a replica equal to the fold of its prefix and its watch current, fails only where the log itself panics, and leaves it able to restart. |
| `StateMachine.RunsStayInStep` | crates/aeon-cluster/src/store.rs:525-760 | So in every run of them, with snapshots built while applying goes on. |
| `StateMachine.DiskAndKeyStay` | crates/aeon-cluster/src/store.rs:525-760 | A node keeps its disk and key through every run of events, or goes on without a disk. |
| `StateMachine.ReplicasConverge` | crates/aeon-cluster/src/store.rs:525-760 | Two replicas that have applied equally much, however they got there and persistent or not, have equal machines; without a rebalance in the log, whatever their iteration orders. |
| `StateMachine.LateBuilderIff` | crates/aeon-cluster/src/store.rs:525-580 | A builder that finishes after other snapshots were received moves what the disk covers backwards exactly when the last one received, or the one saved before, covers more than its copy. |
| `StateMachine.SnapshotThenTail` | crates/aeon-cluster/src/store.rs:706-760 | For every log and cut point, snapshot, then install or restart, then the tail equals the whole log. |
| `StateMachine.WatchIsCurrent` | crates/aeon-cluster/src/store.rs:280-296 | After an apply or an install that took, the watch shows exactly the node's list and woke its subscriber exactly when it changed; the read copy equals the state. |
| `StateMachine.InstallOutcome` | crates/aeon-cluster/src/store.rs:706-760 | By key, seal and content: a node with a key is left alone by bytes under another seal; all other bytes are persisted, and after that a node with a disk can restart exactly when they have its seal and decode, which is also exactly when they become its machine. |
| `StateMachine.UndecodableBlocksRestart` | crates/aeon-cluster/src/store.rs:706-742 | A fresh node that receives bytes which pass its seal and do not decode persists them, stays as it is, and cannot restart. |
| `StateMachineStore.StateMachineStore.constructor` | crates/aeon-cluster/src/store.rs:244-260 | A fresh machine, read copy and no watch. |
| `StateMachineStore.StateMachineStore.NewPersistent` | crates/aeon-cluster/src/store.rs:307-373 | Succeeds exactly when the persisted snapshot can be read, and then restores it. |
| `StateMachineStore.StateMachineStore.BroadcastOwnedPartitions` | crates/aeon-cluster/src/store.rs:280-296 | The watch becomes the sorted list, waking only on a change. |
| `StateMachineStore.StateMachineStore.ApplyRequest` | crates/aeon-cluster/src/store.rs:406-516 | The in-place updates compute the request's outcome, including the panic on an empty node list. |
| `StateMachineStore.StateMachineStore.ApplyBatch` | crates/aeon-cluster/src/store.rs:619-680 | The loop is the fold of the batch and publishes once at the end; response k is the reply to entry k on the machine the entries before it leave. |
| `StateMachineStore.StateMachineStore.GetSnapshotBuilder` | crates/aeon-cluster/src/store.rs:682-698 | The builder gets the current machine, and the snapshot counter moves. |
| `StateMachineStore.StateMachineStore.BuildSnapshot` | crates/aeon-cluster/src/store.rs:525-580 | The snapshot is of the builder's copy, persisted when a store is configured; the machine does not move. |
| `StateMachineStore.StateMachineStore.GetCurrentSnapshot` | crates/aeon-cluster/src/store.rs:762-801 | Nothing before the first entry, otherwise the snapshot of the current machine. |
| `StateMachineStore.StateMachineStore.InstallSnapshot` | crates/aeon-cluster/src/store.rs:706-760 | The in-place install, with its three exits, is the protocol's install. |
| `StateMachineStore.PartitionsForNode` | crates/aeon-cluster/src/types.rs:403-409 | The filter collects exactly the partitions the node serves, in iteration order. |
| `StateMachineStore.Rebalance` | crates/aeon-cluster/src/store.rs:483-490 | Computing the moves and assigning them one by one is the rebalanced table. |
| `StateMachineStore.AssignEach` | crates/aeon-cluster/src/store.rs:507-511 | Assigning one by one is the table of the plan. |
| `Transfer.TrackerFollowsHistory` | crates/aeon-cluster/src/transfer.rs:50-140 | Whatever is called on a tracker, in any order: since the last reset the accepted phase changes are begin, cut over, finish, in that order, or aborted at a point between; a call is accepted exactly when it continues that; and the state names its source and target. |
| `Transfer.TransferTracker.constructor` | crates/aeon-cluster/src/transfer.rs:50-55 | A tracker starts idle. |
| `Transfer.TransferTracker.Begin` | crates/aeon-cluster/src/transfer.rs:58-74 | Succeeds exactly from idle and records source and target. |
| `Transfer.TransferTracker.BeginCutover` | crates/aeon-cluster/src/transfer.rs:77-91 | Succeeds exactly from bulk sync and keeps source and target. |
| `Transfer.TransferTracker.Finish` | crates/aeon-cluster/src/transfer.rs:94-106 | Succeeds exactly from cutover and returns the target. |
| `Transfer.TransferTracker.Abort` | crates/aeon-cluster/src/transfer.rs:109-124 | Succeeds exactly from an active state and returns the source. |
| `Transfer.TransferTracker.UpdateProgress` | crates/aeon-cluster/src/transfer.rs:127-135 | Changes the progress of a bulk sync and nothing else. |
| `Transfer.TransferTracker.Reset` | crates/aeon-cluster/src/transfer.rs:138-140 | Back to idle from anywhere. |
| `Driver.CompleteIsApplied` | crates/aeon-cluster/src/store.rs:434-457 | What a drive sees of its CompleteTransfer is what the state machine does to that entry. |
| `Driver.MoveFits` | crates/aeon-cluster/src/partition_driver.rs:264-501 | One move of a drive never fails a tracker transition and leaves its trail, tracker and table entry fitting its next place. |
| `Driver.StepKeepsInv` | crates/aeon-cluster/src/partition_driver.rs:228-501 | Calls, moves of any drive, other writers and late proposals all keep the invariant of the whole driver. |
| `Driver.RunKeepsInv` | crates/aeon-cluster/src/partition_driver.rs:228-634 | So over every interleaving. |
| `Driver.OneDrivePerPartition` | crates/aeon-cluster/src/partition_driver.rs:240-262 | At most one drive per partition is in flight. |
| `Driver.TrackersNeverFail` | crates/aeon-cluster/src/partition_driver.rs:428-501 | No tracker transition ever returns an error, propagated or discarded, and no tracker outlives its drive. |
| `Driver.CompleteOnlyAfterAll` | crates/aeon-cluster/src/partition_driver.rs:281-379 | CompleteTransfer is proposed only after bulk sync, chain state and cutover succeeded, in that order. |
| `Driver.OkMeansOwned` | crates/aeon-cluster/src/partition_driver.rs:380-425 | A drive returns success exactly when all of it happened and the table read Owned(target) right after its entry was applied; it then asked for no abort. One that returns failure never saw that, and asked for an abort exactly when it had begun the bulk sync. |
| `DriverOutcome.FailsIff` | crates/aeon-cluster/src/partition_driver.rs:228-425 | Over every interleaving, a drive that has returned failed if and only if it was refused at the start, one of its awaited calls failed, or its completion was refused. |
| `DriverOutcome.DriveReturns` | crates/aeon-cluster/src/partition_driver.rs:228-425 | Thirteen moves of its own bring every drive to its return, whatever else happens. |
| `DriverOutcome.UndisturbedSucceeds` | crates/aeon-cluster/src/partition_driver.rs:228-425 | For every partition and source and over every interleaving: a drive whose partition nobody else touches or drives, and whose awaited calls all succeed, returns success after eleven moves with the partition owned by the target. |
| `DriverOutcome.AloneSucceeds` | crates/aeon-cluster/src/partition_driver.rs:228-425 | In particular a drive left alone, of any transfer to this node, hands the partition over. |
| `DriverOutcome.DoubtfulProposalsLand` | crates/aeon-cluster/src/partition_driver.rs:387-425 | A proposal reported as failed may still commit: the drive fails and the partition goes to its target all the same, or back to the source later. |
| `Driver.UndisturbedHandover` | crates/aeon-cluster/src/partition_driver.rs:264-501 | While nobody else touches the partition, the completion is accepted and hands it from source to target, and an abort names the source in flight and takes the partition from nobody. |
| `Driver.AbortTakesIff` | crates/aeon-cluster/src/partition_driver.rs:475-501 | In any state a drive's abort takes the partition from the node serving it if and only if that node is not the source the drive was called with. |
| `Driver.OrphanAbortTakesIff` | crates/aeon-cluster/src/store.rs:458-464 | The same for an abort that commits after its proposer gave up on it. |
| `Driver.CompletionTakesIff` | crates/aeon-cluster/src/store.rs:434-457 | A drive's completion hands the partition over if and only if it is in transfer to that target from another node. |
| `DriverOutcome.OrphanCompletionTakesIff` | crates/aeon-cluster/src/store.rs:434-457 | A completion in doubt that commits later hands the partition over if and only if it is in transfer to that node from another, and concerns no other partition. |
| `DriverOutcome.DoubtsAddUp` | crates/aeon-cluster/src/partition_driver.rs:387-425 | Over every run, the proposals in doubt that have committed and those still open are the ones left in doubt: each commits at most once. |
| `DriverOutcome.OutcomeIsRecorded` | crates/aeon-cluster/src/partition_driver.rs:380-425 | A completion is recorded as refused exactly when the partition was neither on its way to the target nor there, and otherwise as applied, owned by the target. |
| `DriverOutcome.ErrorsAreCounted` | crates/aeon-cluster/src/partition_driver.rs:428-501 | The count of tracker errors rises exactly when a tracker refuses the drive's call, or is missing where the error is propagated; a propagated error ends the drive. |
| `Driver.StaleAbortSteals` | crates/aeon-cluster/src/partition_driver.rs:470-501 | A drive that is overtaken aborts all the same, and takes the partition from its new owner. |
| `Crc32.TableStepIsShiftIn` | sdks/nodejs/aeon.js:229-235 | One table lookup equals shifting eight message bits into the reflected register of section 8 of RFC 1952. |
| `Crc32.BuildTable` | sdks/nodejs/aeon.js:220-227 | The table holds the register after each single byte. |
| `Crc32.Crc32` | sdks/nodejs/aeon.js:229-235 | The table-driven checksum equals the bit-at-a-time checksum for every buffer. |
| `Crc32Bits.DigitsChecksum` | sdks/nodejs/aeon.js:220-235 | The checksum of the digits 1 to 9 is 0xCBF43926, the check value of this CRC. |
| `Crc32Bits.ShiftInByExponents` | sdks/nodejs/aeon.js:220-227 | The register is the shift register of the polynomial of section 8 of RFC 1952: bits move down one place, and when the one that leaves differs from the message bit exactly those at the exponents 26, 23, 22, 16, 12, 11, 10, 8, 7, 5, 4, 2, 1 and 0 change. |
| `Crc32Bits.ShiftedByIs` | sdks/nodejs/aeon.js:220-235 | For every register and byte, the steps on 32-bit patterns with shifts and exclusive-or are those on numbers. |
| `Crc32.RegisterInjective` | sdks/nodejs/aeon.js:229-235 | Equal registers after equal bytes were equal before: every step is a bijection. |
| `Crc32.SealedIffResidue` | sdks/nodejs/aeon.js:256-263 | A frame's checksum matches exactly when the register run over all of it leaves one fixed residue. |
| `Crc32.FrameBitIs` | sdks/nodejs/aeon.js:229-235 | Bit i of a frame, as the checksum takes them, is bit i mod 8 of byte i div 8. |
| `Crc32.BitBurstDetected` | sdks/nodejs/aeon.js:256-263 | Two frames of one length that match and agree outside 32 consecutive bits, aligned to bytes or not and the trailer included, are equal. |
| `Crc32.BurstDetected` | sdks/nodejs/aeon.js:256-263 | In particular two that differ only within four consecutive bytes. |
| `BatchWire.SerializeBatchRequest` | crates/aeon-engine/src/batch_wire.rs:23-43 | The writer produces header, length-prefixed events and checksum, counts and lengths truncated to their fields. |
| `BatchWire.DecodeBatchRequest` | sdks/nodejs/aeon.js:249-282 | The reader computes the decoding, with its four kinds of rejection at the right event. |
| `BatchWire.AcceptedIff` | sdks/nodejs/aeon.js:249-282 | A frame is accepted as a batch exactly when it is that batch's encoding, with possibly unread bytes before a matching checksum. |
| `BatchWire.RoundTripIff` | sdks/nodejs/aeon.js:249-282 | What the engine writes the SDK reads back if and only if every count and length fits its field. |
| `BatchWire.Layout` | sdks/nodejs/aeon.js:238-282 | Byte by byte: id in bytes 0 to 7, count in 8 to 11, each event's length and bytes where those before it end, and the checksum of all that in the last four, lowest byte first. |
| `BatchWire.CorruptBitsRejected` | sdks/nodejs/aeon.js:256-263 | Changing any of 32 consecutive bits anywhere in a matching frame of any length is reported as a checksum mismatch. |
| `BatchWire.CorruptBurstRejected` | sdks/nodejs/aeon.js:256-263 | Changing up to four consecutive bytes anywhere in a matching frame of any length is reported as a checksum mismatch. |
| `BatchWire.CorruptByteRejected` | sdks/nodejs/aeon.js:256-263 | So is changing any one byte. |
| `LengthPrefix.PackReads` | sdks/python/aeon_transport.py:817-819 | The prefix of a packed frame is its length and what follows it is the frame. |
| `LengthPrefix.PackAllUnique` | sdks/python/aeon_transport.py:817-819 | Two packings of the same bytes agree frame by frame as far as both go. |
| `StreamFraming.RunKeepsInv` | sdks/python/aeon_transport.py:855-897 | Over every interleaving of feeds and reads, the bytes fed are the frames returned, the length in hand and the buffer, in order. |
| `StreamFraming.BytesConserved` | sdks/python/aeon_transport.py:868-886 | Consumed plus buffered bytes are exactly the bytes fed. |
| `StreamFraming.FramesArePrefix` | sdks/python/aeon_transport.py:889-897 | For frames up to 16 MiB in any fragmentation, the frames read are a prefix of the frames written, and none is refused as oversize. |
| `StreamFraming.StarvedHasAll` | sdks/python/aeon_transport.py:889-897 | A reader that starves after everything was fed has returned every frame. |
| `StreamFraming.ReaderCatchesUp` | sdks/python/aeon_transport.py:875-897 | From every reachable state the reader's own steps take it to where it starves or refuses a frame. |
| `StreamFraming.AllFramesReturned` | sdks/python/aeon_transport.py:875-897 | Whenever whole frames within the limit have been fed, it can return all of them without another byte. |
| `StreamFraming.LimitAtTheEdge` | sdks/python/aeon_transport.py:889-897 | A frame of 16777216 bytes is returned; one of 16777217 is refused after its length. |
| `StreamFraming.NoLostWakeup` | sdks/python/aeon_transport.py:875-886 | A parked reader that could proceed will be woken. |
| `StreamFraming.EveryFeedArrives` | sdks/python/aeon_transport.py:863-873 | Whenever it comes, every feed's bytes arrive in order, and the stream is closed exactly once some feed ended it. |
| `StreamFraming.SleepsUntilFed` | sdks/python/aeon_transport.py:875-886 | A reader that finds too few bytes on an open stream takes no step until the next feed. |
| `StreamFraming.EofExactly` | sdks/python/aeon_transport.py:875-886 | End of file is raised exactly at a check that finds the stream closed with too few bytes left. |
| `StreamFraming.FragmentationIndependent` | sdks/python/aeon_transport.py:868-897 | What a starved reader has returned depends on the bytes alone, well formed or not. |
| `StreamFraming.WtStreamBuffer.constructor` | sdks/python/aeon_transport.py:863-866 | Empty, open, not signalled. |
| `StreamFraming.WtStreamBuffer.Feed` | sdks/python/aeon_transport.py:868-873 | Appends, remembers the end, signals. |
| `StreamFraming.WtStreamBuffer.ReadExact` | sdks/python/aeon_transport.py:875-886 | Returns the next n bytes of what was buffered and arrived, and waits for no more arrivals than needed. |
| `StreamFraming.WtStreamBuffer.ReadLenPrefixed` | sdks/python/aeon_transport.py:889-897 | Returns the first frame of what was buffered and arrived; refuses a length above 16 MiB; otherwise there was no whole frame. |

## Left out

- openraft, QUIC, TLS, tokio and the storage engine: foreign code. Taken from them: a committed log in one order, a FIFO bounded channel, an atomic write batch, a key-ordered prefix scan, exclusive locks.
- OverloadCannotStick: assumes that no counted send gave up; `OverloadSticksIff` is the exact statement for any number of them.
- Capacity zero: the channel's constructor refuses it at run time; the model includes it, and the zero cases of `OverloadSticksIff` and `FlagLostIff` are about the protocol only.
- PushBuffer atomics: read as sequentially consistent; the relaxed orderings of the counter are not modelled, nor is the fairness of the channel's waiters. The two halves' shared cells are one record of the protocol state, not separate heap objects.
- SpillJustified: the counter is an integer, not a wrapping 64-bit word; the bound shows that it never goes below zero and that it wraps only beyond 2^64 justified counts.
- Serialization: bincode, JSON and the sealing of snapshots are an inverse pair with a failure case each, not bytes.
- I/O errors of the key-value store are not modelled: every call of it succeeds. Deserialization failures are, and are shown not to arise in a database only this store has written its keys to.
- RaftLogMem.MemLogStore.TryGetLogEntries: the panic on a bad range follows the documented contract of the sorted map.
- RunsAgree: its reference waits where the store does; `PlainRunsAgreeIff` is the comparison with one that never waits. Both assume of each append that it does not give the top index a second id, which `StepAgrees` shows to be exactly the condition.
- ChangesHandsIff: assumes that a rebalance lists distinct nodes; the callers build the list from map keys.
- RunsStayInStep: a replica's iteration order is one function of the table's contents over its whole run, restarts included.
- ReplicasConverge: assumes equal iteration orders or a log without a rebalance; `ReplicasAgreeIff` says exactly when two orders agree on a rebalance. Registry commands act on node-local state outside the model.
- UndisturbedHandover: for a drive that nobody disturbs; `AbortTakesIff` and `CompletionTakesIff` say exactly what a drive's requests do in any state, and `StaleAbortSteals` shows a disturbed one. Segment, chain and cutover payloads of a transfer are successes or failures, not data. The watcher's polling loop is a call at any time with any arguments.
- Driver: drives are steps of a protocol over values, one step per await or lock, not methods of an object; the trackers are a map of states, and `TransferTracker` is the object one of them is. Aliasing of the driver's shared handles is not captured.
- L3RaftLogStore: the database handle is a field of the one store object; cloned readers that share it are not separate objects.
- DecodeBatchRequest: events are the raw slices; the codec that decodes each is not modelled, nor is the batch response format.
- plan_drain, partition queries, cluster bootstrap, join and forwarding: only more of what is here, or plumbing.
- The engine's pipelines, connectors other than the push buffer, state tiers, the Merkle and proof-of-history chains, the CLI and the other SDKs.
