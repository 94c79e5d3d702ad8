# Liftbridge in Dafny

Liftbridge is a replicated, log-structured message stream server. This project models its
protocols and its commit log in Dafny and proves what they promise. `dafny verify
dfyconfig.toml` checks all of it.

## What is modelled

**Replication and leader change.** `Replication` is one leader epoch of a partition as a
transition system: publishes, fetches, responses that may be lost, delayed or duplicated,
in-sync replica (ISR) changes, and the commit loop, which reads the ISR and commits in two
steps. `Partition` is the object that takes these steps. `EpochTruncation` is what happens
at a change of leader: the follower asks for the last offset of its latest epoch and
truncates. `Replication` then chains epochs together, `Failover` lets every replica take
its own steps across epochs, `RetainedLogs` carries the truncation over to logs that
retention has shortened, `CommitConditions` says when commits are safe at all, and
`Publishing` what a publisher can rely on.

**The commit log.** `Messages` and `SegmentedLog` are plain and segmented logs as values,
`CommitLog` the objects that append, roll and truncate, `EpochCache` the leader epoch
cache. `KeyScan` is the concurrent key scan of compaction, one atomic action per step;
`Compaction` rewrites the segments, `Retention` deletes segments, and `Cleaning` runs both
against a log that is being appended to and rolled. `CommittedReader` is a
reader of committed messages down to byte positions, interleaved with appends, rolls and
watermark advances; `Reader` is the object. `HWWaiters` is how readers wait for the high
watermark (HW).

**Bytes on disk.** `ByteOrder`, `MessageCodec`, `Encoders`, `MessageSets` and `Index` are
the message format, the two-pass encoder, message sets and the index file with its growth,
shrinking and rebuilding.

**The cluster metadata.** `MetadataSpec` and `MetadataLaws` are the streams, leaders, ISRs
and epochs under the operations of the Raft log, applied live or replayed with tombstones,
and snapshots; `LeaderEpochs` says what each operation does and that an epoch has one
leader; `Recovery` compares a restarted server with one that never stopped; `Fsm` is the
server's state machine. `Activity` is the activity stream.

**Consumer groups.** `GroupSpec` says what joins, leaves and deletions do to assignments,
`GroupLaws` what they do to the members and that what moves is shared out fairly;
`ConsumerHeap` and `Groups` are the heaps and the group object that compute it.

Objects the source updates in place are classes whose methods are proved against functions
on values; the theorems are about those functions. Go's map iteration order, goroutine
schedules and the network are nondeterministic choices or arbitrary step sequences. Raft is
a committed log, files are byte sequences, time is a parameter.

## Where the code does not do what one would expect

The members named state each of these, with the exact condition under which the expected
property does hold where the code has one.

- A leader epoch learned from messages is recorded at its first message, while one the
  leader opened itself is recorded at the message before. The answer to a follower is then
  one too high and the follower keeps one message too many (`RecordedStartDiverges`,
  `SharedEpochTruncation`).
- An epoch opened on an empty log is recorded at -1, which is also "no later epoch"
  (`EpochOpenedOnEmptyLogDiverges`).
- A leader that wrote nothing keeps its epoch in its cache. If it then fetches messages of
  an earlier epoch, its cache no longer goes with its log (`EmptyTermBreaksCache`,
  `CachesMatchIff`).
- Retention that empties the log raises the last start in the cache to the log end. The
  epoch of the next leader, which starts one offset before, is not recorded
  (`AssignKeepsTrimmedIff`).
- `becomeLeader` updates only its own ISR offset. If an offset left from an earlier
  leadership is above the member's log and the watermark, the member may lack what is
  committed next (`CommitsHeldIff`).
- A replica rejoins the ISR if it was caught up some time within the maximum lag. If it
  misses a committed message by then and is elected, the message is lost
  (`LaggingRejoinLosesCommitted`, `ISRHoldsIff`).
- With `minISR` at most 0 an empty ISR commits offset 0 of an empty log
  (`WatermarkInLogIff`), and with replication factor 1 a batch without ALL messages is
  committed whatever `minISR` is (`MinISRRespectedIff`).
- A follower that gets no answer truncates at its own watermark, which may lie below
  messages already committed (`FallbackKeepsIff`).
- A message larger than the replication response is never sent: `Replicate` returns an
  empty batch forever.
- The commit log's own NewReader, asked for committed messages from a negative offset of a
  non-empty log with nothing committed, reads uncommitted ones
  (`UnguardedReadsUncommitted`). Subscriptions never ask for a negative offset
  (server/partition.go:571-600).
- Compaction takes a message without a key for a later value of the empty key
  (`EmptyKeyIff`).
- Compaction replaces the leader epoch cache by what it scanned. An epoch that the log
  learned since is forgotten unless it starts at or behind the first segment rolled since
  (`EpochsForgotten`); one opened by the leader starts one offset too early for that
  (`OpenedEpochForgotten`).
- A header with a nil value is written as size -1 and cannot be read back, and of 65536
  headers or more only the first count modulo 65536 are (`HeadersRoundTrip`,
  `AllHeadersBack`).
- Shrinking an index cuts the file but not the size the index believes in
  (`IndexFile.WriteAt`).
- A reader that comes while the watermark is past the end of a readonly log is not told
  when the log reaches it (`EndToldIff`).
- Retention limits can be reordered only if write times are in order (`AgeOrder`).
- Finishing recovery puts this server back into the ISR of every partition it leads, and
  replay does not put it there when it is made a leader. So a recovered server and one that
  never stopped may differ in its own membership (`RecoveryExact`,
  `ShrunkLeaderDiverges`); a snapshot forgets tombstones (`SnapshotRestore`).
- After a restore from a snapshot with nothing to replay, recovery never finishes and the
  restored streams are never started (`StartsIffReplayed`).
- With publish acknowledgements off, events of the activity stream are recorded as
  published that never were (`PublishedInOrderIff`).

## Model

| member | source | states |
|---|---|---|
| BinarySearch.Search | server/commitlog/util.go:11-20 | Binary search returns a boundary of any predicate, and on a monotone one the index that separates false from true |
| EpochCache.AssignKeepsSorted | server/commitlog/leader_epoch_cache.go:231-251 | Recording an epoch keeps epochs strictly increasing and start offsets non-decreasing |
| EpochCache.ClearLatestLaw | server/commitlog/leader_epoch_cache.go:103-124 | ClearLatest(o) keeps order, keeps exactly the entries below o, and keeps the epoch of every offset below o |
| EpochCache.ClearEarliestKeepsSorted | server/commitlog/leader_epoch_cache.go:129-165 | ClearEarliest keeps epochs strictly increasing and starts non-decreasing |
| EpochCache.ClearEarliestKeepsEpochs | server/commitlog/leader_epoch_cache.go:129-165 | ClearEarliest(o) on a cache with an earlier entry keeps the epoch of every offset at or above o |
| EpochCache.ClearEarliestRaisesAnswers | server/commitlog/leader_epoch_cache.go:129-165 | ClearEarliest(o) turns each existing lookup answer S into max(S, o) |
| EpochCache.RebaseKeepsSorted | server/commitlog/leader_epoch_cache.go:169-188 | Adding the entries of another cache from an offset on keeps the order |
| EpochCache.RebasedAdds | server/commitlog/leader_epoch_cache.go:169-188 | Rebasing onto a cache that ends before the other starts adds exactly the other's newer entries, as they are |
| EpochCache.LeaderEpochCache.Assign | server/commitlog/leader_epoch_cache.go:75-79 | Assign keeps the cache ordered and makes the new state the assigned one |
| EpochCache.LeaderEpochCache.FindEpoch | server/commitlog/leader_epoch_cache.go:221-229 | The binary search finds the start of the first epoch at or above the one asked for |
| EpochCache.LeaderEpochCache.LastOffsetForLeaderEpoch | server/commitlog/leader_epoch_cache.go:84-92 | The answer is the start of the first later epoch, with the 64-bit wrap of epoch + 1, or -1 |
| EpochCache.LeaderEpochCache.ClearLatest | server/commitlog/leader_epoch_cache.go:103-124 | The filtering loop computes ClearedLatest and keeps the cache ordered |
| EpochCache.LeaderEpochCache.ClearEarliest | server/commitlog/leader_epoch_cache.go:129-165 | The loop computes ClearedEarliest and keeps the cache ordered |
| EpochCache.LeaderEpochCache.Rebase | server/commitlog/leader_epoch_cache.go:169-188 | The loop computes Rebased and keeps the cache ordered |
| SegmentedLog.FindSegment | server/commitlog/util.go:11-20 | The search returns the first segment whose next offset is above the offset, or their number |
| SegmentedLog.FlattenIncreasing | server/commitlog/segment.go:286-295 | The segments laid end to end are a log with increasing offsets below the next offset |
| SegmentedLog.TruncatedChain | server/commitlog/commitlog.go:548-617 | Truncation leaves a well-formed list of segments |
| SegmentedLog.TruncatedFlatten | server/commitlog/commitlog.go:548-617 | Truncating the segments is dropping every message at or above the offset from the plain log, on every reachable log |
| SegmentedLog.TruncatedNextOffset | server/commitlog/commitlog.go:548-617 | On a gap-free log, for an offset from the first base to the log end, the offset becomes the next one assigned |
| CommitLogs.Segment.constructor | server/commitlog/segment.go:77-105 | A new segment is valid and empty at its base offset |
| CommitLogs.Segment.WriteMessageSet | server/commitlog/segment.go:333-363 | Writing concatenates the batch and keeps position, first and last offset and write times in agreement with the messages |
| CommitLogs.CommitLog.CheckAndPerformSplit | server/commitlog/commitlog.go:669-713 | A roll happens exactly if the bytes of the active segment have reached its maximum, or the maximum age has passed since its first message; it changes neither contents nor next offset |
| CommitLogs.CommitLog.Append | server/commitlog/commitlog.go:221-238 | Append writes behind the log each message of the batch with its key, value, size, timestamp and leader epoch, from the next offset on; with concurrency control it succeeds if and only if the expected offset is the next one; on an error nothing changes |
| CommitLogs.CommitLog.AppendMessageSet | server/commitlog/commitlog.go:244-254 | Replicated messages are concatenated with the offsets they have |
| CommitLogs.CommitLog.RecordEpochs | server/commitlog/commitlog.go:256-276 | The append loop records in the epoch cache each message that opens an epoch above the last one |
| CommitLogs.CommitLog.Truncate | server/commitlog/commitlog.go:548-617 | Contents become the messages below the offset, the cache is cleared behind it, and on a gap-free log the offset is the next one |
| CommitLogs.CommitLog.NewLeaderEpoch | server/commitlog/commitlog.go:465-467 | A new epoch is recorded at the offset before the next one, on a gap-free log from 0 its length minus one |
| CommitLogs.CommitLog.LastOffsetForLeaderEpoch | server/commitlog/commitlog.go:472-478 | The answer is the cache's, or the offset before the next one when the cache has no later epoch |
| EpochTruncation.AppendMatches | server/commitlog/commitlog.go:256-276 | Every append keeps the agreement between log and epoch cache |
| EpochTruncation.NewLeaderEpochMatches | server/partition.go:804-816 | Becoming leader keeps the agreement |
| EpochTruncation.TruncateMatches | server/commitlog/commitlog.go:616-616 | Truncation with ClearLatest keeps the agreement |
| EpochTruncation.AnswerShape | server/commitlog/commitlog.go:472-478 | Behind the answer the leader holds only later epochs; before it, if its log starts at or below the epoch asked for, none |
| EpochTruncation.TruncationIsBefore | server/partition.go:1614-1644 | The follower's truncation is the log's own Truncate at the answer plus one |
| EpochTruncation.TruncationKeepsAgreement | server/partition.go:1614-1644 | No message the two logs share from the start is dropped, so none at or below a watermark held by the new leader |
| EpochTruncation.TruncationIsCommonPrefix | server/partition.go:1614-1644 | For every pair of logs, with n the smaller of the follower's length and what the leader's first entry above the epoch allows: the longest common prefix is left if and only if n is 0 or both logs have the same epoch at message n |
| EpochTruncation.SharedEpochTruncation | server/partition.go:1614-1644 | When both hold the follower's last epoch: the longest common prefix is left if and only if the leader has no later epoch, or opened the first later one itself, or recorded a start the follower does not reach; otherwise exactly one message too many |
| EpochTruncation.AnswerIsMessage | server/commitlog/commitlog.go:472-478 | A leader that holds the epoch asked for answers with a message of it exactly if it has no later epoch or opened the first one itself |
| EpochTruncation.SameOriginTruncation | server/partition.go:1614-1644 | Prefixes of one log: what is left is exactly the common part, whatever the caches hold |
| EpochTruncation.RecordedStartDiverges | server/commitlog/commitlog.go:264-272 | A start recorded from an epoch's first message makes the follower keep a message the leader does not have |
| EpochTruncation.EpochOpenedOnEmptyLogDiverges | server/commitlog/leader_epoch_cache.go:84-92 | An epoch opened on an empty log is recorded at -1, which reads as no later epoch |
| RetainedLogs.NothingDeleted | server/commitlog/leader_epoch_cache.go:84-92 | A cache whose log lost nothing answers as that of the whole log, raised to -1 |
| RetainedLogs.AssignKeepsTrimmedIff | server/commitlog/leader_epoch_cache.go:231-251 | On a log shortened by retention an epoch is recorded as in the cache of the whole log if and only if it starts where the log begins or later, or would not be recorded anyway |
| RetainedLogs.TruncateKeepsTrimmed | server/commitlog/leader_epoch_cache.go:103-124 | Truncation keeps the cache of a shortened log answering as the whole log's does, raised to the beginning |
| RetainedLogs.RetentionKeepsTrimmed | server/commitlog/commitlog.go:764-769 | So does retention, any number of times |
| RetainedLogs.TrimmedAnswer | server/commitlog/commitlog.go:472-478 | A leader that still has messages of the epoch asked for answers as if nothing had been deleted |
| RetainedLogs.RetainedTruncation | server/partition.go:1614-1644 | With the leader's log from one offset on and the follower's from another: the follower ends with exactly what it has of the common prefix if and only if the leader has no later epoch, or opened the first one itself, or its start lies outside the follower's log |
| Replication.RunSafety | server/replicator.go:66-135 | In every run of an epoch with lost, delayed and duplicated messages: follower logs stay prefixes of the leader's, ISR offsets are reached by the member or the watermark, logs and watermark only grow |
| Replication.CommitSafety | server/partition.go:1396-1457 | Whenever a commit raises the watermark to h, the ISR read had at least minISR members and each holds the leader's messages up to h, then and ever after |
| Replication.AckSafety | server/partition.go:1334-1366 | ALL acknowledgements: at most once per offset, increasing, at or below the watermark, which is inside the log |
| Replication.HandoverAligns | server/partition.go:927-948 | After a change of leader all replicas took part in, every follower has exactly what it and the new leader have in common |
| Replication.CommittedSurvives | server/partition.go:927-948 | If every leader elected later is one of the in-sync replicas that committed a message, each of those replicas and every later leader holds it, at its offset and with all before it, through any succession of terms |
| Replication.ISRHoldsIff | server/replicator.go:150-183 | Through the rest of a term every ISR member goes on holding some messages if and only if only replicas that hold them rejoin |
| Replication.CommittedSurvivesElections | server/metadata.go:1591-1613 | Leaders elected from the ISR: a committed message is in every later leader's log and ISR, if whoever rejoins meanwhile holds it |
| Replication.LaggingRejoinLosesCommitted | server/replicator.go:175-180 | Without that condition a replica behind the watermark is elected from the ISR and a committed message is gone |
| Replication.SurvivesIffReached | server/partition.go:927-948 | Whoever is elected: a committed message is in every later leader's log if and only if each log reaches its offset as the leader takes over |
| CommitConditions.CommitInLogIff | server/partition.go:1404-1432 | A commit leaves the watermark in the log if and only if the ISR read had a member or the log has a message |
| CommitConditions.WatermarkInLogIff | server/partition.go:1404-1457 | In all runs of an epoch the watermark stays in the log, if and only if minISR is positive or the log was not empty |
| CommitConditions.MinISRRespectedIff | server/partition.go:1283-1329 | In all runs every rise of the watermark has minISR replicas in sync, if and only if the replication factor is not 1 or minISR is at most 0 |
| CommitConditions.OffsetsStayReal | server/partition.go:1828-1843 | ISR offsets the members really have at the start stay ones they have, in every run |
| CommitConditions.CommitsHeldIff | server/partition.go:804-830 | In all runs every commit covers only what each ISR member read holds, if and only if at the start no follower has a recorded offset above both its log and the watermark |
| Failover.AlignedIff | server/partition.go:1614-1644 | What a follower keeps is a prefix of the leader's log if and only if it is nothing or ends with a message of the epoch the leader has there |
| Failover.LogsFromLeadersIff | server/partition.go:927-948 | Elections, publishes, truncations and fetches of any replica at any time: every log comes from the leaders of its messages, all along, if and only if every truncation is so aligned |
| Failover.ReplicasMatch | server/partition.go:927-948 | Then two replicas with the same epoch at an offset have the same log up to it, whatever epochs either missed |
| Failover.SharedAlignedIff | server/partition.go:1614-1644 | Where both hold the follower's latest epoch a truncation is aligned if and only if the leader has no later epoch, or opened the first one itself, or recorded a start the follower does not reach |
| Failover.SharingKeepsLogs | server/partition.go:927-948 | So from empty replicas on, if fetches are in order and every truncation is of that kind, all logs come from their leaders and all caches go with their logs |
| Failover.ExtendedMatchesIff | server/commitlog/commitlog.go:256-276 | Fetched messages keep log and cache in agreement if and only if the first is of no earlier epoch than the cache knows |
| Failover.CachesMatchIff | server/commitlog/commitlog.go:256-276 | All along a run caches go with their logs if and only if every fetch is so in order |
| Failover.EmptyTermBreaksCache | server/partition.go:804-816 | A leader that wrote nothing and later fetches an earlier epoch: a run from empty replicas in which the cache no longer goes with the log |
| Failover.HeldStays | server/partition.go:927-948 | What some replicas all hold they go on holding through any elections, truncations and fetches, with any epochs missed, as long as they follow only each other and fetch in order |
| Partitions.Partition.constructor | server/partition.go:205-235 | A new partition knows its own log end and -1 for the other members |
| Partitions.Partition.UpdateISRLatestOffset | server/partition.go:1828-1843 | A member's offset becomes the larger of the two, the others stay, and the commit check is asked for exactly if something rose |
| Partitions.Partition.ProcessBatch | server/partition.go:1128-1329 | One turn of the processing loop is the publish step: the messages are in the log as handed in, those that go through the commit queue are in it, and the leader knows its new log end |
| Partitions.Partition.MinLatest | server/partition.go:1404-1432 | The minimum over the ISR in any order, or nothing when the ISR is too small |
| Partitions.Partition.CommitUpTo | server/partition.go:1426-1455 | The rest of a commit turn is the commit step: the watermark is raised, and exactly the queued ALL messages at or below what is committed are acknowledged and leave the queue |
| Partitions.Partition.RemoveFromISR | server/partition.go:1705-1737 | In every cluster it leads, taking a replica out of the ISR is the shrink step of the transition system, refused for a server that is no replica |
| Partitions.Partition.AddToISR | server/partition.go:1741-1764 | Likewise the expand step |
| Partitions.Partition.HandleReplicationResponse | server/partition.go:1024-1064 | A response of another epoch is dropped; otherwise the follower takes the receive step |
| Partitions.Partition.TruncateUncommitted | server/partition.go:1614-1685 | The first reply that is no timeout decides: an answer cuts the log behind it, where the truncation theorems say if it is the leader's; an error, or three timeouts, cut it at the watermark |
| Partitions.FallbackKeepsIff | server/partition.go:1669-1685 | Truncation at the watermark keeps every committed message the follower has if and only if its watermark has caught up with the commit or with its log |
| Partitions.Replicate | server/replicator.go:222-257 | The batch is the longest run of messages that fits; it is empty exactly when nothing follows or the next message alone does not fit |
| Publishing.PublishedStays | server/partition.go:1283-1329 | In every run a published message is in the leader's log at its offset from then on, with the key, value, size, timestamp and epoch it was published with |
| Publishing.AckedExactlyOnce | server/partition.go:1334-1366 | In every run each message published under policy ALL has been acknowledged or waits for it, exactly once, and no other message is ever acknowledged |
| Publishing.CommitAcknowledges | server/partition.go:1448-1455 | A commit acknowledges exactly the waiting ALL messages at or below what it commits and leaves no entry there |
| Publishing.DeliveryRaises | server/partition.go:1024-1064 | After a delivery a follower's watermark is the larger of its own and the response's |
| GroupSpec.BalancePartitions | server/groups.go:456-481 | After balancing each partition of the stream has exactly one owner among its subscribers, and nothing else changed |
| GroupSpec.BalanceFair | server/groups.go:456-481 | A member that received a partition ends at most one above every other subscriber |
| GroupSpec.BalanceCounted | server/groups.go:34-46 | Balancing keeps each stored count equal to the number of partitions held |
| GroupSpec.JoinKeeps | server/groups.go:236-258 | A join keeps the whole invariant of the group |
| GroupSpec.LeaveKeeps | server/groups.go:432-450 | A leave keeps it |
| GroupSpec.DeleteKeeps | server/groups.go:287-322 | A stream deletion keeps it |
| GroupSpec.AssignmentsSound | server/groups.go:415-450 | After any operations: every partition of a subscribed stream has one owner, nobody holds an unsubscribed stream, counts are exact |
| GroupSpec.SameEpochSameGroup | server/groups.go:220-234 | With increasing epochs the group at one epoch is one group |
| GroupSpec.GrantsDisjoint | server/groups.go:328-362 | Two members given the same partition at the same epoch are the same member |
| GroupSpec.GrantsCover | server/groups.go:328-362 | After any operations, at the current epoch, every partition of a stream with a subscriber is granted to exactly one member, and a member is granted exactly what it owns |
| GroupLaws.JoinIs | server/groups.go:236-258 | A join adds exactly the member with its streams; no other subscription changes and no partition of another stream moves |
| GroupLaws.JoinShares | server/groups.go:415-430 | Each stream it joins is shared out fairly in its turn and stays so |
| GroupLaws.LeaveIs | server/groups.go:432-450 | A leave takes out exactly the member; only partitions of its streams move |
| GroupLaws.LeaveShares | server/groups.go:432-450 | Each stream of which it held something is shared out fairly among the others |
| GroupLaws.DeleteIs | server/groups.go:287-322 | A deletion takes the stream from exactly its subscribers; only partitions of their other streams move |
| GroupLaws.DeleteShares | server/groups.go:287-322 | Each of those streams is shared out fairly again |
| GroupLaws.EnrolledIs | server/groups.go:220-322 | Members and their streams are what the operations say: joined, left, stream deleted, or nothing for a stale epoch |
| ConsumerHeap.Down | server/groups.go:48-80 | Sifting down orders a heap that was in order but for what is below a position, permutes, and moves exactly if a child comes first |
| ConsumerHeap.Up | server/groups.go:48-80 | Sifting up orders a heap that was in order but for an element and its parent, and permutes |
| ConsumerHeap.Init | server/groups.go:456-481 | Heap initialization orders any permutation |
| ConsumerHeap.Push | server/groups.go:48-80 | Push adds the consumer to the heap and keeps it in order |
| ConsumerHeap.Remove | server/groups.go:432-450 | Remove takes out exactly the consumer at the position and keeps the heap in order |
| ConsumerHeap.RootFirst | server/groups.go:52-59 | The root of an ordered heap precedes every other consumer |
| Groups.ConsumerGroup.PeekNeediest | server/groups.go:78-80 | Peek is the subscriber with the least count, and of those the one with the smallest id |
| Groups.ConsumerGroup.AssignPartition | server/groups.go:483-492 | The assignment gives one partition and restores every heap the consumer is in |
| Groups.ConsumerGroup.BalanceAssignmentsForStream | server/groups.go:456-481 | Balancing through the heap is giving each partition to the neediest subscriber, for every heap layout and map order |
| Groups.ConsumerGroup.AddMember | server/groups.go:220-258 | The object after a join is the joined group; a stale epoch is refused; on a coordinator out of recovery every member has a liveness timer |
| Groups.ConsumerGroup.RemoveMember | server/groups.go:263-284 | The object after a leave is the group left; stale epoch and non-member are refused, the last leave is reported |
| Groups.ConsumerGroup.StreamDeleted | server/groups.go:287-322 | The object after a deletion is the group without the stream, every affected stream balanced again |
| Groups.ConsumerGroup.SetCoordinator | server/groups.go:142-168 | A new coordinator has a timer for every member and a former one has none; assignments stay; a stale epoch is refused |
| Groups.ConsumerGroup.StartRecovered | server/groups.go:181-192 | At the end of recovery a coordinator has a timer for every member |
| Groups.ConsumerGroup.GetAssignments | server/groups.go:328-362 | An answer is exactly the partitions the member owns; each error has its exact condition, and the error for a member without a timer happens in recovery only |
| Groups.SortStreams | server/groups.go:512-528 | Streams are visited in lexical order, each once |
| KeyScan.MoveKeeps | server/commitlog/compact_cleaner.go:206-223 | Every atomic action of a scanning worker keeps the scan's invariant |
| KeyScan.ScanIsExact | server/commitlog/compact_cleaner.go:181-223 | For every schedule and number of workers: once all are done, the map holds for each key exactly the largest offset at or below the watermark |
| KeyScan.ScanCanFinish | server/commitlog/compact_cleaner.go:181-204 | Whatever was scheduled so far, the scan can still be completed |
| Compaction.CompactedChain | server/commitlog/compact_cleaner.go:85-127 | The compacted log is well-formed and ends where the log did |
| Compaction.CompactionRemoves | server/commitlog/compact_cleaner.go:129-179 | Exactly the keyed, superseded messages below the watermark outside the last segment are removed; the rest stay in order |
| Compaction.CompactionPreservesLatest | server/commitlog/compact_cleaner.go:85-127 | From the watermark on every non-empty key has the same latest message before and after |
| Compaction.EmptyKeyLosesValue | server/commitlog/compact_cleaner.go:138-152 | A message without a key supersedes one with the empty key |
| Compaction.EmptyKeyIff | server/commitlog/compact_cleaner.go:138-152 | For the empty key the latest message is kept exactly unless a keyless one up to the watermark follows it |
| Compaction.CompactionIdempotent | server/commitlog/compact_cleaner.go:44-64 | Compacting again at the same watermark, after any scan, changes nothing |
| Compaction.CleanSegment | server/commitlog/compact_cleaner.go:129-179 | The loop writes exactly the kept messages, counts the removed, and records the epochs that are left |
| Compaction.Compact | server/commitlog/compact_cleaner.go:44-127 | The result is the compacted log, and the new epoch cache is what that log shows |
| Retention.CutLaw | server/commitlog/delete_cleaner.go:82-156 | What a message or byte limit leaves is within it if more than the last segment, and nothing longer is |
| Retention.ApplyAgeLimit | server/commitlog/delete_cleaner.go:158-189 | The loop keeps the segments from the first unexpired one, always the last |
| Retention.ApplyLimit | server/commitlog/delete_cleaner.go:82-156 | The backward loop keeps the longest suffix within the limit, always the last segment |
| Retention.Clean | server/commitlog/delete_cleaner.go:42-76 | What is left is within the message and byte limits unless it is one segment; a segment goes only if all up to it are expired or it and what follows it are over a limit; it is the shortest of the three suffixes |
| Retention.AgeOrder | server/commitlog/delete_cleaner.go:52-73 | Age applied last gives the same exactly if the other limits cut no deeper or leave an unexpired or the last segment first |
| Retention.AnyOrder | server/commitlog/delete_cleaner.go:52-73 | With write times in order the order of limits does not matter |
| Retention.OrderMatters | server/commitlog/delete_cleaner.go:52-73 | Without that it does |
| Cleaning.Clean | server/commitlog/commitlog.go:745-786 | Retention against a log being written to: of what was there and what was added meanwhile exactly the messages of the segments cut at the start are gone; next offset and epoch cache are what they should be |
| Cleaning.Meanwhile | server/commitlog/commitlog.go:221-276 | Any publishes, replicated batches, rolls and new epochs: the segments seen before stay the same objects, grown at the end, and the log has what it had and what was added |
| Cleaning.CleanAndCompact | server/commitlog/commitlog.go:745-804 | Retention and compaction against a log being written to: the log ends as the compacted form of what retention left of it at the start, followed by everything added meanwhile, and the cache is the replacement |
| Cleaning.EpochsForgotten | server/commitlog/commitlog.go:764-786 | An epoch learned since compaction scanned survives the replacement if and only if it starts at or behind the first segment rolled since |
| Cleaning.NothingForgottenIff | server/commitlog/commitlog.go:764-786 | So none is forgotten if and only if each starts in a segment rolled since |
| Cleaning.OpenedEpochForgotten | server/commitlog/commitlog.go:465-467 | An epoch the leader opens and whose first message is the first of the rolled segment is forgotten |
| Readers.FindEntry | server/commitlog/segment.go:494-517 | The search returns the first entry at or above the offset, or none |
| Readers.FindSegmentByBaseOffset | server/commitlog/util.go:60-69 | The search returns the first segment whose base is at least the offset |
| Readers.GetHWPos | server/commitlog/reader.go:394-404 | The watermark's segment and the end of its message |
| Readers.NewReaderCommitted | server/commitlog/reader.go:345-392 | Opening computes the reader the model opens |
| Readers.CommittedLogReader.LocateStart | server/commitlog/reader.go:223-263 | A reader opened past the watermark starts behind it once it moves |
| Readers.CommittedLogReader.ReadPass | server/commitlog/reader.go:265-324 | One pass of the read loop is the model's pass |
| CommittedReader.HWPosIs | server/commitlog/reader.go:394-404 | The message at the watermark is found where it is |
| CommittedReader.Fits | server/commitlog/reader.go:271-285 | In front of the watermark every header and payload read finds all its bytes, so a read is all or nothing |
| CommittedReader.StepKeeps | server/commitlog/reader.go:223-324 | Appends, rolls, watermark advances and every action of the reader keep the reader's invariant |
| CommittedReader.ReadsCommitted | server/commitlog/reader.go:223-324 | In every interleaving: no slice out of range, and what was returned is the messages present from the smaller of the offset and the watermark at opening plus one, in order, without gap, none above the watermark |
| CommittedReader.WaitsOnlyWhenCaughtUp | server/commitlog/reader.go:299-321 | A reader waits only when it has returned every message up to the watermark |
| CommittedReader.CatchesUp | server/commitlog/reader.go:223-324 | From every state a reader left to itself comes to wait |
| CommittedReader.ReadsAll | server/commitlog/reader.go:223-324 | Whatever happened to the log, a reader left to itself then has returned exactly the messages from its start up to the watermark |
| CommittedReader.UnguardedReadsUncommitted | server/commitlog/reader.go:345-392 | The one excluded case fails: the commit log's NewReader at a negative offset on a non-empty log with nothing committed returns an uncommitted message |
| HWWaiters.NoLostWakeup | server/commitlog/commitlog.go:388-455 | In every interleaving: waiters are registered at the current watermark, no channel gets two values, and passed readers have their answer |
| HWWaiters.SentTruth | server/commitlog/commitlog.go:410-449 | In every interleaving a reader sent false had its watermark passed, and one sent true had seen the end of a log set readonly |
| HWWaiters.WokenWith | server/commitlog/commitlog.go:388-429 | Whoever is registered as the watermark rises is sent false, and as the end is announced, true |
| HWWaiters.EndIsAnnounced | server/commitlog/commitlog.go:420-449 | If the watermark is kept within the log: once SetReadonly(true) has returned and the watermark is at the log end, nobody waits, in every run |
| HWWaiters.EndToldIff | server/commitlog/commitlog.go:434-449 | A reader that comes is told when the log ends at the watermark, whatever happens meanwhile, if and only if it did not come up to date to a log announced readonly with the watermark past its end |
| HWWaiters.HighWatermark.NotifyAll | server/commitlog/commitlog.go:410-429 | Every registered channel gets the value once and all are removed |
| HWWaiters.HighWatermark.SetHighWatermark | server/commitlog/commitlog.go:388-396 | A higher watermark, past the log end or not, is set and wakes everyone |
| HWWaiters.HighWatermark.NotifyReadonlyWaiters | server/commitlog/commitlog.go:420-429 | Waiters are woken only when the watermark is at the log end |
| HWWaiters.HighWatermark.WaitForHW | server/commitlog/commitlog.go:434-449 | A reader is answered at once or registered |
| ByteOrder.BERoundTrip | server/commitlog/encoder.go:228-237 | A big-endian number that fits its bytes is read back |
| MessageCodec.LengthPass | server/commitlog/encoder.go:51-66 | The measuring pass finds exactly the bytes the writing pass writes, whatever order each walks the headers in |
| MessageCodec.RoundTrip | server/commitlog/message.go:104-119 | Magic byte, attributes, key and value are read back, nil and empty apart |
| MessageCodec.ChecksumHolds | server/commitlog/message.go:69-82 | The first four bytes are the checksum of all that follow |
| MessageCodec.HeadersRoundTrip | server/commitlog/message.go:122-142 | The first headers written are read back, as many as the 16-bit count says, unless one of them is nil; then reading fails |
| MessageCodec.AllHeadersBack | server/commitlog/message.go:42-50 | All headers are read back if and only if none is nil and there are fewer than 65536 |
| Encoders.LenEncoder.Measure | server/commitlog/encoder.go:111-140 | Measuring fails exactly if a part is too long, and otherwise counts the message |
| Encoders.ByteEncoder.PutBytes | server/commitlog/encoder.go:259-268 | A size-prefixed slice is appended, -1 for nil |
| Encoders.ByteEncoder.Pop | server/commitlog/encoder.go:336-341 | The checksum of everything since the push is put in its place and nothing else changes |
| Encoders.EncodeInto | server/commitlog/message.go:31-52 | The buffer of the measured size is filled exactly |
| Encoders.Encode | server/commitlog/encoder.go:51-66 | Encoding succeeds exactly within the length limits and gives the serialized message |
| Encoders.ReadHeaders | server/commitlog/message.go:122-142 | The cursor loop reads the headers or fails where slicing would |
| MessageSets.ParseBuilt | server/commitlog/message_set.go:23-49 | Parsing a built message set gives exactly its entries, except for a lone record without data |
| MessageSets.BuildSet | server/commitlog/message_set.go:51-111 | Bytes and entries of a built set of any size, with 32-bit positions and sizes; the entries are those of the set if and only if none wraps |
| MessageSets.SmallIsNarrow | server/commitlog/message_set.go:51-111 | In a set below 2^31 bytes no counter wraps |
| MessageSets.ParseSet | server/commitlog/message_set.go:23-49 | The loop computes the entries or fails where slicing would |
| Index.RelRoundTrip | server/commitlog/index.go:53-67 | A relative entry gives its entry back if and only if offset and position fit 32 bits |
| Index.RelBytesRead | server/commitlog/index.go:151-166 | The twenty bytes of an entry are read back |
| Index.NoOverflow | server/commitlog/index.go:53-60 | No field of a segment's index overflows if and only if every record is within 2^31 of the base offset and starts below 2^31 |
| Index.SmallSegment | server/commitlog/index.go:53-60 | A segment up to 2^31 bytes overflows only by its offsets, gaps or not |
| Index.KeptAreNear | server/commitlog/compact_cleaner.go:129-179 | Whatever compaction keeps of a gap-free segment up to 2^31 bytes is within range of the base |
| Index.IndexFile.WriteAt | server/commitlog/index.go:187-215 | Growth always makes room in an index that was not shrunk; after a shrink a write is lost exactly if it does not reach the believed size |
| Index.IndexFile.WriteEntries | server/commitlog/index.go:128-146 | The entries are appended and the rest of the file stays zero |
| Index.IndexFile.Shrink | server/commitlog/index.go:259-267 | The file is cut to its entries while the believed size stays |
| Index.IndexFile.InitializePosition | server/commitlog/index.go:273-308 | In any file an empty slot behind a taken one is found, where the empty ones begin if all are at the end; the last entry before it is returned, or corruption if it is below the base |
| Index.RebuildFindsWhole | server/commitlog/segment.go:154-247 | Scanning whole records of at most 100 MB and a torn tail finds exactly the whole records' entries |
| Index.LongRecordStops | server/commitlog/segment.go:154-247 | A record of more than 100 MB stops the rebuilding, whatever follows it |
| Index.RebuildIndex | server/commitlog/segment.go:154-247 | The rebuilt file holds exactly the entries found, then zeros |
| Index.Reopen | server/commitlog/segment.go:113-150 | A rebuilt index is initialized to as many entries as there are whole records; it is refused exactly if the last relative offset is negative once wrapped |
| Index.IndexedSegment.WriteMessageSet | server/commitlog/segment.go:333-340 | Log and index stay in agreement |
| Index.IndexedSegment.Lookup | server/commitlog/index.go:151-172 | Entry i holds the timestamp and size of message i and its offset and position wrapped to 32 bits, its own if and only if in range |
| Index.AppendBatch | server/commitlog/segment.go:252-265 | Rolling a full segment first keeps every segment within its maximum and one batch, and log and index in agreement |
| Index.IndexedSegment.LookupsExact | server/commitlog/segment.go:252-265 | In a segment so bounded every lookup is exact if and only if all records are within range of the base offset |
| Recovery.RecoveryEqualsLive | server/fsm.go:54-130 | For every log that applies live and every split: replay, finish, then live succeeds with the same streams, partitions, leaders, epochs and replicas, and the same ISRs but for this server itself |
| Recovery.RecoveryExact | server/fsm.go:54-130 | A partition comes out of recovery exactly as live if and only if the rest of the log touches this server there, or how the replayed part last touched it agrees with whether it leads |
| Recovery.RecoveryEqualsLiveIff | server/fsm.go:54-130 | The whole store is as live if and only if that holds of every partition |
| Recovery.RunTracks | server/partition.go:818-830 | The last create, shrink, expand or change of leader touching this server says whether it is in the ISR live and in replay |
| Recovery.MeantLogsAgree | server/metadata.go:1591-1616 | In a log whose leaders are chosen in sync and not shrunk while leading every partition agrees |
| Recovery.ApplySame | server/fsm.go:138-190 | One entry applied in recovery does what it does live, but for this server's own ISR membership, for every operation |
| MetadataLaws.RecoveryKeepsData | server/metadata.go:1440-1511 | Recovery takes data exactly from streams left tombstoned; a stream live at its end keeps what it had |
| MetadataLaws.LiveReplayLosesData | server/metadata.go:1084-1101 | Replaying without tombstones would lose a re-created stream's data |
| MetadataLaws.ShrunkLeaderDiverges | server/partition.go:818-830 | A log that shrinks the leader away is replayed to a different ISR than applied live |
| MetadataLaws.Reapplied | server/metadata.go:1200-1272 | Entries of an applied run of shrink, expand and change-leader, applied again in any order, change nothing |
| MetadataLaws.ApplyInReplicas | server/metadata.go:1200-1272 | An operation keeps leaders and ISRs among the replicas if and only if it names replicas as it creates or changes a leader |
| MetadataSpec.RunEpochs | server/metadata.go:1200-1272 | Over any run leader epochs are at most partition epochs, and those at most the last index |
| MetadataLaws.EpochsGrow | server/metadata.go:1200-1272 | Over any run a partition's epochs never go back, even across deletion and re-creation |
| LeaderEpochs.LeaderChanged | server/metadata.go:1244-1272 | A change of leader at a new index makes the named replica the leader and the index both epochs, and touches no other partition; it fails exactly on a missing partition or a later leader epoch |
| LeaderEpochs.ISRChanged | server/metadata.go:1200-1243 | A shrink takes exactly the named replica out of the ISR and an expand puts it in; leader and leader epoch stay |
| LeaderEpochs.PartitionCreated | server/metadata.go:1070-1149 | A created partition has the named leader, replicas and ISR and the index as both epochs |
| LeaderEpochs.OneLeaderPerEpoch | server/partition.go:705-729 | Two servers that have applied any two parts of a log, live or in recovery, and know the same leader epoch of a partition know the same leader |
| MetadataLaws.SnapshotRestore | server/fsm.go:350-442 | Restore brings back leader, both epochs, replicas and ISR; the store is the same exactly if no stream was tombstoned |
| MetadataLaws.NodeRecovers | server/fsm.go:54-130 | A restarted server replays to its target, finishes there and goes on live |
| MetadataLaws.StartsIffReplayed | server/fsm.go:54-130 | A partition restored from a snapshot and not deleted is started by the log if and only if there is an entry to replay up to and it comes; with nothing to replay it never is |
| Fsm.RecoverLatestCommitted | server/fsm.go:17-44 | There is a target if and only if the log is not empty, the entry applied is not the last committed one, and a command lies between the first entry and the commit index; it is the last such command |
| Fsm.Server.AddStream | server/metadata.go:1070-1149 | Adding a stream is the specified step; errors change nothing |
| Fsm.Server.RemoveStream | server/metadata.go:1440-1472 | Removing is deleting, or a tombstone in recovery |
| Fsm.Server.Update | server/metadata.go:1200-1272 | Shrink, expand and change-leader are the specified step, and the persisted ISR list stays the set in memory |
| Fsm.Server.ListOf | server/partition.go:1712-1717 | The list written out is the set, each member once, in any order |
| Fsm.Server.FinishedRecovery | server/fsm.go:268-302 | Tombstoned streams go with their data, recovered partitions start |
| Fsm.Server.Apply | server/fsm.go:54-130 | Applying an entry is the specified step, with its recovery bookkeeping |
| Fsm.Server.Restore | server/fsm.go:402-442 | Restoring succeeds exactly if every stream has a partition, and leaves the data alone |
| Fsm.Transfer | server/fsm.go:350-442 | A snapshot restored by any server succeeds exactly if every stream has a partition, and brings back every stream without its tombstone |
| Activity.StepKeeps | server/activity.go:97-146 | Every step of dispatchers, servers and pending requests keeps the activity invariant |
| Activity.PublishedInOrderIff | server/activity.go:97-286 | In every run each event at or below a recorded index has been published and first occurrences are in Raft order, if and only if publishing waits for acknowledgements |
| Activity.UnackedIsLost | server/activity.go:254-286 | Without acknowledgements an event is recorded as published that never was |
| Activity.CanPublishAll | server/activity.go:97-146 | Whatever happened so far, a dispatcher can still publish every event in the log |

## Left out

- NATS, gRPC, hashicorp/raft, memory mapping, file-system errors and timers: foreign code, replaced by steps, values and parameters.
- Envelopes and protobuf (server/protocol): the CRC is any function, the replication response has a fixed overhead.
- Timestamp lookups, the reverse reader and the uncommitted reader.
- Pause, resume, readonly and load counters in the metadata; the consumer groups' own recovery, and what happens when a member's timer expires.
- Failover counting, ISR shrink and expand decisions by lag, and cursors.
- Group assignments across a snapshot: members are re-added in map order.
- Races inside a single append or split, truncation concurrent with cleaning, and either concurrent with a reader.
- Unflushed data lost in a crash; the epoch cache's and the watermark's checkpoint files.
- Uncommitted readers' waiters on a segment (server/commitlog/segment.go:377-430).
- Acknowledgements under policy LEADER, sent as a message is written, and negative acknowledgements.
- EpochTruncation.SharedEpochTruncation: for logs from offset 0; RetainedLogs.RetainedTruncation is for logs from any.
- Replication.HandoverAligns: every replica truncates in every handover; in Failover each does so in its own time, or not at all.
- Replication.CommittedSurvives: likewise; Failover.HeldStays is for replicas that miss epochs, without commits and in-sync replicas.
- RetainedLogs.TruncateKeepsTrimmed: for a truncation that leaves the log something.
- GroupSpec.AssignmentsSound: a deletion reaches the group before any later operation does; the server runs it in a goroutine of its own (server/metadata.go:1525), so it may be refused as stale, and a stream created anew in between may have another number of partitions while it has subscribers.
- Groups.ConsumerGroup.AddMember: a consumer that is a member already is refused before the operation is proposed (server/metadata.go:2082), so what the method would do with it is not stated.
- CommitLogs.CommitLog.Append: an empty batch, and a batch of more than one message under concurrency control, are refused by the precondition; the code panics on both. Timestamps are positive, since a write time of 0 means never written.
- Cleaning.CleanAndCompact: the first phase reads the segments, the watermark and the keys at one moment; messages appended while the keys are being scanned count as added meanwhile.
- Index.Reopen: for whole records of at most 100 MB and a torn tail; behind a longer or damaged record rebuilding stops.
- Fsm.Server.AddStream: a create operation maps partition ids to partitions, so the error for a repeated id is not modelled.
- Fsm.Server.Apply: streams and partitions are values in a map owned by the server, not objects of their own; on an error the server panics, and its state is not stated.
- MetadataLaws.StartsIffReplayed: for the operations modelled; pausing and resuming a partition would start it.
- Activity.PublishedInOrderIff: for a Raft log that is not truncated.
