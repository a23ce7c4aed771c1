# TieredCache: a verified model

TieredCache is a three-tier cache: L0 in memory, L1 on disk, L2 behind network sinks. This project
models the parts of it that carry hard properties, and proves those properties with Dafny 4.11
(`dafny verify dfyconfig.toml`).

| files | what they model |
|---|---|
| `WalFormat`, `WalManager`, `WalRuns`, `WalProcess` | the write-ahead log as bytes, the recovery manager object, sequence numbers over whole runs with restarts, and the objects doing those runs |
| `ReplayPool`, `PoolProgress`, `PoolSchedules`, `PoolReturns` | a worker pool under every schedule: invariant, progress, which orders it can take, and exactly when it returns |
| `TierReplay`, `StoreReplay`, `CrashRecovery` | what recovery's pool does to the two tiers, over maps and over the sharded cache, and what a crash costs |
| `ClockRing`, `L0Spec`, `L0Clock`, `L0Shard`, `L0Runs` | an L0 shard: clock ring, map and counters as values, what each operation does to the ring, the object that updates them in place, and whole runs |
| `L0Memory`, `L0Fresh`, `L0Overwrites`, `CacheMemory` | which runs of a shard, and of the cache, stay within some memory bound |
| `L0CacheSpec`, `L0Sharding`, `L0Cache` | the sharded L0 cache, for any hash function |
| `SnapshotFormat`, `Snapshotter`, `Retention` | snapshot files, writing and restoring them, and which of them are kept |
| `TierProtocol`, `TierSafety`, `TierFreshness`, `TierOverlap` | Get, Set, Delete, promotion, tiering, pre-warming and crashes as interleaved steps, and what reads return |
| `TierStore`, `TieredCache` | the same tasks over the sharded L0 cache, and the operations as sequential code |
| `PreWarm`, `PreWarmPool` | pre-warming L0 through L1's sharded iterator, and the workers it sends to |
| `Backoff` | retry backoff |
| `Bytes`, `Payloads`, `Sequences`, `Totals` | big-endian integers, what L0 accepts, sequence equalities, sums over maps |

The source updates state in place, so the recovery manager, the shard, the cache, the snapshotter, the
iterator and the tiers are classes. Their methods are proved to compute functions on values, and the
results that hold over whole runs are lemmas about those functions. Concurrent code (the worker pool,
the tier protocol) is a step relation in which the scheduler chooses every step.

JSON, CRC-32 and FNV-1a are parameters. Where a result needs something of them it says so: `RoundTrips`
(decoding undoes encoding) and that the empty byte string is no JSON document (RFC 8259, section 2).
Nothing is assumed of the hash; `Stable` names the entries whose checksum still verifies after a trip
through JSON, and results say what becomes of the others.

## Where the code departs from its comments

The model follows the code. These departures are theorems here, each with an input and its exact condition.

- The checksum of a log entry is over `Timestamp.String()`, which prints the clock's monotonic reading; JSON
  drops it. A log gives back everything beyond the checkpoint exactly when every such checksum still verifies
  (`NothingLostIff`), which for a stamped entry means that the hash does not see the reading
  (`StampedIsStableIff`). Where it does, replay returns nothing, counts every frame corrupt and leaves the
  number at 0, after any run (`SeenReadingsLoseEveryRun`); `StampedEntryIsLost` is such an entry.
- `Write` does not check sizes. A log is read back whole exactly when every entry is within the reader's
  limit (`ReadBackIff`); a larger one hides everything after it (`OversizeHidesTheRest`).
- Recovery does not truncate a torn tail. What is appended later is read back exactly when the log ended
  on a frame boundary (`AppendReadBackIff`).
- A restart that accepts no entry sets the sequence number to 0, even if checkpoints exist
  (`LossIsReachable`). Numbers stay new exactly when the last entry logged was accepted or nothing had been
  logged or checkpointed (`RestartNumberIsNewIff`); where every checksum verifies, accepting any entry is
  enough for whole runs (`StableDiscipline`). What is acknowledged under a number that a checkpoint
  has passed is dropped by every later recovery (`EntryUnderCheckpointIsLost`, `BelowCheckpointForGood`).
- The producer of `Recover` fills the error channel with nils that nobody reads until the end. With w workers
  an entry can be applied at most w - 1 places ahead of its turn. `Recover` returns under every schedule exactly
  when in each such order the failures fit the channel (`ReturnsIff`, `ReplayCompletesIff`): with one worker, in
  the log's own order (`OneWorkerReturnsIff`). Otherwise `DeadlockExists` gives the schedule. Five rounds of
  setting and deleting one key are safe with one worker and can hang with two (`RoundsNeedOneWorker`). Pre-warming
  returns exactly when no more entries are rejected than there are workers (`PreWarmReturnsIff`).
- With two workers or more, recovery leaves what the log's order leaves exactly when at each place all
  deciding entries agree (`ScheduleFreeIff`); `RepeatedKeysReorder` is a schedule in which the older wins. Where
  checksums verify, one worker brings L0 back as it was before a crash (`CrashRecovers`); more do under every
  schedule exactly when the calls for each key agree (`CrashRecoversIff`).
- Set compares bytes plus weight units with the limit and gives up after a pass that only clears bits. A
  Set that does not give up leaves at most `CleanBound`, above the limit and reached in every configuration
  (`BoundIsReached`). No bound holds for all runs that may delete, since a ring full of deleted names never
  evicts again (`DeletesAreUnbounded`), nor for all that may set stored keys, which take a slot each time
  (`OverwritesAreUnbounded`). Runs that do neither are bounded, in a shard and in the cache
  (`FreshRunsAreBounded`, `CacheFreshRunsAreBounded`); so a bound exists exactly for those (`BoundedIff`).
- `RestoreFromSnapshot` never returns success, for any file (`RestoreNeverSucceeds`): it takes the
  checksum for a length and looks for the checksum past the end. Its round trip is on cache contents.
- The periodic snapshot raises a flag and then calls the writer, which sees it raised and writes nothing
  (`Snapshots.Snapshot`). The writer is therefore also modelled entered directly.
- A promotion in flight can overwrite a newer value (`StalePromotion`). Whatever runs between, it is harmless
  exactly when no write of the key has completed since the read or the last one wrote the same
  (`LatePromotionFreshIff`). SetToL1 does not reach a reader while L0 holds the key (`DirectSetVisibleIff`).
- A tiering task that took its copy before a Set puts the old value back for good (`TieringLosesSet`). It is
  harmless exactly when no write completed before it copied, or the last of those wrote the same, or another
  one completed after (`TieringAmongWritersFreshIff`).
- Old snapshots are removed in order of name, not of age. The two agree for timestamps of equal decimal
  length; of a longer one the head decides (`LongerNamesOrderedIff`), and cleaning can keep the oldest
  (`CleaningKeepsTheOldest`). It keeps the newest three exactly when no older and shorter timestamp is larger
  than the head of one of theirs (`NewestLeftIff`).
- The first backoff is not capped: the cap holds for every attempt exactly when the initial value is
  within it (`CappedIff`).

## Model

| member | source | states |
|---|---|---|
| Bytes.DecodeEncode | pkg/replay/recovery.go:515-516 | a length written in k big-endian bytes is read back, if it fits |
| Bytes.FirstByteCounts | pkg/replay/recovery.go:342 | the first byte of a length is the most significant |
| Bytes.EncodeDecode | pkg/replay/recovery.go:342 | any header bytes are those of the number read from them |
| WalFormat.ParseFramed | pkg/replay/recovery.go:331-374 | whole frames in front of any bytes are read unchanged, and the rest as if alone |
| WalFormat.Reassemble | pkg/replay/recovery.go:331-374 | of any file, the parsed frames written again are a prefix, short of it by exactly the described ending |
| WalFormat.CleanIffNothingLeft | pkg/replay/recovery.go:333-340 | the log ends cleanly exactly when the frames are all of it |
| WalFormat.ReadBackIff | pkg/replay/recovery.go:344-350 | a written log is read back whole iff every payload is within MaxWALEntrySize |
| WalFormat.OversizeHidesTheRest | pkg/replay/recovery.go:344-350 | an oversize entry makes replay drop it and everything after it |
| WalFormat.AppendReadBackIff | pkg/replay/recovery.go:121-144 | a frame appended to any file is read back iff that file ended on a frame boundary |
| WalFormat.EveryByteAccounted | pkg/replay/recovery.go:331-396 | accepted, below-checkpoint and corrupt bytes plus the described uncounted tail are the whole file, for arbitrary bytes |
| WalFormat.FrameAdds | pkg/replay/recovery.go:376-398 | against the same file without one whole frame: an undecodable payload or a bad checksum beyond the checkpoint adds its bytes and one skipped entry, an entry at or below the checkpoint nothing, any other is handed out in its place |
| WalFormat.TailAdds | pkg/replay/recovery.go:333-374 | what a torn header, an oversize header, a header alone and a torn payload add |
| WalFormat.HandedOutIff | pkg/replay/recovery.go:376-398 | an entry is handed out iff some frame decodes to it, it exceeds the checkpoint and its checksum verifies |
| WalFormat.DamageKeepsLayout | pkg/replay/recovery.go:376-398 | damage inside one payload leaves every other frame and the ending as they were, in any file |
| WalFormat.DamageIsolation | pkg/replay/recovery.go:376-398 | all other verdicts are unchanged; the accepted entries before and after the damaged frame keep their order |
| WalFormat.TornTailRecovery | pkg/replay/recovery.go:324-399 | for a log cut at any byte, replay returns exactly the entries wholly before the cut, beyond the checkpoint and still verifying, in write order |
| WalFormat.WholeLogRecovery | pkg/replay/recovery.go:324-399 | the uncut log gives back every entry beyond the checkpoint that still verifies, and counts exactly the others beyond it corrupt |
| WalFormat.NothingLostIff | pkg/replay/recovery.go:385-396 | replay returns everything beyond the checkpoint iff every such checksum verifies after a trip through JSON |
| WalFormat.SeenReadingsLoseTheLog | pkg/replay/recovery.go:532-549 | if the hash sees the monotonic readings, replay returns nothing and counts every frame beyond the checkpoint corrupt |
| WalFormat.StampedEntryIsLost | pkg/replay/recovery.go:152-157 | a stamped entry and a codec for which that happens |
| WalManager.Latest | pkg/replay/recovery.go:418-442 | the result is 0 or a readable checkpoint's number, and no readable checkpoint exceeds it |
| WalManager.RecoveryManager.constructor | pkg/replay/recovery.go:76-144 | a new manager starts at number 0 over existing files; non-positive settings are replaced |
| WalManager.RecoveryManager.Write | pkg/replay/recovery.go:146-176 | the number advances even when marshalling or the append fails; the log grows by what landed; a checkpoint is due at multiples of the interval |
| WalManager.RecoveryManager.FindLatestCheckpoint | pkg/replay/recovery.go:404-443 | the loop's result is 0 or some readable file's number, none is larger, and it is 0 where no checkpoints are kept |
| WalManager.RecoveryManager.ReplayWal | pkg/replay/recovery.go:308-402 | the loop terminates on any bytes; entries and both counters are those of the frame-by-frame verdicts |
| WalManager.RecoveryManager.Recover | pkg/replay/recovery.go:221-306 | under any schedule every accepted entry is applied once; what is accepted are the entries of the log that verify and exceed every readable checkpoint; the result counts them, lists the failures, and succeeds iff there are none; the number becomes the last one's; its premise is exactly that under which the source always returns |
| WalProcess.Restarted | pkg/replay/recovery.go:76-144 | a new manager over the files, after its recovery, is where the run's restart action leads |
| WalProcess.Process | pkg/replay/recovery.go:146-306 | over any run of writes, checkpoints and restarts the manager objects end where WalRuns does, so its results hold of them |
| WalRuns.TornAppendIsDropped | pkg/replay/recovery.go:168-176 | an append that breaks inside its frame is dropped by the next recovery, which hands out what was logged before |
| WalRuns.SequenceDiscipline | pkg/replay/recovery.go:152-206 | over any writes, checkpoints and restarts numbers strictly increase, and every number up to a checkpoint was logged or its Write failed |
| WalRuns.AcceptedSurvive | pkg/replay/recovery.go:233-246 | a restart hands out exactly the logged entries that survive, in increasing order |
| WalRuns.CheckpointDividesTheLog | pkg/replay/recovery.go:178-206 | a checkpoint hides exactly what was logged when it was begun, however late its file appears |
| WalRuns.CheckpointTaken | pkg/replay/recovery.go:178-206 | so do its two halves around any writes |
| WalRuns.ResumesAtLastIff | pkg/replay/recovery.go:300-303 | a restart resumes at the last number logged iff that entry is beyond the checkpoint and verifies |
| WalRuns.StableLogResumes | pkg/replay/recovery.go:300-303 | where every checksum verifies, accepting any entry is enough for that |
| WalRuns.StableDiscipline | pkg/replay/recovery.go:221-306 | over runs whose checksums verify, with restarts that accept anything or find nothing, numbers increase and a recovery hands out every entry beyond the checkpoint |
| WalRuns.RestartResumes | pkg/replay/recovery.go:300-303 | such a restart changes only the number, which ends beyond the checkpoint |
| WalRuns.NewEntriesExceedCheckpoint | pkg/replay/recovery.go:300-303 | everything logged after a restart exceeds the checkpoint it found |
| WalRuns.RestartNumberIsNewIff | pkg/replay/recovery.go:300-303 | the next number is new to log and checkpoints iff the restart accepted the last entry logged or there was nothing to lose |
| WalRuns.EntryUnderCheckpointIsLost | pkg/replay/recovery.go:385-388 | after a restart that accepted nothing, the next acknowledged entry stays in the log and is dropped by every later recovery |
| WalRuns.BelowCheckpointForGood | pkg/replay/recovery.go:385-388 | no later recovery hands out a number at or below a checkpoint |
| WalRuns.LossIsReachable | pkg/replay/recovery.go:178-206 | one write and its checkpoint lead there from an empty directory |
| WalRuns.SeenReadingsLoseEveryRun | pkg/replay/recovery.go:532-549 | if the hash sees the readings, recovery from any run replays nothing and leaves the number at 0 |
| ReplayPool.StepKeepsInv | pkg/replay/recovery.go:249-281 | every step of every schedule keeps taken = applied + in flight and failed = reported + unreported |
| ReplayPool.AppliedIsPrefixMinusInFlight | pkg/replay/recovery.go:254-277 | the applied entries are the taken prefix minus at most one in flight per worker |
| PoolProgress.RunsAreBounded | pkg/replay/recovery.go:249-281 | no schedule is longer than its starting measure |
| PoolProgress.Progress | pkg/replay/recovery.go:266-281 | while failures leave room in the error channel some step is enabled until the end |
| PoolProgress.RecoveryCompletes | pkg/replay/recovery.go:249-292 | such a run ends with every entry applied exactly once, all counted, and every failure reported |
| PoolReturns.FollowOrder | pkg/replay/recovery.go:254-277 | w workers can apply the entries in any order that takes none w or more places ahead of its turn, unless the error channel jams first |
| PoolReturns.DeadlockExists | pkg/replay/recovery.go:269-275 | if the failures of one such order do not fit the error channel beside the nils, some schedule gets stuck |
| PoolReturns.ReturnsIff | pkg/replay/recovery.go:249-292 | for any job and any number of workers, no schedule gets stuck iff the failures of every such order fit |
| PoolReturns.OneWorkerReturnsIff | pkg/replay/recovery.go:249-292 | with one worker, iff the failures of the log's own order fit |
| PoolSchedules.SafeEntriesFit | pkg/replay/recovery.go:254-262 | entries that cannot fail never overflow the error channel |
| PoolSchedules.FixedErrorsFitIff | pkg/replay/recovery.go:269-275 | where outcomes do not depend on the order, the failures of every order fit iff nothing fails or entries plus failures are at most ErrorChannelBuffer |
| PoolSchedules.RunPool | pkg/replay/recovery.go:249-281 | under that exact condition the pool run by any scheduler terminates with everything done |
| PoolSchedules.HoldBack | pkg/replay/recovery.go:254-264 | with two workers or more any entry can be the last one applied |
| PoolSchedules.SingleWorkerReplay | pkg/replay/recovery.go:254-264 | one worker applies in log order, whatever the entries |
| TierReplay.EntryIsLocal | pkg/tieredcache/tieredcache.go:183-200 | an entry changes its own key in its own tier only, and fails by what is there |
| TierReplay.EntryFailsIff | pkg/tieredcache/tieredcache.go:183-200 | exactly which entries fail, and that those change nothing |
| TierReplay.PlaceAfter | pkg/tieredcache/tieredcache.go:183-200 | after any order of applications each place holds what its last deciding entry left |
| TierReplay.ParallelReplay | pkg/replay/recovery.go:249-281 | entries at distinct places leave the same tiers as in-order replay, for any workers and schedule |
| TierReplay.AgreeingReplay | pkg/replay/recovery.go:249-281 | so do repeated places whose deciding entries leave the same |
| TierReplay.ScheduleFreeIff | pkg/replay/recovery.go:249-281 | with two workers or more every schedule leaves the in-order tiers iff at each place all deciding entries leave the same |
| TierReplay.RepeatedKeysReplay | pkg/replay/recovery.go:249-281 | with repeats each place ends as one of its own entries left it, or untouched |
| TierReplay.RepeatedKeysReorder | pkg/replay/recovery.go:249-281 | a finished schedule of two workers in which the older of two entries wins |
| TierReplay.ReplayCompletesIff | pkg/tieredcache/tieredcache.go:181-200 | recovery of any log returns under every schedule iff the failures of every order in reach fit; at distinct places, iff nothing fails against the starting tiers or entries and failures are at most 10 |
| TierReplay.AtMostHundredAhead | pkg/replay/recovery.go:250-277 | recovery sends at most 100 entries ahead of its workers, and on some schedule that many |
| TierReplay.RoundsNeedOneWorker | pkg/replay/recovery.go:249-281 | a log of Set and Delete rounds that one worker always replays and more workers can hang on |
| CrashRecovery.CrashRecovers | pkg/tieredcache/tieredcache.go:404-494 | from the bytes of the log, one worker brings L0 back as all Sets and Deletes left it before the crash, where every checksum verifies and nothing evicts |
| CrashRecovery.CrashRecoversIff | pkg/replay/recovery.go:249-281 | with more workers every schedule does iff, of each key, all accepted Sets and all Deletes leave the same |
| StoreReplay.NoScheduleEvicts | pkg/l0/l0_cache.go:208-235 | if each shard's bytes and Sets fit its limit, no schedule evicts and the contents are the map's |
| StoreReplay.StoreParallelReplay | pkg/replay/recovery.go:249-281 | parallel replay into the sharded cache then ends as in-order replay where deciding entries agree |
| StoreReplay.StoreOrdersFitIff | pkg/replay/recovery.go:269-275 | the error channel suffices for the cache iff it does for the maps |
| ClockRing.VisitedOnce | pkg/l0/l0_cache.go:411-412 | a pass visits each slot of its range at exactly one turn, in rotation from the hand |
| ClockRing.FirstVictim | pkg/l0/l0_cache.go:411-434 | the victim is the first unreferenced live key from the hand; none before it qualifies |
| ClockRing.PassEvictsIff | pkg/l0/l0_cache.go:411-441 | a pass evicts iff its range holds an unreferenced live key, wherever the hand is |
| ClockRing.SkippedSlots | pkg/l0/l0_cache.go:415-438 | every slot passed over was empty, stale, or has just lost its bit |
| ClockRing.SecondPassEvictsIff | pkg/l0/l0_cache.go:435-441 | after a pass that evicted nothing the next evicts iff the range names a live key |
| ClockRing.EmptyFoundIff | pkg/l0/l0_cache.go:447-464 | a slot for a new key is found iff the ring is not full |
| L0Spec.EvictOneEvictsIff | pkg/l0/l0_cache.go:405-442 | evictOne returns true iff a victim exists; otherwise only reference bits change |
| L0Spec.SecondChance | pkg/l0/l0_cache.go:405-442 | the same for two evictOne calls in a row on a shard |
| L0Spec.EvictOneKeepsValid | pkg/l0/l0_cache.go:419-433 | ring, map and counters agree after eviction |
| L0Spec.SetKeepsValid | pkg/l0/l0_cache.go:214-235 | they agree after Set, also when it evicts the key being overwritten, and the key just set is present |
| L0Spec.DemoteKeepsValid | pkg/l0/l0_cache.go:573-590 | they agree after Demote, with or without a slot |
| L0Spec.CountersAgree | pkg/common/errors.go:336-352 | bytes <= 4096 * weight < bytes + 4096 * entries, and entries <= weight <= bytes |
| L0Clock.EvictionFreesFirstClear | pkg/l0/l0_cache.go:411-434 | an eviction takes the first unreferenced stored key in rotation, clears the bits it passed, and leaves the hand just after the freed slot |
| L0Clock.FruitlessPassClears | pkg/l0/l0_cache.go:411-441 | a pass that evicts nothing clears every bit it scans and moves nothing |
| L0Clock.NextEviction | pkg/l0/l0_cache.go:411-434 | the second of two evictions takes the first unreferenced stored key in rotation from just past the first |
| L0Clock.KeyTakesFirstEmpty | pkg/l0/l0_cache.go:444-464 | a new key takes the first empty slot from the hand with its bit set; a full ring leaves it out and moves the hand one on |
| L0Clock.FreedSlotComesLast | pkg/l0/l0_cache.go:431-464 | the next new key gets the slot just freed iff the ring was full |
| L0Clock.NoEvictionTooMany | pkg/l0/l0_cache.go:214-220 | Set evicts no further than needed: with one of the evicted keys back there would be no room |
| L0Clock.DeleteLeavesRing | pkg/l0/l0_cache.go:252-268 | Delete changes the map and its counts and nothing of the ring |
| L0Clock.DemoteClearsLowest | pkg/l0/l0_cache.go:568-592 | Demote also empties the lowest slot naming the key, and the hand stays |
| L0Shard.Shard.EvictOne | pkg/l0/l0_cache.go:403-442 | the in-place scan computes the eviction pass and no counter underflows |
| L0Shard.Shard.AddToClock | pkg/l0/l0_cache.go:444-464 | the in-place scan puts the key in the first empty slot from the hand, or moves the hand of a full ring |
| L0Shard.Shard.Set | pkg/l0/l0_cache.go:208-235 | the eviction loop terminates, and the whole new state is that of making room, inserting, and adding to the ring |
| L0Shard.Shard.Delete | pkg/l0/l0_cache.go:252-268 | removes the entry and its bytes and weight, leaving its slot stale |
| L0Shard.Shard.Demote | pkg/l0/l0_cache.go:568-592 | removes the entry and clears the lowest slot naming it |
| L0Runs.ShardInvariant | pkg/l0/l0_cache.go:191-269 | after every mix of Set, Delete and Demote: counters are sums, inserts = live + evictions + deletes + demotions, every live key has a slot or met a full ring, memory is within the clean bound plus a payload per recent give-up |
| L0Runs.MakeRoomHistory | pkg/l0/l0_cache.go:214-220 | the eviction loop loses nothing uncounted, and gave up iff there is neither room nor an empty shard |
| L0Runs.NewKeySurvivesNextPass | pkg/l0/l0_cache.go:450-454 | a key that just entered the ring is not the next pass's victim |
| L0Memory.BoundIsReached | pkg/l0/l0_cache.go:214-232 | clean Sets alone reach the clean bound, for every limit, payload limit and ring |
| L0Memory.DeadRingStays | pkg/l0/l0_cache.go:411-464 | a full ring of stale names stays so and evicts nothing; each new key adds its bytes |
| L0Memory.DeletesAreUnbounded | pkg/l0/l0_cache.go:208-268 | for every configuration and bound a run of Sets of new keys and Deletes exceeds it |
| L0Memory.NextPassEvictsIff | pkg/l0/l0_cache.go:403-442 | when Set gives up, the next pass evicts iff the scanned range names a stored key |
| L0Fresh.FreshRunsAreBounded | pkg/l0/l0_cache.go:208-235 | without Deletes and Sets of stored keys, memory never exceeds the clean bound and a payload for each of half the slots and three more |
| L0Overwrites.OverwritesAreUnbounded | pkg/l0/l0_cache.go:208-235 | with Sets of stored keys, and no Delete, some run exceeds any bound |
| L0Overwrites.BoundedIff | pkg/l0/l0_cache.go:191-269 | a bound for all runs of a kind exists iff they neither delete nor set stored keys |
| CacheMemory.CacheFreshRunsAreBounded | pkg/l0/l0_cache.go:391-401 | routed over all shards, such runs keep the whole cache within the sum of the shards' bounds |
| L0CacheSpec.StatsDescribeTheMap | pkg/l0/l0_cache.go:334-369 | sums over shards are the size, weight and memory of the one map, and each key is in its hash shard |
| L0Sharding.KeyIsInItsShard | pkg/l0/l0_cache.go:391-396 | a stored key is in the shard numbered hash modulo the number of shards, and in no other |
| L0Sharding.RejectedSet | pkg/l0/l0_cache.go:195-206 | Set rejects exactly an empty key, an empty value and a value over the payload limit, and then changes nothing |
| L0Sharding.SetLeavesOtherShards | pkg/l0/l0_cache.go:208-235 | a Set changes no other shard, so no entry whose key hashes elsewhere |
| L0Sharding.SetEvictsIff | pkg/l0/l0_cache.go:214-220 | a Set evicts iff its shard's bytes and the value's 4 KB units exceed maxMemory divided by the number of shards and the ring in use names a stored key with a clear bit |
| L0Sharding.SetWithinShare | pkg/l0/l0_cache.go:398-401 | within that share nothing is evicted and the whole map changes at the key only |
| L0Sharding.EvictionsAreCounted | pkg/l0/l0_cache.go:334-369 | the evictions counted account for every entry that a Set cost the cache |
| L0CacheSpec.SetWithRoom | pkg/l0/l0_cache.go:190-240 | a Set with room changes exactly its own key in the whole map |
| L0CacheSpec.SetKeepsOthers | pkg/l0/l0_cache.go:190-240 | any Set: its key holds the new entry, other keys are as they were or were evicted from the same shard |
| L0CacheSpec.DeleteRemovesKey | pkg/l0/l0_cache.go:242-269 | Delete takes exactly its key out of the whole map |
| L0CacheSpec.DemoteRemovesKey | pkg/l0/l0_cache.go:562-593 | so does Demote |
| L0CacheSpec.ReadAfterSet | pkg/l0/l0_cache.go:147-240 | a Set is read back; another key reads as before unless evicted from the same shard |
| L0CacheSpec.ReadAfterRemoval | pkg/l0/l0_cache.go:147-269 | a removed key is not found and every other key reads as before |
| L0CacheSpec.CacheStepIsOperation | pkg/l0/l0_cache.go:391-396 | an operation routed by the hash is the cache's own operation |
| L0CacheSpec.CacheRunsWithinBound | pkg/l0/l0_cache.go:398-401 | after any sequence of routed operations the cache is within maxMemory plus less than a payload a shard plus one per recent give-up |
| L0Cache.Cache.constructor | pkg/l0/l0_cache.go:115-139 | a new cache holds nothing in every shard |
| L0Cache.Cache.Set | pkg/l0/l0_cache.go:190-240 | errors change nothing; otherwise only the home shard changes, as by its Set, and is counted |
| L0Cache.Cache.Get | pkg/l0/l0_cache.go:147-188 | answers from the whole map unless the key is absent or expired, with the source's error cases, and counts hits and misses |
| L0Cache.Cache.Delete | pkg/l0/l0_cache.go:242-269 | takes exactly its key out of the whole map, through its home shard only, and reports whether it was there |
| L0Cache.Cache.Demote | pkg/l0/l0_cache.go:562-593 | likewise, clearing its slot |
| L0Cache.Cache.Stats | pkg/l0/l0_cache.go:333-369 | the loop's totals are the sums over all shards, next to the operation counters |
| SnapshotFormat.RestoreNeverSucceeds | pkg/l0/snapshot.go:282-327 | no file makes restoring return success |
| SnapshotFormat.RestoreIssuesEveryEntry | pkg/l0/snapshot.go:282-314 | a written file issues exactly one Set per saved entry, in order, before the checksum is met |
| SnapshotFormat.UnparsableEndsIt | pkg/l0/snapshot.go:300-306 | the first entry that does not parse ends restoring: what came before is set, what follows is not |
| SnapshotFormat.CutShortEndsIt | pkg/l0/snapshot.go:282-298 | so does a length cut short, one promising more bytes than follow, or the end of the file, each with its own error |
| SnapshotFormat.WrittenFileEnding | pkg/l0/snapshot.go:282-306 | a whole written file sets its entries and ends with its checksum taken for an entry's length |
| SnapshotFormat.BadPreambleIff | pkg/l0/snapshot.go:245-277 | nothing is set, as a bad beginning, iff the file is not the magic number, version 1 and a whole header that parses |
| SnapshotFormat.RejectedIsSkipped | pkg/l0/snapshot.go:308-312 | an entry that Set rejects is skipped, and those after it are set |
| SnapshotFormat.RoomForNext | pkg/l0/l0_cache.go:214-220 | no restored entry evicts: weights are at most sizes and each shard's bytes fit |
| SnapshotFormat.SnapshotRoundTrip | pkg/l0/snapshot.go:112-157 | write then restore into an empty cache of the same shape gives the same keys, values and TTLs |
| Snapshotter.Snapshots.WriteSnapshot | pkg/l0/snapshot.go:37-181 | the file lists every entry of every shard once, under a header of their number and bytes and before a checksum of them; nothing is written while the flag is set |
| Snapshotter.Snapshots.Snapshot | pkg/l0/l0_cache.go:496-505 | the periodic entry point never produces a file and leaves the flag as it was |
| Snapshotter.Snapshots.RestoreFromSnapshot | pkg/l0/snapshot.go:233-328 | a closed cache is left alone; otherwise the cache becomes what the parsed entries set; the call reports an error either way |
| Retention.NamesOrdered | pkg/l0/snapshot.go:48-51 | for equal decimal length, name order is time order |
| Retention.LongerNamesOrderedIff | pkg/l0/snapshot.go:48-51 | for timestamps of different length the longer one's head decides |
| Retention.NewestLeftIff | pkg/l0/snapshot.go:330-347 | for any timestamps, cleaning leaves exactly the newest three iff no older, shorter timestamp is larger than the head of one of theirs |
| Retention.CleanOldSnapshots | pkg/l0/snapshot.go:330-347 | the loop removes all but the last three names |
| Retention.KeepsTheNewest | pkg/l0/snapshot.go:338-346 | for equal decimal length, cleaning leaves exactly the snapshots with fewer than three newer ones, and every other file |
| Retention.KeepsThree | pkg/l0/snapshot.go:338-346 | which are min(3, n) of them |
| Retention.CleaningKeepsTheOldest | pkg/l0/snapshot.go:338-346 | otherwise the oldest can stay and a newer one go |
| TierSafety.ReadsWereWritten | pkg/tieredcache/tieredcache.go:370-388 | in every interleaving a value read under a key was given to an earlier Set of it |
| TierSafety.L1KeysStayReadable | pkg/tieredcache/tieredcache.go:422-435 | once L1 holds a key, no steps without a Delete of it make a Get miss, crashes and failing writes included |
| TierSafety.TieringKeepsKeysReadable | pkg/tieredcache/tieredcache.go:646-665 | copy, verify, demote never makes a readable key unreadable, even when L1 writes fail |
| TierFreshness.StepKeepsCoherent | pkg/tieredcache/tieredcache.go:360-494 | every step of non-overlapping operations keeps L0 equal to L1 on idle keys |
| TierFreshness.TiersRefineOneMap | pkg/tieredcache/tieredcache.go:361-494 | every Get in every such run, with crashes anywhere, returns the last value written and not removed |
| TierFreshness.GetAnswers | pkg/tieredcache/tieredcache.go:370-388 | a Get's steps answer from L0 and then L1, change neither, and leave a promotion after an L1 hit |
| TierFreshness.DirectSetWrites | pkg/tieredcache/tieredcache.go:496-512 | SetToL1 writes L1 and nothing else, unless it is rejected or fails |
| TierFreshness.PrewarmLands | pkg/tieredcache/tieredcache.go:237-248 | a pre-warming worker puts what L1 held into L0, if L0 accepts it, and does nothing else |
| TierFreshness.DirectSetVisibleIff | pkg/tieredcache/tieredcache.go:496-512 | the Get after SetToL1 returns its value iff L0 holds no other servable one |
| TierFreshness.PromotionFreshIff | pkg/tieredcache/tieredcache.go:382-385 | the Get after a landing promotion is fresh iff L1 still holds what was read |
| TierFreshness.StalePromotion | pkg/tieredcache/tieredcache.go:382-385 | a run in which a Get returns a replaced value |
| TierFreshness.TieringFreshIff | pkg/tieredcache/tieredcache.go:646-665 | the Get after copy, verify, demote is fresh iff the copy was the last value written |
| TierOverlap.L1FollowsWrites | pkg/tieredcache/tieredcache.go:422-435 | while one task waits, with anything else interleaved, L1 holds what the last completed write of a key left |
| TierOverlap.LatePromotionFreshIff | pkg/tieredcache/tieredcache.go:382-385 | a promotion that lands after any other steps keeps the next Get fresh iff no write of the key completed since its read, or the last one wrote the same |
| TierOverlap.TieringAmongWritersFreshIff | pkg/tieredcache/tieredcache.go:646-665 | so does a tiering pass among any other steps iff a write completed after its copy, or none before, or the last of those wrote the same |
| TierFreshness.TieringLosesSet | pkg/tieredcache/tieredcache.go:646-665 | a run after which every Get returns a replaced value until the next write |
| TierFreshness.SettledReads | pkg/tieredcache/tieredcache.go:370-388 | once both tiers and all tasks agree on a key, every Get returns that value in every run without a write of it |
| TierStore.StepRefines | pkg/l0/l0_cache.go:208-235 | each call into the sharded cache is the protocol's step after evictions of other keys of the shard |
| TierStore.RunRefines | pkg/tieredcache/tieredcache.go:360-494 | every run over the sharded cache is a run of the protocol with evictions put in, and admissible if it was |
| TierStore.StoreRefinesOneMap | pkg/tieredcache/tieredcache.go:361-494 | over the sharded cache, for any hash, limit and rings, every Get of a run without overlaps returns the last value written and not removed |
| TierStore.StoreReadsWereWritten | pkg/tieredcache/tieredcache.go:370-388 | in every run over it a value read under a key was given to an earlier Set of it |
| TieredCache.Tiers.Get | pkg/tieredcache/tieredcache.go:360-402 | has the effect and answer of the protocol's steps: L0 first, then L1, whose hits are to be promoted |
| TieredCache.Tiers.Set | pkg/tieredcache/tieredcache.go:404-453 | has the effect of the protocol's steps; a failed L1 write is not reported |
| TieredCache.Tiers.Delete | pkg/tieredcache/tieredcache.go:455-494 | has the effect of the protocol's steps; succeeds iff both tiers do, and a key missing from L0 is an error |
| TieredCache.Tiers.PerformTiering | pkg/tieredcache/tieredcache.go:625-666 | has the effect of the protocol's steps; exactly the copied and verified candidates leave L0, copied keys read as their L0 value, all other reads are unchanged |
| PreWarm.L1Iterator.constructor | pkg/l1/l1_badger.go:534-544 | a new iterator has every item of every shard ahead of it |
| PreWarm.L1Iterator.Next | pkg/l1/l1_badger.go:556-573 | yields the next item across empty and nonempty shards, false only when none is left |
| PreWarm.L1Iterator.InitShard | pkg/l1/l1_badger.go:575-598 | opens the first nonempty shard from the current one on |
| PreWarm.EveryKeyOnce | pkg/l1/l1_badger.go:450-455 | what the iterator walks has every L1 key exactly once |
| PreWarm.PreWarmL0 | pkg/tieredcache/tieredcache.go:252-300 | what is sent is the readable part of a prefix, once each across flushes, counted exactly; it ends at the first memory pressure, the first value beyond half of maxMemoryMB, or the end |
| PreWarm.PreWarmKeepsReadsIff | pkg/tieredcache/tieredcache.go:241-248 | for what the loop sends, loaded and evicted in any order, every Get answers as before iff L0 served nothing that L1 does not hold |
| PreWarmPool.PreWarmReturnsIff | pkg/tieredcache/tieredcache.go:226-302 | the workers return under every schedule iff no more entries are rejected than there are workers, else under none |
| PreWarm.LoadableIff | pkg/tieredcache/tieredcache.go:262-284 | what is sent from a prefix are its readable items, each with its key and value |
| PreWarmPool.SentOnce | pkg/l1/l1_badger.go:450-455 | no key is sent twice |
| PreWarmPool.PreWarmLoadsEverything | pkg/tieredcache/tieredcache.go:237-248 | once the workers are through, with nothing evicted meanwhile, L0 holds every entry sent that it accepts, and what it held |
| PreWarmPool.PoolKeepsReads | pkg/tieredcache/tieredcache.go:226-248 | at every moment of every schedule every Get answers as before |
| Backoff.CalculateBackoff | pkg/l2/retry.go:206-216 | the loop computes min(attempt, MaxRetries) capped rounds |
| Backoff.ClosedFormByAttempt | pkg/l2/retry.go:206-216 | by attempt: the power stops growing at MaxRetries, and there is none for attempt 0 |
| Backoff.OneMoreAttempt | pkg/l2/retry.go:206-216 | for any multiplier, one more attempt waits the multiple of the wait before, cut to whole nanoseconds and to Max, until MaxRetries |
| Backoff.ClosedForm | pkg/l2/retry.go:206-216 | for an integer multiplier the value is min(Max, Initial * m^n) |
| Backoff.MonotoneAndCapped | pkg/l2/retry.go:206-216 | for any multiplier of at least one the backoff never shrinks and never passes Max |
| Backoff.CappedIff | pkg/l2/retry.go:206-216 | every attempt is within Max iff the initial value is |

## Left out

- StoreReplay.NoScheduleEvicts: where the log's Sets do not fit a shard, what parallel replay evicts is not modelled; the results over maps then speak of a cache that evicts nothing.
- TierReplay.ScheduleFreeIff: stated for logs that recovery returns from under every schedule; otherwise a schedule that ends differently may never end.
- L0Overwrites.BoundedIff: a limit of one byte and rings of fewer than three slots are left aside; the source's rings have at least 1024.
- TierStore.StoreRefinesOneMap: evictions happen only to make room, as in the source's Set; L1 is a map.
- TierOverlap.TieringAmongWritersFreshIff: one tiering task per key, as in the source, and a copy that is verified.
- CrashRecovery.CrashRecovers: calls follow one another; a Set that overtakes another between L0 and the log is not modelled, nor is L0 evicting.
- WalProcess.Process: the entries of a recovery do not fail in these runs; with failing ones `Recover` is stated by itself.
- WalRuns.SequenceDiscipline: sequence numbers are unbounded; wrap-around of the 64-bit counter is not modelled. Appends that tear a frame are the subject of WalFormat, not of these runs.
- TierFreshness.TiersRefineOneMap: entries do not expire, and a restart recovers no log entries into L0.
- SnapshotFormat.SnapshotRoundTrip: access times and counts, creation times and the header's timestamp are not part of the saved entry.
- Backoff.CalculateBackoff: the multiplier is a real number; rounding of 64-bit floats is not modelled.
- PreWarmPool.PreWarmReturnsIff: for a positive batch size, that is, a buffered entry channel.
- TieredCache.Tiers.PerformTiering: candidates are a parameter, since the order of map iteration is unspecified.
- Cancellation of replay and recovery, and read errors other than the end of the file.
- Badger, compression, sync workers and disk usage: L1 is a map, sharded for the iterator, whose writes may fail.
- L2 sinks, the sink manager, retry and dead-letter queues: network clients and plain queues, and no sink is ever registered.
- JSON, CRC-32 and FNV-1a: parameters.
- TTL expiry by the clock, access metadata, hit-rate arithmetic, usage ratios and latency averages.
- File-system errors, directories, fsync, timers, goroutine start-up and the Go memory model.
- FindLatestSnapshot (newest by modification time), configuration loading and validation, commands and logging: they would add only easy members.
