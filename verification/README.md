# A verified model of wjetcd

wjetcd is a small etcd-like store in Go: commands go through a Raft log, a server
applies each committed command to a multi-version key-value store and a lease table,
journals it in a write-ahead log (WAL), and recovers from a snapshot plus the WAL after
a restart. Locks are built on leases. This project models that core in Dafny and proves
what it is meant to guarantee over all inputs, runs and interleavings.

`dafny verify dfyconfig.toml` checks everything.

## How the model is laid out

| file | models |
|---|---|
| `Commands.dfy` | the command record, deadline stamping with 64-bit wrap-around, the float64 hop integers take through JSON |
| `SortedKeys.dfy` | key order and the canonical listing of a set of keys |
| `MvccStore.dfy`, `KVStore.dfy` | the multi-version store as a value, and as the object that is updated in place |
| `LeaseTable.dfy`, `LeaseManager.dfy` | the lease table as a value, and the lease manager object with its array min-heap |
| `StateMachine.dfy`, `Server.dfy` | the apply loop and the separate recovery copy as functions, and the server object with the code of both |
| `Replication.dfy` | replay equals live execution; replicas agree |
| `Histories.dfy` | time-travel reads, compare-and-swap guards, refinement of a plain map |
| `Outcomes.dfy` | what a client observes of one command: answer, record, keys, leases, revision |
| `Expiry.dfy` | expiry revokes in flight while leases are renewed |
| `Wal.dfy`, `Checkpoint.dfy` | the WAL as bytes; snapshot, WAL identity and offset, crashes and restarts |
| `Rounding.dfy` | what the float64 hop does to whole runs |
| `Startup.dfy` | the startup code on the server object |
| `SampleCodec.dfy` | one concrete record codec, to show that the laws asked of a codec can be met |
| `Voting.dfy`, `Election.dfy` | the node's election handlers as an object; every interleaving over a cluster |
| `RaftLog.dfy`, `LogMerge.dfy` | the follower's log merge against Figure 2 of the Raft paper (Ongaro and Ousterhout, extended version) |
| `Delivery.dfy` | delivery of committed entries to the service, with compaction and installed snapshots |
| `Locks.dfy` | the lock manager over the lease manager |

Each object of the source is a class whose methods are proved equal to a function on
values; the results over runs are lemmas about those functions.

## Main results

- **Crash safety** (`Checkpoint.CrashSafety`). After any run of appends, failed writes,
  snapshots, clears, crashes and restarts, recovery yields the state of all commands
  applied in memory plus at most one that was journaled and not yet applied; only
  deadlines set behind the snapshot are rounded to float64. `Startup.Restart` says it of
  the server object.
- **Replay equals live execution** (`Replication.ReplayIsLive`), in both directions: it
  holds exactly for journals of known command types.
- **Replicas agree** whatever their clocks say (`Replication.ReplicasAgree`), followers up
  to rounded deadlines (`Rounding.FollowerRounds`).
- **Lease coherence, heap and expiry** (`StateMachine.ReachableInv`, `LeaseManager`,
  `Expiry.ExpiryIsSafe`, `Server.Server.CleanupExpired`).
- **Time travel, compare-and-swap without ABA, refinement of a plain map**
  (`Histories`).
- **Election safety and one vote per term across restarts**, and when the leader role is
  unique (`Election`).
- **The follower merge is the paper's rule**, and agreement with a leader never shrinks
  under repeated, delayed and reordered messages (`RaftLog`, `LogMerge`).
- **Gapless, ordered delivery** of the log's own commands, with unreachable panics
  (`Delivery`).
- **Mutual exclusion of locks**, beside any command traffic (`Locks`).

## Where the code falls short of what one would expect

Each point is proved as an exact condition, with a concrete input where one is useful.

- A prefix delete numbers its tombstones with the store's own counter, which lags behind
  the server's after a failed compare-and-swap. Reads up to the store's revision are
  stable; reads up to the server's are stable exactly when no prefix delete writes at or
  below them (`Histories.ServerReadsStableIff`, `Histories.FailedCasLetsPrefixDeleteBackfill`).
- Integers read from the WAL or by a follower pass through float64. Nanosecond deadlines
  are beyond 2^53. Rounding is harmless as long as every expiry revoke still hits or misses
  its lease; it does not where the lease comes from a snapshot, which keeps deadlines
  exactly, and the deadline is not a float64 (`Rounding.LiveRoundsIff`,
  `Checkpoint.ExpiryRecoveryIff`, `Checkpoint.ExpiredLeaseReturns`).
- A command of unknown type is journaled and ignored live, and makes every later recovery
  from that journal fail (`Replication.RecoveredIsLive`).
- A time-to-live that overflows 63 bits leaves a lease command without a usable deadline
  (`Commands.NormaliseStamps`, `Commands.EndlessGrantHasNoDeadline`,
  `Replication.UnstampedGrantReplay`).
- A torn last WAL line is ignored on reading and never trimmed. A command applied on top
  of it, or a shutdown snapshot taken over it, cannot be recovered
  (`Checkpoint.AppendRecoverableIffClean`, `Checkpoint.SaveRecoverableIffClean`,
  `Checkpoint.TornTailLosesCommands`).
- Clearing the WAL is only safe because the new file has another identity
  (`Checkpoint.ClearNeedsNewIdentity`).
- The append-entries handler does not check the entry at index 0, dereferences nil for a
  positive index before the compacted log, and bounds the commit index by its own last
  index, so that the index can also go down (`RaftLog.CheckIsRaftAcceptsIff`,
  `RaftLog.NilEntryIff`, `LogMerge.AcceptedAgreesIff`, `LogMerge.CommitRuleSafeIff`,
  `LogMerge.CommitDropsIff`).
- A vote request with a newer term leaves a leader standing in a term it did not win.
  Election wins are unique. Every leader has won its term exactly as long as no live leader
  is handed such a request, and then the role is unique too (`Election.LeadersAlwaysWonIff`, `Election.OneLeaderPerTerm`,
  `Election.TwoLeadersInOneTerm`).
- A cluster of one node never elects a leader, since only a reply can complete a majority
  (`Voting.MajorityWins`, `Election.AloneNeverLeads`).
- Releasing a lock reports "expired" unless its lease had keys attached
  (`Locks.LockManager.Release`).

## Reading of the source

- Every region under a mutex is one atomic step. Some branches take a mutex that is
  already held (`server/server.go:1100`, `1113`, `1125`; `kv/store.go:101`); the model
  follows their intended effect.
- `time.Now`, the outcome of a WAL write, the order of Go's map iteration and the network
  are inputs: a parameter, a `bool`, an arbitrary choice, a set of messages.
- Deadlines wrap at 64 bits as in Go. Revisions, lease ids, terms and log indices are
  unbounded integers.
- A key is a sequence of characters ordered by code point.
- The WAL record codec is any function that writes non-empty lines without a newline and
  reads them back with integers rounded to float64 (`Wal.Readable`). Where a torn line is
  followed by a record, it also must not read the glued line as a record (`Wal.Lawful`).
  `SampleCodec.SampleIsLawful` shows that such codecs exist.
- Both a WAL and a snapshot file are configured.
- Node `i` of an election is `peers[i]`, which is the contract of `raft.Make`.

## Model

| member | source | states |
|---|---|---|
| `Commands.NormaliseStamps` | server/server.go:1240-1249 | a submitted lease command leaves the leader with a usable deadline that is also the requested one exactly when the deadline was given or the requested one fits 63 bits; within one wrap of the clock it has no usable deadline otherwise |
| `Commands.RequestedSeconds` | server/server.go:1240-1249 | the requested deadline is the given number of seconds from now, ten if none is given |
| `Commands.EndlessGrantHasNoDeadline` | server/server.go:1240-1249 | a grant for 9223372037 seconds leaves with a negative deadline |
| `Commands.RoundIsNearest` | server/server.go:1169-1179 | the integer read back is a multiple of the float64 gap at its size, and no other multiple is nearer |
| `Commands.TiesToEven` | server/server.go:1169-1179 | of two float64 values that are equally near, the one with the even significand is read back |
| `Commands.FloatExactness` | server/server.go:1169-1179 | an integer survives the JSON hop exactly when nothing is left below its 53-bit significand; all integers up to 2^53 do |
| `Commands.RoundedIsExact` | server/server.go:1169-1179 | a second hop changes nothing |
| `Commands.ThroughFloat64Positive` | server/server.go:1169-1179 | rounding never turns a positive deadline into none |
| `Commands.JsonExactness` | server/server.go:534-554 | a command survives the hop exactly when each of its integers does |
| `SortedKeys.SortIsCanonical` | kv/store.go:303-311 | whatever order the map walk delivers the keys in, sorting gives one and the same listing |
| `SortedKeys.AscendingUnique` | server/server.go:293-297 | two ascending listings of the same keys are equal |
| `SortedKeys.StrLessMeans` | kv/store.go:311 | keys are ordered by their first difference, a prefix before its extensions |
| `SortedKeys.HasPrefixMeans` | kv/store.go:307 | a key is under a prefix exactly when it is the prefix and something behind it |
| `MvccStore.ReadsNewestVisible` | kv/store.go:169-191 | a read returns the value and revision of the version behind which no other is visible, an empty value for a tombstone |
| `MvccStore.ReadsNothing` | kv/store.go:169-191 | with no visible version it returns nothing |
| `MvccStore.PlainRead` | kv/store.go:193-196 | a plain read returns the value in the map of live keys, or nothing |
| `MvccStore.AddedVersion` | kv/store.go:79-92 | a write appends one version to one key at the requested revision, or at the store's next without one, and the store's revision never falls behind |
| `MvccStore.AddVersionOk` | kv/store.go:79-162 | a version at a fresh revision keeps every history strictly ascending and within the store's revision |
| `MvccStore.AddVersionUnique` | kv/store.go:79-162 | a revision names one version of one key |
| `MvccStore.TombstoneFromHistory` | kv/store.go:301-323 | deleting a list of keys adds one tombstone to each, at the revision of its place in the list, takes it out of the lease map, and leaves every other history as it was |
| `MvccStore.TombstoneFromOk` | kv/store.go:301-323 | such deletes keep the store well formed |
| `MvccStore.TombstoneFromUnique` | kv/store.go:301-323 | such deletes keep revisions unique across keys |
| `MvccStore.TombstoneFromRev` | kv/store.go:301-323 | such deletes use up exactly one revision per key |
| `KVStore.StoreRoundTrip` | kv/store.go:345-403 | restoring accepts every snapshot of a well-formed store and gives the store back |
| `KVStore.RestoresWhatIsWritten` | kv/store.go:370-388 | restoring accepts exactly what some store with versions inside its revision writes |
| `KVStore.KVStore.SetKeyLease` | kv/store.go:48-52 | names the lease of one key and changes nothing else |
| `KVStore.KVStore.GetKeyLease` | kv/store.go:54-58 | the lease a key is under, 0 for none |
| `KVStore.KVStore.Apply` | kv/store.go:74-167 | state and reply of every command type are those of the store's value model, including failed compare-and-swap, missing keys and unknown types |
| `KVStore.KVStore.GetAtRevision` | kv/store.go:169-191 | the scan from the end returns the newest version not above the revision, a tombstone as an empty value |
| `KVStore.KVStore.LiveKeys` | kv/store.go:222-236 | lists each live key once and no other |
| `KVStore.KVStore.Size` | kv/store.go:238-252 | the number of live keys |
| `KVStore.KVStore.GetPrefix` | kv/store.go:282-298 | exactly the live keys under the prefix with their current values |
| `KVStore.KVStore.DeletePrefix` | kv/store.go:301-323 | adds a tombstone to exactly the known keys under the prefix, already deleted ones included, in ascending order with consecutive revisions, and returns them in that order |
| `KVStore.KVStore.Snapshot` | kv/store.go:345-367 | writes data, lease map and revision in full |
| `KVStore.KVStore.Restore` | kv/store.go:370-403 | accepts exactly the snapshots whose versions lie within their revision; a refused one changes nothing |
| `LeaseTable.TableRoundTrip` | server/server.go:125-181 | whatever order the leases are written in, restoring gives back leases and counter |
| `LeaseTable.RestoresWhatIsListed` | server/server.go:143-170 | restoring accepts exactly the snapshots that list some well-formed table with positive times |
| `LeaseTable.ReleasedIsDetached` | server/server.go:220-231 | taking a key from the first lease found holding it takes it from all, as at most one holds it |
| `LeaseTable.AttachedHolds` | server/server.go:209-218 | attaching makes exactly one live lease hold exactly one key more, with that value, and changes no other key, time or deadline |
| `LeaseManager.MinAtRoot` | server/server.go:316-325 | the root of a heap has the least deadline |
| `LeaseManager.Floated` | server/server.go:363-373 | one upward swap moves the only disorder to the parent |
| `LeaseManager.Sunk` | server/server.go:375-394 | one downward swap moves the only disorder to the child |
| `LeaseManager.RemovedInHeap` | server/server.go:299-311 | putting the last item in place of a removed one leaves disorder at that place only |
| `LeaseManager.LeaseManager.constructor` | server/server.go:117-122 | an empty table with an empty heap |
| `LeaseManager.LeaseManager.BubbleUp` | server/server.go:363-373 | ends with a min-heap over the same items |
| `LeaseManager.LeaseManager.BubbleDown` | server/server.go:375-394 | ends with the same items and at most an item that still has to move up, from any lower bound of the heap part on |
| `LeaseManager.LeaseManager.GrantUntil` | server/server.go:187-207 | a new lease under an id never used before; the heap stays exactly the lease map |
| `LeaseManager.LeaseManager.Attach` | server/server.go:209-218 | records the key under the lease if it exists; the heap is not affected |
| `LeaseManager.LeaseManager.Revoke` | server/server.go:220-231 | takes the key from a lease that holds it, and so from every lease if at most one holds it |
| `LeaseManager.LeaseManager.KeepAliveUntil` | server/server.go:243-264 | renews exactly the leases that exist and restores the heap around the changed deadline |
| `LeaseManager.LeaseManager.RevokeLease` | server/server.go:266-314 | drops the lease from map and heap and returns its keys in ascending order |
| `LeaseManager.LeaseManager.RevokeLeaseIfMatches` | server/server.go:275-284 | drops the lease only if it still has the expected deadline |
| `LeaseManager.LeaseManager.RemoveAt` | server/server.go:299-311 | removing any item keeps the heap exactly the map |
| `LeaseManager.LeaseManager.GetExpiringLease` | server/server.go:316-325 | a lease whose deadline is least among all, none exactly when there is no lease |
| `LeaseManager.LeaseManager.RemoveExpiredLease` | server/server.go:327-360 | removes an expired lease with its keys; if it removes none, no lease has expired |
| `LeaseManager.LeaseManager.Snapshot` | server/server.go:125-140 | lists every lease once with the counter |
| `LeaseManager.LeaseManager.Restore` | server/server.go:143-181 | accepts exactly the snapshots with distinct positive ids up to the counter and positive times, and then heap and map agree; a refused one changes nothing |
| `LeaseManager.LeaseManager.Decode` | server/server.go:148-170 | the validation pass accepts exactly those snapshots and collects one heap item per lease |
| `LeaseManager.LeaseManager.Heapify` | server/server.go:172-179 | turns items in any order into a min-heap over the same items |
| `StateMachine.CoherentIsExclusive` | server/server.go:1064-1090 | no key is held by two leases |
| `StateMachine.EffectKeepsInv` | server/server.go:1024-1145 | every branch of the apply loop keeps store, lease map and lease table coherent and revisions unique and bounded |
| `StateMachine.LiveKeepsInv` | server/server.go:984-1145 | so does a whole turn of the loop, for any command at all |
| `StateMachine.ReachableInv` | server/server.go:941-1160 | in every reachable state a key held by a lease is held by no other, the store names that lease, and its latest version is live with the value the lease records |
| `StateMachine.ReachablePositive` | server/server.go:996-1004 | with usable deadlines, every lease keeps a positive time-to-live and deadline |
| `StateMachine.RecoveredKeepsSound` | server/server.go:559-646 | replaying any record at all keeps leases and store in step |
| `StateMachine.PutIsWrite` | server/server.go:1064-1073 | a put under a lease and a lease attach do the same |
| `Outcomes.LeasedKeyIsHeld` | server/server.go:1064-1073 | after a put or attach under a live lease the key has the written value, and that lease, and no other, holds it with that value |
| `Outcomes.UnleasedKeyIsFree` | server/server.go:1134-1143 | after a put without a lease, or a delete, no lease holds the key |
| `Outcomes.RevokeDeletes` | server/server.go:1033-1048 | a revoke that applies takes away the lease and exactly the keys it held |
| `Outcomes.LeasedKeyDiesWithLease` | server/server.go:1033-1048 | what is written under a lease is gone once the lease is revoked |
| `Outcomes.CasAnswer` | server/server.go:1075-1084 | a compare-and-swap answers OK exactly when it appended the new version, and otherwise reports the failure with the store unchanged |
| `Outcomes.CasAnswersIffUntouched` | kv/store.go:121-143 | a client that read a live revision is answered OK after any run exactly when nothing has touched the key since |
| `Outcomes.GrantAnswer` | server/server.go:1025-1031 | a grant answers the one id that is new in the lease table; the lease has the asked time, the journaled deadline and no keys |
| `Outcomes.KeepAliveAnswer` | server/server.go:1051-1062 | a keep-alive answers OK exactly when the lease is there afterwards with the journaled deadline, and changes neither keys nor other leases |
| `Outcomes.PrefixAnswer` | server/server.go:1086-1098 | a prefix delete answers the number of keys that gained a version |
| `Outcomes.GetAnswer` | server/server.go:1122-1123 | a get answers the plain map's value, or what was visible at the asked revision, and changes nothing |
| `Outcomes.GetPrefixAnswer` | server/server.go:1109-1111 | a prefix read answers exactly the live keys that extend the prefix, with their values |
| `Outcomes.OtherAnswers` | server/server.go:1049-1073 | attach and revoke answer OK whatever happened, put and delete nothing |
| `Outcomes.RecordIsCommand` | server/server.go:984-1004 | a journal record is the command itself but for the revision of a write and the deadline of a lease command that came without one |
| `Outcomes.LiveRevision` | server/server.go:984-1048 | the revision grows by one for a write, by one per key for a revoke, and by what the store has used up for a prefix delete |
| `Outcomes.UnnumberedRecord` | server/server.go:559-567 | a record of a write without a revision is replayed as if it arrived live |
| `Replication.RecoveredEffectIsEffect` | server/server.go:559-646 | the recovery copy of every command does what the apply loop's copy does |
| `Replication.RecoveredIsLive` | server/server.go:559-646 | replaying the record of a command gives the live state exactly when its type is known, and fails otherwise |
| `Replication.ReplayIsLive` | server/server.go:521-646 | replaying the journal of any run gives the store, lease map, leases, counter and revision of the run exactly when all its types are known, at whatever time it is replayed |
| `Replication.UnstampedGrantReplay` | server/server.go:996-1004 | a grant whose deadline wrapped is recovered exactly when both clocks give the same deadline |
| `Replication.EndlessGrantIsNotRecovered` | server/server.go:569-585 | such a grant, made at clock 0 and replayed at clock 1, comes back with another deadline |
| `Replication.StampedIgnoresClock` | server/server.go:1240-1249 | a stamped command does not read the local clock |
| `Replication.ReplicasAgree` | server/server.go:984-1145 | replicas that apply the same stamped commands reach the same state and write the same journal |
| `Replication.FollowerAgrees` | server/server.go:961-978 | if all integers are float64, the follower has exactly the leader's state |
| `Replication.FollowerGrantDeadline` | server/server.go:961-978 | a granted lease is the same on both exactly when its deadline is a float64 |
| `Replication.SampleDeadlineIsRounded` | server/server.go:1169-1179 | a nanosecond deadline of the year 2023 that is not |
| `Rounding.LiveRoundsIff` | server/server.go:1024-1145 | a command whose integers took the JSON hop does the same to a state with rounded deadlines, exactly when an expiry revoke still hits or misses its lease |
| `Rounding.RunRounds` | server/server.go:961-978 | a run of hopped commands reaches the original state with the deadlines set in the run rounded, and nothing else changed, and journals what the hop makes of the journal |
| `Rounding.ReplayRounds` | server/server.go:521-554 | replaying a journal through JSON reaches the live state with the deadlines set in the journal rounded, exactly when all types are known |
| `Rounding.ExactIsFaithful` | server/server.go:534-554 | if every journaled integer is a float64, no revoke is diverted and rounding changes nothing |
| `Rounding.FollowerRounds` | server/server.go:961-978 | a follower that decodes commands from JSON has the leader's state with the deadlines set in the run rounded |
| `Histories.StepHistory` | kv/store.go:74-167 | a command adds exactly one version, above all revisions of the store, to each key it touches, and leaves every other history alone |
| `Histories.OldReadsAreStable` | kv/store.go:169-191 | a read at a revision the store has handed out never changes, whatever the run does next |
| `Histories.TimeTravel` | kv/store.go:169-196 | a read at a past moment's revision returns for ever what a plain read returned at that moment |
| `Histories.StepRead` | server/server.go:1086-1093 | one command changes a read at r up to the server's revision exactly when it backfills the key at or below r |
| `Histories.ServerReadsStableIff` | server/server.go:1086-1093 | over a run such a read is stable exactly when no prefix delete backfills it |
| `Histories.FailedCasLetsPrefixDeleteBackfill` | kv/store.go:312-321 | put, failed compare-and-swap and prefix delete change what revision 2 reads |
| `Histories.RunHistory` | kv/store.go:74-167 | over a run a key's history is untouched or ends above every revision of the earlier moment |
| `Histories.CasSucceedsIffUntouched` | kv/store.go:121-143 | a compare-and-swap on a previously read live revision succeeds exactly when no write, delete, attach, lease revoke or prefix delete touched the key since |
| `Histories.FlatSimulates` | server/server.go:984-1145 | one command on the versioned store is one command on a plain map of live keys |
| `Histories.StoreRefinesMap` | server/server.go:984-1145 | for every run the newest versions and the leases are what a plain map gives when fed the journal |
| `Histories.ViewIsFlat` | kv/store.go:222-252 | what the readers of current values see is that plain map |
| `Server.Server.constructor` | server/server.go:396-456 | a server without files starts in the initial state |
| `Server.Server.ApplyCommitted` | server/server.go:984-1145 | journals the stamped command before acting and then takes the state machine's step; once a journal write fails no command acts any more, though writes still use up a revision |
| `Server.Server.Execute` | server/server.go:1024-1145 | every branch has the modelled effect and answer |
| `Server.Server.DropLease` | server/server.go:1033-1050 | a revoke deletes the lease's keys in ascending order, one revision each; an expiry revoke only if the deadline still matches |
| `Server.Server.WriteLeased` | server/server.go:1064-1073 | the key moves from the lease that held it to the new one, in both maps |
| `Server.Server.CompareAndSwap` | server/server.go:1075-1084 | a successful swap under a lease updates the value the lease records |
| `Server.Server.DeleteUnder` | server/server.go:1086-1098 | the deleted keys leave their leases and the server catches up with the store's revision |
| `Server.Server.PutOrDelete` | server/server.go:1134-1145 | the default branch has the modelled effect for puts, deletes and unknown types |
| `Server.Server.CleanupExpired` | server/server.go:926-938 | with the clock read anew every round, the loop ends at a reading at which exactly the expired leases are dropped and exactly their keys deleted, after one round per lease |
| `Server.SweptAll` | server/server.go:926-938 | once no deadline has passed, everything expired is gone and nothing else |
| `Server.Server.ApplyRecovered` | server/server.go:559-646 | replays one record as modelled and fails exactly where the model does |
| `Server.Server.ReplayEffect` | server/server.go:569-641 | every branch of the recovery switch has the modelled effect |
| `Server.Server.ReplayEntries` | server/server.go:521-532 | replays in order and stops at the first record that fails |
| `Server.Server.TakeSnapshot` | server/server.go:648-691 | the written snapshot describes the present state |
| `Server.Server.LoadSnapshot` | server/server.go:458-486 | the loaded state is the snapshot's, or startup fails |
| `Server.SnapshotRoundTrip` | server/server.go:458-486 | every snapshot of a reachable state is accepted and restores exactly that state |
| `Expiry.RunOk` | server/server.go:926-938 | in every interleaving each revoke in flight names a deadline that was seen to pass |
| `Expiry.ExpiryIsSafe` | server/server.go:1033-1048 | applying a revoke in flight removes a lease only if the deadline it has at that moment has passed |
| `Expiry.StaleRevokeSparesIff` | server/server.go:1037-1041 | a revoke for an old deadline spares a renewed lease exactly when that deadline is positive |
| `Wal.DecodeEntries` | storage/wal.go:114-137 | the line loop computes the value-level decoder |
| `Wal.LastIndexOfNewline` | storage/wal.go:116-124 | finds where the complete lines end |
| `Wal.ReadEntriesFrom` | storage/wal.go:100-112 | an offset outside the file or inside a line is refused, any other starts the decoder there |
| `Wal.DecodeUndoesEncode` | storage/wal.go:54-60 | any list of records followed by any unfinished line reads back as exactly the list, integers rounded |
| `Wal.ReadFromBoundary` | storage/wal.go:100-112 | from any record boundary exactly the remaining records are read |
| `Wal.TornAppendIsUnreadable` | storage/wal.go:116-124 | a record appended behind a torn one makes the file unreadable from the start and from every boundary before it |
| `Checkpoint.TailIsRead` | server/server.go:488-519 | recovery reads exactly the records behind the snapshot, whichever file the snapshot names |
| `Checkpoint.RecoveryRounds` | server/server.go:458-519 | recovery from a disk any run can leave yields all applied commands and at most one journaled and unapplied one, with only the deadlines set behind the snapshot rounded |
| `Checkpoint.RecoveryIsExact` | server/server.go:458-519 | if the records behind the snapshot survive the JSON hop, recovery yields exactly that state |
| `Checkpoint.ApplyOk` | server/server.go:1013-1022 | an append keeps the disk recoverable |
| `Checkpoint.WriteStopsOk` | storage/wal.go:37-51 | a write that stops after any number of bytes keeps the disk recoverable |
| `Checkpoint.SaveOk` | storage/wal.go:309-366 | so does replacing the snapshot file |
| `Checkpoint.ClearOk` | storage/wal.go:140-182 | so does replacing the WAL by an empty file of another identity |
| `Checkpoint.RecoverOk` | server/server.go:458-519 | so does a restart |
| `Checkpoint.CrashSafety` | server/server.go:648-691 | after every run of those steps and crashes, recovery yields every applied command once, plus at most one journaled and unapplied, with only the deadlines set behind the snapshot rounded, and fails only over an unknown type behind the snapshot |
| `Checkpoint.ExactCrashSafety` | server/server.go:648-691 | the same without any rounding, if the records behind the snapshot survive the JSON hop |
| `Checkpoint.AppliedSurvives` | server/server.go:458-519 | what had been applied at some moment is, in the same order and apart from deadlines, the beginning of the history whose state any later recovery yields |
| `Checkpoint.AppendRecoverableIffClean` | storage/wal.go:37-60 | a command applied after a restart is recoverable exactly when the WAL did not end in a torn line |
| `Checkpoint.SaveRecoverableIffClean` | server/server.go:648-691 | a shutdown snapshot is recoverable before the clear exactly when the WAL did not end in a torn line |
| `Checkpoint.ClearNeedsNewIdentity` | storage/wal.go:245-260 | an emptied WAL is recoverable exactly when its identity changed or the snapshot's offset was zero |
| `Checkpoint.ExpiryReplayIff` | server/server.go:534-554 | a replayed expiry drops a lease from the snapshot exactly when its deadline is a float64, and does nothing otherwise |
| `Checkpoint.ExpiryRecoveryIff` | server/server.go:458-519 | on disk: an expiry journaled behind a snapshot is recovered exactly when the deadline is a float64, and otherwise the lease and its keys return |
| `Checkpoint.TornTailIsReachable` | storage/wal.go:37-60 | a write that stops after one byte, a crash and a restart leave a running server on a torn WAL |
| `Checkpoint.TornTailLosesCommands` | storage/wal.go:116-124 | there the next command, whatever it is, makes recovery fail, and a shutdown snapshot is not recovered |
| `Checkpoint.ExpiredLeaseReturns` | server/server.go:534-554 | a run in which a lease with a nanosecond deadline is granted, snapshotted, expired and, after a crash, back |
| `Startup.RestorePersistentState` | server/server.go:458-519 | the server object after startup has the state the disk stands for, or startup fails, as the model says |
| `Startup.DisksAreSound` | server/server.go:458-486 | every disk a run can leave meets what startup asks of the snapshot |
| `Startup.Restart` | server/server.go:458-532 | after every run and crash the restarted server object has the state of all commands applied, with the deadlines set behind the snapshot rounded |
| `Voting.Raft.constructor` | raft/raft.go:546-571 | a node starts as a follower with the persisted term and vote |
| `Voting.Raft.Persist` | raft/raft.go:136-151 | the persisted ballot becomes the one in memory |
| `Voting.Raft.StartElection` | raft/leader_election.go:14-29 | the node moves to the next term, votes for itself and counts one vote |
| `Voting.Raft.RequestVote` | raft/leader_election.go:147-197 | grants by term, earlier vote and log, and adopts a newer term without leaving its role |
| `Voting.Raft.OnVoteReply` | raft/leader_election.go:38-80 | a granted reply of the running election counts once; the majority vote makes the leader |
| `Voting.Raft.OnAppendEntries` | raft/rpc.go:43-62 | a newer leader term is adopted and clears the vote |
| `Voting.Raft.OnFollowerTerm` | raft/raft.go:372-382 | a newer term in a reply ends the leadership |
| `Voting.Raft.OnInstallSnapshot` | raft/snapshot.go:52-68 | a newer term in a snapshot message is adopted and clears the vote |
| `Voting.HandlersFollow` | raft/leader_election.go:147-197 | after every handler and after a restart the persisted ballot equals memory, terms have not gone back, and a cast vote of the term stands |
| `Voting.GrantedVote` | raft/leader_election.go:157-193 | a granted vote is cast for the requester in the requested term, and no other vote of that term preceded it |
| `Voting.GrantedIff` | raft/leader_election.go:147-197 | a vote is granted exactly when the voter lives, the request is not older, the vote of its term is free or the candidate's, and the voter's log is empty or does not end behind the candidate's; and what the voter has and says afterwards |
| `Voting.YieldsIff` | raft/rpc.go:51-62 | which messages make a node follow their term, with its older vote gone, and that all others do nothing |
| `Voting.KilledIsSilent` | raft/raft.go:283-293 | a killed node keeps its ballot, leads nobody, and neither votes nor follows |
| `Voting.RestartsAsFollower` | raft/raft.go:154-178 | a node comes back alive, as a follower with the term and vote it had and no votes |
| `Voting.MajorityWins` | raft/leader_election.go:56-80 | a candidate becomes leader exactly with the reply that makes a majority with its own vote |
| `Voting.LeaderOutlivesItsTermIff` | raft/leader_election.go:164-169 | a vote request never ends a leader role, and changes the leader's term exactly when the node lives and the request is newer |
| `Election.StepKeepsInv` | raft/leader_election.go:14-82 | votes cast are remembered, counted votes were cast, and wins are backed by majorities, after every step |
| `Election.CountVote` | raft/leader_election.go:56-80 | a counted reply adds a voter that was not counted before |
| `Election.QuorumsMeet` | raft/leader_election.go:68-72 | two majorities of one cluster share a node |
| `Election.ElectionSafety` | raft/leader_election.go:97-116 | over every interleaving of elections, votes, lost, delayed and repeated messages, term changes, kills and restarts, at most one node becomes leader in a term |
| `Election.OneVoteAcrossRestarts` | raft/raft.go:136-178 | no node votes for two candidates in one term, restarts included |
| `Election.RequestsWereSent` | raft/leader_election.go:14-37 | every vote request on the network carries the next term and log end of its candidate at a point of the run where it stood |
| `Election.VotesFollowLogs` | raft/leader_election.go:173-187 | in every run, whoever votes for another node does so on such a request, whose log does not end before the voter's at that moment, unless the voter's log is empty |
| `Election.AloneNeverLeads` | raft/leader_election.go:31-34 | a cluster of one node never elects a leader |
| `Election.TermsNeverDecrease` | raft/raft.go:136-178 | in every run terms never decrease and the persisted ballot equals memory |
| `Election.LeadersWonStepIff` | raft/leader_election.go:164-183 | after a step every node in the leader role has won its present term exactly when the step did not hand a live leader a vote request with a newer term |
| `Election.LeadersAlwaysWonIff` | raft/leader_election.go:164-183 | the same over every run from a boot of followers, at every moment of it |
| `Election.OneLeaderPerTerm` | raft/leader_election.go:97-116 | in every run without such a request no term has two nodes in the leader role |
| `Election.TwoLeadersInOneTerm` | raft/leader_election.go:164-169 | a run with such a request, in which two nodes have the leader role in one term although each term has one win |
| `RaftLog.MergeIsRaftAppend` | raft/rpc.go:76-98 | on an uncompacted log the merge loop is receiver rules 3 and 4 of Figure 2: it truncates only at the first conflict |
| `RaftLog.MergeLogOk` | raft/rpc.go:76-98 | the number of entries always matches first and last index |
| `RaftLog.MergeCompacts` | raft/rpc.go:76-98 | merging into a compacted log gives what compacting the merged whole log gives, if the message does not contradict the part cut off |
| `RaftLog.NilEntryIff` | raft/rpc.go:64-74 | the handler dereferences nil exactly on a positive index before the first one kept |
| `RaftLog.CheckIsRaftAcceptsIff` | raft/rpc.go:64-74 | the handler accepts what receiver rule 2 accepts, except that index 0 is not checked |
| `LogMerge.HandleNeverShrinks` | raft/rpc.go:64-107 | entries cut from a leader's log never shrink the part of any uncompacted log that agrees with it, whatever the message refers to |
| `LogMerge.HandleAgrees` | raft/rpc.go:64-107 | a checked message keeps matching logs matching, and an accepted one brings them to agree to the end of what it carries |
| `LogMerge.AgreementNeverShrinks` | raft/rpc.go:64-107 | on every uncompacted log, under every sequence of repeated, stale and reordered messages of one leader, heartbeats included, the part that agrees with the leader never shrinks |
| `LogMerge.MatchingIsKept` | raft/rpc.go:64-107 | log matching survives every sequence of checked messages of one leader |
| `LogMerge.AcceptedStaysAgreed` | raft/rpc.go:64-107 | what one accepted message brought into agreement stays there under all later messages |
| `LogMerge.AcceptedAgreesIff` | raft/rpc.go:64-74 | after an accepted message the logs agree exactly when the message did not slip through the unchecked index 0 |
| `LogMerge.MergeIntoEmpty` | raft/rpc.go:76-98 | into an empty log, entries meant to follow index 0 land one place too low |
| `LogMerge.CommitDropsIff` | raft/rpc.go:100-104 | the commit index goes down exactly when it is ahead of the log and a message names a higher one |
| `LogMerge.NewCommitMeans` | raft/rpc.go:100-104 | a higher commit index is taken as far as the log goes, a lower one not at all |
| `LogMerge.CommitStaysInStep` | raft/rpc.go:100-104 | if the message's commit index lies within the message, or brings nothing new, what the follower commits is the leader's, at boot as well |
| `LogMerge.StaleCommits` | raft/rpc.go:100-104 | otherwise there is a follower, also with the boot value 0, that commits an entry the leader does not have |
| `LogMerge.CommitRuleSafeIff` | raft/rpc.go:100-104 | for followers with any commit index from a value below the message's end on, the rule is safe exactly when the commit index lies within the message |
| `LogMerge.BuiltIsFromLeader` | raft/raft.go:401-414 | the messages a leader with an uncompacted log builds carry its whole log from the next index on, and satisfy that condition exactly when its commit index is within its log |
| `LogMerge.HeartbeatIsIdleIff` | raft/raft.go:342-353 | a heartbeat is accepted and changes no log; it leaves the commit index alone unless that had fallen below zero |
| `LogMerge.CommitsAreTheLeaders` | raft/raft.go:567-568 | from boot on, under every sequence of heartbeats and built messages that do not slip through index 0, what a follower counts as committed is the leader's |
| `Delivery.ApplyHelper.constructor` | raft/util.go:56-66 | an empty queue behind the last applied index |
| `Delivery.ApplyHelper.TryApply` | raft/util.go:104-131 | queues the next command or a newer snapshot, ignores what is old, and panics exactly on a command out of turn |
| `Delivery.ApplyHelper.Applier` | raft/util.go:82-103 | delivers the head of the queue |
| `Delivery.DeliversInOrder` | raft/util.go:82-103 | a number of rounds delivers that many messages from the head of the queue, in order |
| `Delivery.RaftReplica.HandleAppendEntries` | raft/rpc.go:64-107 | log, commit index and reply are those of the model, the nil dereference included |
| `Delivery.AppendedIsReceive` | raft/rpc.go:64-107 | log and commit index move as those of the follower in the one-leader results |
| `Delivery.RaftReplica.MergeEntries` | raft/rpc.go:76-98 | the loop computes the merge |
| `Delivery.RaftReplica.SendCommitted` | raft/raft.go:511-535 | the loop sends what the model sends |
| `Delivery.RaftReplica.RequestInstallSnapshot` | raft/snapshot.go:70-100 | log, commit and apply index after a leader's snapshot, and its place in the queue |
| `Delivery.RaftReplica.TakeSnapshot` | raft/snapshot.go:12-50 | on a leader, compaction keeps the entries behind the index or panics as the code does; on any other node nothing happens |
| `Delivery.SnapshottedKeeps` | raft/snapshot.go:20-37 | compaction keeps exactly the entries behind the index and remembers the index and its term |
| `Delivery.InstalledKeeps` | raft/snapshot.go:70-97 | an installed snapshot keeps exactly the entries behind it, moves commit and apply index up to it and is queued exactly if it is ahead; an old one changes nothing |
| `Delivery.LeaderAppendedKeeps` | raft/log.go:37-41 | a new entry becomes the last one and changes no other |
| `Delivery.SendAllQueues` | raft/raft.go:511-535 | exactly the committed entries behind the apply index are queued, in order, each with its own index and command |
| `Delivery.StepOk` | raft/util.go:104-131 | every step keeps queue, apply index and log in step |
| `Delivery.StreamOrder` | raft/util.go:104-131 | in a gapless stream indices strictly increase and a command follows its predecessor directly |
| `Delivery.DeliveryIsGapless` | raft/raft.go:511-535 | in every run delivered and queued messages follow on one another without gap up to the apply index, apart from forward snapshot jumps, and the out-of-order and compacted-index panics are not reached |
| `Delivery.LeaderCommittedMeans` | raft/log_replication.go:122-157 | a leader moves its commit index exactly to indices of its log, and never back |
| `Delivery.DeliveredIsTheLog` | raft/raft.go:519-533 | in every run whose accepted messages do not contradict what has been applied, each command delivered or queued is the log's own at its index, as long as the log has it |
| `Delivery.StepFailsIff` | raft/snapshot.go:12-37 | a step fails exactly on a message before the compacted log or a leader's snapshot beyond what was applied |
| `Delivery.AcknowledgeIsIdle` | server/server.go:1154-1158 | the server's own note of the applied index never moves it |
| `Locks.LockManager.constructor` | server/lock.go:40-46 | no lock is held |
| `Locks.LockManager.Acquire` | server/lock.go:48-77 | succeeds exactly when the key has no entry with a live lease, under a new lease |
| `Locks.LockManager.Release` | server/lock.go:79-103 | drops the owner's lease; the entry goes, and success is reported, exactly when the lease had keys |
| `Locks.LockManager.KeepAlive` | server/lock.go:105-125 | renews the owner's lease, or reports which of the two conditions failed |
| `Locks.LockManager.GetLockStatus` | server/lock.go:127-142 | held exactly when the entry's lease is live; a dead entry is forgotten |
| `Locks.LockManager.OnLeaseExpired` | server/lock.go:155-164 | forgets exactly the entries of that lease among the keys |
| `Locks.AcquireGrants` | server/lock.go:58-76 | a successful acquire makes a lease nobody had before, with the asked time and no keys, and changes no other lease or entry |
| `Locks.RefusedAcquireIsIdle` | server/lock.go:51-56 | a refused acquire changes nothing |
| `Locks.ReleaseFrees` | server/lock.go:79-103 | an owner's release takes its lease away and the lock is free for anyone, all else as before; anyone else's changes nothing |
| `Locks.RenewExtends` | server/lock.go:105-125 | an owner's keep-alive gives its live lease the asked time from now on, and leaves its keys, all other leases and all locks alone |
| `Locks.RenewNeedsOwner` | server/lock.go:107-123 | anyone else's keep-alive, and one of a dead lease, changes nothing |
| `Locks.RenewIsRenewal` | server/lock.go:118-123 | an owner's keep-alive is the renewal step of a run |
| `Locks.RenewedOutlivesIff` | server/server.go:926-938 | a cleanup spares a kept-alive lock exactly before its new deadline |
| `Locks.QueryIsInvisible` | server/lock.go:127-142 | a status query changes no lease and no held lock, and forgets an entry exactly if its lease is gone |
| `Locks.CommandsEvolveLeases` | server/server.go:187-207 | in any state, no command of the log revives a lease or reuses a lease id |
| `Locks.StepOk` | server/lock.go:48-142 | every issued handle with a live lease is its key's present entry, after every step |
| `Locks.MutualExclusion` | server/lock.go:48-142 | in every run, with any command traffic in between, no two handles for one key are both backed by live leases |
| `Locks.AcquireSucceedsIff` | server/lock.go:51-56 | an acquire succeeds exactly when no handle for the key is still backed |
| `Locks.LocksAndLeasesCoexist` | server/lock.go:48-142 | in every run that mixes commands of the log with lock traffic outside it, leases and store stay coherent and locks exclusive |
| `Locks.ForgettingIsSafeIff` | server/lock.go:155-164 | forgetting entries is harmless exactly when the lease is gone or none of the keys has an entry for it |

## Left out

- Watchers: bounded lossy channels with repeated history replay promise no delivery.
- HTTP and RPC handlers, clients, command mains, statistics, logging, timers and randomised timeouts: input and output without invariants.
- JSON, gob and base64 encodings, fsync, rename and inode calls: the codec is abstract and each disk step is atomic, except that a WAL write may stop after any number of bytes.
- `KVStore.Put`, `Delete` and `Clear` called directly, `GetHistory`, `KeysWithPrefix`, `Exists`: not used by the apply loop, or one more walk over the same data.
- WAL `Truncate`: not called by the server.
- Leader completeness, the leader's commit rule `tryCommitL` and state machine safety across a cluster: the index conventions of election and replication differ, and entry 0 counts as matched from the start, so these do not hold of the code.
- `HandleAppendEntriesRPC` and `HandleHeartbeatRPC`: no route leads to them.
- Rejoining a cluster after a restart, and the log part of `readPersist`: the server starts Raft with a fresh persister, so recovery is that of a single node.
- Locks and recovery together: the lock manager grants and revokes leases outside the log, so the recovery and replica results are about command-driven runs. Coherence and mutual exclusion hold of mixed runs (LocksAndLeasesCoexist).
- `TryAcquire` and its watch channel, `ListLocks`: wrappers of what is modelled.
- 64-bit wrap-around of revisions and lease ids: only deadlines are modelled with it. A read at revision 0 is unbounded instead of bounded by the largest int64.
- An int64 so close to 2^63 that its float64 is 2^63 itself: what Go converts that to depends on the machine, and the model keeps 2^63.
- Byte order and invalid UTF-8 in keys: keys are sequences of characters.
- FollowerAgrees: one direction only; what happens to deadlines that are not float64 is in FollowerRounds, whose condition is exact for each single command in LiveRoundsIff and sufficient for a run.
- CrashSafety: asks that no expiry revoke behind the snapshot is diverted by rounding and that lease ids, times-to-live and revisions are float64. The condition is exact for a single command (LiveRoundsIff) and sufficient for a run, because a diverted revoke need not leave a trace.
- HandleAgrees: assumes the log matching property between the follower and the leader, which Raft's induction over terms provides and this model does not derive; AgreementNeverShrinks does without it.
- LeaderCommittedMeans: the term and the majority that the leader's commit rule asks for are not modelled, so that delivery holds whatever index of its log a leader commits.
- DeliveredIsTheLog: assumes that accepted messages do not contradict applied entries, which is leader completeness.
- OneLeaderPerTerm: the guard is exact for the claim that leaders have won their term; a request that breaks it need not lead to a second leader.
- LockManager.KeepAlive: the method is one step, while the source has two locked regions; in the runs a renewal may come at any time after its check.
