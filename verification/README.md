# Verification of the AegisDB core

A Dafny model of the parts of AegisDB that keep state under invariants, with proofs of
what they keep. `dafny verify dfyconfig.toml` checks everything.

* **Transactions.** `ByteStrings` and `Codec` prove that keys and timestamps packed into
  bytes keep their order and can be taken apart again. `KvIterator`, `MvccTxn` and
  `Scanner` walk these bytes and are proved to be lookups and scans in a map of versions
  (`MvccModel`). `Commands` describes the transaction commands as folds over their keys;
  `CommandLaws`, `TxnLaws` and `TxnRuns` prove what they do to locks, records and values,
  one command at a time and over whole runs; `TxnVisibility` follows a write from its prewrite
  to its readers, `TxnStatus` the life of a lock; `ScanRuns` is about what scans then show;
  `TxnExamples` are runs on which expected properties fail. `TransactionServer` is the code of
  the commands, working on the byte column families. `Latches` and `LatchedRuns` let many
  commands interleave, one key read at a time, and prove that this is the same as running them
  one after the other.
* **Raft.** `RaftModel` gives the effect of every message on a node as a function.
  `RaftNode` is the object with its loops, proved against it; `QuorumSelection` is the sort
  behind the commit index. `RaftElection` puts nodes on a network that loses, delays,
  reorders and duplicates messages and proves election safety; `RaftTwoLeaders` shows the run
  that the theorem must exclude; `RaftVoting` is about the logs of those who elect a leader,
  `RaftCommit` about the commit index, `RaftReplication` about the shape of the logs and what
  nodes tell each other of them, `RaftCommitRuns` about the majority behind every commit index,
  `RaftProgress` about elections that can be won, `RaftProposals` about proposals that reach the
  others and are committed.
* **Regions.** `Regions`, `RegionIndex` and `RegionStore`: the region table, its sorted index,
  and splits.
* **Balancing.** `ClusterModel` and `BasicCluster`: the scheduler's tables. `Balance`,
  `BalanceBound` and `Schedulers`: the orders the schedulers give, the measure they lower and
  how many there can be.
* **Tiers.** `TierModel`, `TierRounds` and `TieredStorage`: three tiers that mean one map, and
  where entries are moved by their counts.

## Where the code departs from its intent

The model follows the code. These departures are stated as theorems, with the exact
condition where there is one.

* The write-conflict test of a prewrite never fires (`PrewriteSucceedsIff`,
  `ConflictGoesUnseen`).
* A rollback record hides older committed values from readers, and a rollback deletes the
  value of a transaction that has already committed (`RollbackKeepsReadIff`,
  `RollbackHidesCommittedValue`). The rule for repeatable reads therefore covers rollbacks.
* A scan steps over a put record whose value is gone, where a point read answers nothing
  (`ScanAgreesIff`, `ScanShowsOlderValue`).
* The status of a committed transaction is usually reported as rolled back, and that of a
  rolled back one as committed (`StatusAfterCommitIff`, `StatusAfterRollback`,
  `CommittedReportedRolledBack`).
* A candidate adopts the term of any append or heartbeat, even an older one
  (`TermFallsIff`, `TwoLeadersPossible`).
* Entries that start at the first index of the log are put behind the old ones instead of
  replacing them (`AppendContiguousIff`, `LogsContiguousIff`, `RepeatedAppendDoubles`).
* The leader does not count itself towards the quorum that commits an entry
  (`SmallClustersNeverCommit`).
* A put into a key held in the hot tier is not seen by readers, and a deletion after a put in
  the same batch is lost (`WriteAgreesIff`, `HotValueHidesPut`, `LaterDeleteLost`).
* A split whose new id is taken overwrites a live region (`SplitTilesIff`, `TakenIdLosesKeys`).

## What the runs assume

* Commands are applied to well-formed locks and records; write batches are atomic; a scan
  sees one state of the store.
* Repeatable reads, and scans that agree with them: no transaction is prewritten after its
  commit or rollback, none is rolled back after its commit, and the commit timestamps and the
  start timestamps of rollbacks lie above every timestamp at which their keys were read.
* Raft: fixed membership, no lost state, no candidate handed an append or heartbeat of an
  earlier term. For the commit bounds of a cluster: logs without gaps and doubles at the start,
  and no node takes entries that reach back to the first entry of its log. The majority behind
  every commit index needs only fixed membership and no lost state.
* Tiers: where entries end by their counts assumes disjoint tiers, a round that is not cut short
  and thresholds whose sum fits in 32 bits.
* Regions: the region split is the stored one, and the new id is fresh or belongs to a region
  without keys.
* Balancing: one peer per store per region, the leader among the peers, sizes above zero, and
  statistics computed from the region table.

## Model

| member | source | states |
|---|---|---|
| `Codec.EmitGroup` | src/transaction/mvcc/codec.rs:21-36 | one group of the output: the eight data or padding bytes and the marker that tells how many are padding |
| `Codec.EncodeBytesLoop` | src/transaction/mvcc/codec.rs:16-40 | the growing buffer ends as the grouped encoding, for every input including the empty one |
| `Codec.CheckPadding` | src/transaction/mvcc/codec.rs:65-73 | accepts exactly the groups whose padding is all zero |
| `Codec.DecodeBytesLoop` | src/transaction/mvcc/codec.rs:43-77 | the moving index decodes what the recursive decoder decodes, with its length, and fails exactly where that fails |
| `Codec.DecodeAfterEncode` | src/transaction/mvcc/codec.rs:16-77 | decoding an encoding followed by anything gives the data and the encoded length |
| `Codec.EncodeAfterDecode` | src/transaction/mvcc/codec.rs:16-77 | whatever decodes successfully is, byte for byte, the encoding of the result |
| `Codec.PrefixFree` | src/transaction/mvcc/codec.rs:16-40 | no encoding is a prefix of another |
| `Codec.KeyRoundTrip` | src/transaction/mvcc/codec.rs:83-105 | user key and timestamp both come back from an encoded key |
| `Codec.EncodeKeyInjective` | src/transaction/mvcc/codec.rs:83-87 | different key and timestamp pairs have different encodings |
| `Codec.EncodeBytesOrder` | src/transaction/mvcc/codec.rs:16-40 | encodings followed by anything compare as the byte strings they encode |
| `Codec.TimestampOrder` | src/transaction/mvcc/codec.rs:83-87 | inverted big-endian timestamps compare in reverse |
| `Codec.OrderEmbedding` | src/transaction/mvcc/codec.rs:16-87 | for all byte strings and all 64-bit timestamps, encoded keys compare by key ascending, then timestamp descending, and conversely |
| `KvIterator.Iterator.constructor` | src/engine_util/iterator.rs:73-91 | an iterator over a column family visits its keys in byte order |
| `KvIterator.Iterator.Next` | src/engine_util/iterator.rs:150-155 | moves to the next larger key |
| `KvIterator.Iterator.Seek` | src/engine_util/iterator.rs:157-164 | moves to the first key that is not smaller than the given one |
| `KvIterator.UserKeysSorted` | src/transaction/mvcc/transaction.rs:163-220 | along the iterator user keys never decrease |
| `KvIterator.VersionsSorted` | src/transaction/mvcc/transaction.rs:163-220 | among the entries of one user key commit timestamps strictly decrease |
| `MvccTxns.Storage.Write` | src/server/transaction_api.rs:147-149 | a batch of encoded changes applied to the byte column families is the batch of changes applied to the versioned data |
| `MvccTxns.MvccTxn.AddWrite` | src/transaction/mvcc/transaction.rs:38-45 | buffers a record under its encoded key |
| `MvccTxns.MvccTxn.AddLock` | src/transaction/mvcc/transaction.rs:60-66 | buffers a lock |
| `MvccTxns.MvccTxn.RemoveLock` | src/transaction/mvcc/transaction.rs:69-74 | buffers the removal of a lock |
| `MvccTxns.MvccTxn.AddValue` | src/transaction/mvcc/transaction.rs:111-118 | buffers a value under the start timestamp |
| `MvccTxns.MvccTxn.RemoveValue` | src/transaction/mvcc/transaction.rs:121-127 | buffers the removal of the value at the start timestamp |
| `MvccTxns.MvccTxn.GetLock` | src/transaction/mvcc/transaction.rs:48-57 | the lock on the key, if any |
| `MvccTxns.MvccTxn.CurrentWrite` | src/transaction/mvcc/transaction.rs:130-160 | the record committed exactly at the start timestamp, or nothing |
| `MvccTxns.MvccTxn.MostRecentWrite` | src/transaction/mvcc/transaction.rs:163-220 | seeking and walking over encoded bytes finds the record with the greatest commit timestamp not above the start timestamp for exactly that key, or none |
| `MvccTxns.MvccTxn.GetValue` | src/transaction/mvcc/transaction.rs:83-108 | refines a lookup in a map of versions; there is an answer if and only if no lock of another transaction is on the key |
| `MvccModel.Latest` | src/transaction/mvcc/transaction.rs:163-220 | the reference for the above: the greatest commit timestamp not above the bound |
| `Scanners.Scanner.constructor` | src/transaction/mvcc/scanner.rs:25-40 | a new scanner stands before the first key not below the start key |
| `Scanners.Scanner.Next` | src/transaction/mvcc/scanner.rs:53-148 | each call ends, and returns the next visible row, or nothing exactly at the limit or when no visible key is left |
| `Scanners.Scanner.Meaning` | src/transaction/mvcc/scanner.rs:53-148 | the rows returned so far are exactly the first visible keys from the start key on, ascending, each once, each with its value |
| `Scanners.ScanAgreesIff` | src/transaction/mvcc/scanner.rs:88-140 | a scan and a point read of a key differ exactly when the newest record has lost its value and an older value shows through |
| `Scanners.ScanIsPointRead` | src/transaction/mvcc/scanner.rs:88-140 | if every put record has its value, a scan shows what point reads show |
| `ScanRuns.RowsArePointReads` | src/transaction/mvcc/scanner.rs:53-148 | if every put record has its value, the rows of a scan are exactly the keys whose point read gives a value, each with that value |
| `ScanRuns.ScanIsReadsOverRun` | src/transaction/mvcc/scanner.rs:53-148 | so over every orderly run from the empty store |
| `TransactionServers.TransactionServer.KvGet` | src/server/transaction_api.rs:16-60 | answers, as a lookup in the versioned data, if and only if no other transaction holds a lock on the key; otherwise reports that lock |
| `TransactionServers.TransactionServer.KvPrewrite` | src/server/transaction_api.rs:65-153 | storage and reply are those of the atomic command; the latches are as before |
| `TransactionServers.TransactionServer.KvCommit` | src/server/transaction_api.rs:158-223 | the same for commit |
| `TransactionServers.TransactionServer.KvScan` | src/server/transaction_api.rs:228-268 | one pair for each of the first visible rows up to the limit, complete when fewer; each pair is what a get of its key reports: the lock of another transaction, or the value |
| `TransactionServers.TransactionServer.KvCheckTxnStatus` | src/server/transaction_api.rs:273-339 | storage and reply are those of the atomic command; a lock of the transaction is rolled back if and only if the check comes after its deadline, in 64-bit arithmetic |
| `TransactionServers.TransactionServer.KvBatchRollback` | src/server/transaction_api.rs:344-402 | the same for batch rollback |
| `TransactionServers.TransactionServer.KvResolveLock` | src/server/transaction_api.rs:407-487 | finds exactly the keys locked by the transaction and commits or rolls back all of them |
| `TransactionServers.TransactionServer.LocksOf` | src/server/transaction_api.rs:414-431 | the locked keys of a transaction, ascending |
| `TransactionServers.TransactionServer.PrewriteLatched` | src/server/transaction_api.rs:77-153 | the loop over the mutations writes and replies as the fold over them; what that stores and reports is in PrewriteAfter and PrewriteReports |
| `TransactionServers.TransactionServer.CommitLatched` | src/server/transaction_api.rs:166-223 | checks all keys, then writes all, or writes nothing |
| `TransactionServers.TransactionServer.RollbackLatched` | src/server/transaction_api.rs:352-402 | stops at the first key locked by another transaction and then writes nothing |
| `TransactionServers.TransactionServer.StatusLatched` | src/server/transaction_api.rs:281-339 | one turn of the status check; what that does is in LockedStatus and UnlockedStatus |
| `TransactionServers.TransactionServer.ResolveLatched` | src/server/transaction_api.rs:440-486 | re-reads every lock before it acts on it |
| `CommandLaws.WriteAfter` | src/server/transaction_api.rs:65-487 | records after any command: one new record per marked key at the command's timestamp, all others as before |
| `CommandLaws.LockAfter` | src/server/transaction_api.rs:158-487 | locks after any command but prewrite: those of its transaction on its keys are gone, all others as before |
| `CommandLaws.ValueAfter` | src/server/transaction_api.rs:158-487 | values after any command but prewrite: only those a rollback of the same transaction undoes are gone |
| `TxnLaws.PrewriteSucceedsIff` | src/server/transaction_api.rs:81-150 | a prewrite succeeds if and only if no key is locked by another transaction and every operation is a put or delete; the write-conflict test never fires |
| `TxnLaws.CommitSucceedsIff` | src/server/transaction_api.rs:170-198 | a commit succeeds if and only if each key is locked by it, or carries a record at the start timestamp that is also the commit timestamp |
| `TxnLaws.RollbackSucceedsIff` | src/server/transaction_api.rs:356-398 | a rollback succeeds if and only if no key is locked by another transaction; a record at the start timestamp does not stop it |
| `TxnLaws.PrewriteReports` | src/server/transaction_api.rs:77-145 | a prewrite that fails changes nothing and reports, in order, every mutation in its way: the lock of another transaction, or the operation it does not know |
| `TxnLaws.FailureReports` | src/server/transaction_api.rs:170-198 | a commit or rollback that fails changes nothing and reports the first key in its way, with the lock on it if there is one |
| `TxnLaws.CommitIsAtomic` | src/server/transaction_api.rs:158-223 | a failed commit changes nothing; a successful one changes no earlier read and no other key, and makes all its keys readable at once from its timestamp on |
| `TxnLaws.MarkIsRead` | src/transaction/mvcc/transaction.rs:163-220 | the record a command leaves is the newest until a newer one is written |
| `TxnLaws.RollbackKeepsReadIff` | src/server/transaction_api.rs:356-398 | exactly when a rollback leaves a read alone: its record must lie behind the one read, or ahead of the reader, and belong to another transaction |
| `TxnRuns.LockHeldOverRun` | src/server/transaction_api.rs:81-150 | over every run, a lock stays with its transaction until a commit, rollback, status check or resolve of that transaction |
| `TxnRuns.BackedOverRun` | src/server/transaction_api.rs:81-483 | over every run, each put lock has its value stored |
| `TxnRuns.RollbackIsFinal` | src/server/transaction_api.rs:170-480 | after any rollback of a key and every run without a new prewrite of it, commits that include it fail and change nothing, and resolves write no record for it |
| `TxnRuns.SnapshotIsRepeatable` | src/server/transaction_api.rs:16-60 | over every run from the empty store in which no transaction is prewritten after its end or rolled back after its commit, and commits and rollbacks come later than the reads of their keys, a get at a timestamp keeps its answer or reports a lock |
| `TxnRuns.RespectedReadsRepeat` | src/server/transaction_api.rs:16-60 | the same from any store, when every command respects the reads answered before it |
| `TxnRuns.RecordsBackedOverRun` | src/server/transaction_api.rs:65-487 | over every such run, each put record keeps its value |
| `TxnVisibility.PrewriteAfter` | src/server/transaction_api.rs:81-150 | after a successful prewrite, the last mutation of every key has its lock, with the given primary, lifetime and kind, and its value, or none for a delete |
| `TxnVisibility.PrewriteLeaves` | src/server/transaction_api.rs:81-150 | every other lock and value and all records are as before; a failed prewrite changes nothing |
| `TxnVisibility.PrewrittenIsReported` | src/server/transaction_api.rs:16-60 | from a successful prewrite on, through every run in which nothing ends the transaction, a get of its keys by anybody else reports its lock, and its own get is answered |
| `TxnVisibility.CommittedWriteIsRead` | src/server/transaction_api.rs:65-223 | prewrite, any commands of other transactions, then commit: the commit goes through, and from its timestamp on a get answers the value put, or nothing for a delete, until a newer record; for any primary |
| `TxnVisibility.ResolvedWriteIsRead` | src/server/transaction_api.rs:407-487 | the same when the locks are resolved instead, without naming the keys |
| `TxnStatus.LockedStatus` | src/server/transaction_api.rs:285-319 | a check up to the deadline, to the millisecond, reports the lock and changes nothing; after it the lock and value go, a rollback record stays, and the reply says so; the lock of another transaction is reported |
| `TxnStatus.UnlockedStatus` | src/server/transaction_api.rs:321-338 | without a lock the reply is committed if and only if a record stands at the start timestamp and that is not zero; otherwise a rollback is recorded and reported |
| `TxnStatus.LiveLockStays` | src/server/transaction_api.rs:285-319 | over every run in which the transaction is only heard of in status checks up to the deadline of its lock, the lock and value stay, checks report the lock, and a commit goes through |
| `TxnStatus.ExpiredCannotCommit` | src/server/transaction_api.rs:297-314 | once a check has found the lock expired, no commit of the key goes through, over every run without a new prewrite of it |
| `TxnStatus.StatusAfterCommitIff` | src/server/transaction_api.rs:321-338 | a committed transaction is reported as committed if and only if it committed at its start timestamp, or a record stood there already, and that is not zero; otherwise as rolled back |
| `TxnStatus.StatusAfterRollback` | src/server/transaction_api.rs:321-338 | a transaction that was rolled back is reported as committed, unless it started at zero |
| `TxnExamples.ConflictGoesUnseen` | src/server/transaction_api.rs:98-115 | a run from the empty store: a transaction is prewritten and commits over a record committed after its start |
| `TxnExamples.ScanShowsOlderValue` | src/transaction/mvcc/scanner.rs:112-143 | a run after which a get answers nothing and a scan shows an older value: a committed transaction is rolled back |
| `TxnExamples.RollbackHidesCommittedValue` | src/transaction/mvcc/transaction.rs:97-104 | a run after which a rollback record hides a value committed before it |
| `TxnExamples.CommittedReportedRolledBack` | src/server/transaction_api.rs:321-338 | a run after which a committed transaction, whose value is read, is reported as rolled back |
| `Latching.Latches.AcquireLatches` | src/transaction/latches/latches.rs:25-42 | takes all keys if all are free, or none and names the holder of the first that is not |
| `Latching.Latches.ReleaseLatches` | src/transaction/latches/latches.rs:45-57 | frees all keys and wakes the waiters of the first |
| `Latching.ReleaseUndoesTake` | src/transaction/latches/latches.rs:25-57 | releasing what was taken restores the latch map |
| `LatchedRuns.HeldKeysDisjoint` | src/transaction/latches/latches.rs:25-42 | two tasks that hold latches have no key in common |
| `LatchedRuns.GatherLocal` | src/server/transaction_api.rs:77-150 | a turn of a command depends only on the data of its own key |
| `LatchedRuns.LatchedRefinesAtomic` | src/transaction/latches/latches.rs:25-70 | over every interleaving of acquire, one-key reads, write and release steps, storage is what running the commands one at a time in write order gives, with the same replies; held key sets are disjoint, their union is the latch map, and waiting tasks hold nothing |
| `RaftNode.RaftLog.Append` | src/raft/log.rs:145-166 | truncates and extends as the model does; reports the panic on committed entries |
| `RaftNode.RaftLog.AdvanceCommit` | src/raft/raft.rs:560-564 | a larger commit index is taken over as far as the own log reaches, and no further; otherwise nothing changes |
| `RaftNode.Raft.constructor` | src/raft/raft.rs:45-92 | a new node is a follower that knows every peer but itself |
| `RaftNode.Raft.BecomeFollower` | src/raft/raft.rs:394-404 | the vote is cleared even when the term stays |
| `RaftNode.Raft.BecomeCandidate` | src/raft/raft.rs:407-418 | a new term, with the own vote |
| `RaftNode.Raft.BecomeLeader` | src/raft/raft.rs:421-437 | progress reset for every peer, an empty entry appended, appends broadcast |
| `RaftNode.Raft.Campaign` | src/raft/raft.rs:440-471 | leads at once when alone, otherwise asks every peer |
| `RaftNode.Raft.HandleAppendEntries` | src/raft/raft.rs:505-578 | every branch: stale, ahead of the log, unknown term, mismatch, append and commit; after a matching append the commit index is the smaller of the sender's and the end of the log, if that is larger |
| `RaftNode.Raft.HandleHeartbeat` | src/raft/raft.rs:651-675 | as the model; the commit index becomes the smaller of the sender's and the end of the log, if the sender's is larger |
| `RaftNode.Raft.HandleRequestVote` | src/raft/raft.rs:701-748 | as the model |
| `RaftNode.Raft.CountVotes` | src/raft/raft.rs:807-815 | the loop counts the votes for and against |
| `RaftNode.Raft.HandleRequestVoteResponse` | src/raft/raft.rs:800-825 | leads on a quorum for it, follows on a quorum against |
| `RaftNode.Raft.HandleAppendResponse` | src/raft/raft.rs:828-854 | progress, commit index and the next append |
| `RaftNode.Raft.HandleHeartbeatResponse` | src/raft/raft.rs:886-898 | sends what the peer lacks |
| `RaftNode.Raft.SendAppend` | src/raft/raft.rs:916-956 | the append for one peer, nothing, or the panic on an index below the log |
| `RaftNode.Raft.BcastAppend` | src/raft/raft.rs:1015-1023 | one append for every peer, in any order |
| `RaftNode.Raft.BcastHeartbeat` | src/raft/raft.rs:1037-1045 | one heartbeat for every peer, in any order |
| `RaftNode.Raft.MaybeCommit` | src/raft/raft.rs:1048-1069 | collecting, sorting and indexing give the index that a quorum has reached |
| `RaftNode.Raft.Propose` | src/raft/raft.rs:300-326 | entries renumbered from the end of the log, then commit and broadcast |
| `RaftNode.Raft.StepFollower` | src/raft/raft.rs:165-196 | dispatch as the model |
| `RaftNode.Raft.StepCandidate` | src/raft/raft.rs:232-262 | dispatch as the model, with the sender's term adopted unguarded |
| `RaftNode.Raft.StepLeader` | src/raft/raft.rs:295-342 | dispatch as the model |
| `RaftNode.Raft.Step` | src/raft/raft.rs:123-141 | the object after a message is the model's node after it, with the same outcome: done, error or panic; its term falls exactly when a candidate gets an older append or heartbeat; its commit index stays inside the log, does not fall, and follows the sender's as far as the log reaches |
| `QuorumSelection.Collect` | src/raft/raft.rs:1053 | the collected match indexes count, for every bound, the peers that have reached it |
| `QuorumSelection.SortDescending` | src/raft/raft.rs:1054-1055 | sorted, and a permutation |
| `QuorumSelection.AtPlace` | src/raft/raft.rs:1057-1059 | the element at the quorum's place is reached by a quorum, and nothing larger is |
| `QuorumSelection.SelectQuorumIndex` | src/raft/raft.rs:1053-1059 | the largest index that a quorum of the peers has reached |
| `RaftElection.StepEffect` | src/raft/raft.rs:123-342 | all that any message can do to term, role, vote, counted votes and outgoing votes of a node |
| `RaftElection.TermFallsIff` | src/raft/raft.rs:232-262 | a step lowers the term if and only if a candidate is handed an append or heartbeat of an earlier term |
| `RaftElection.VotesAgreeKept` | src/raft/raft.rs:701-748 | no node ever sends votes for two candidates of one term |
| `RaftElection.NewElectors` | src/raft/raft.rs:800-825 | the votes counted by a new leader are those of a majority, all of them sent |
| `RaftElection.HappenKeeps` | src/raft/raft.rs:123-342 | every event of the network keeps the invariant |
| `RaftElection.TermsGrowIff` | src/raft/raft.rs:123-141 | over every run, no term ever falls if and only if no candidate is handed such a message |
| `RaftElection.ElectionSafety` | src/raft/raft.rs:440-471 | section 5.2 of the extended Raft paper: over every such run with loss, delay, reordering and duplication, no term ever has two leaders |
| `RaftVoting.ElectorsNotAhead` | src/raft/raft.rs:701-748 | section 5.4.1 of the Raft paper: over every such run, whoever has led a term was elected by a majority none of which, when it voted, had a log ahead of the one the leader campaigned with |
| `RaftTwoLeaders.TwoLeadersPossible` | src/raft/raft.rs:240-248 | a concrete run of three nodes with one stale heartbeat that gives a term two leaders |
| `RaftCommit.CommitsIff` | src/raft/raft.rs:1048-1069 | the commit index moves to c if and only if the node leads, c is above it and of the current term, and c is the largest index a quorum of peers has reached |
| `RaftCommit.CommitNeedsMajority` | src/raft/raft.rs:1048-1069 | then every quorum of members contains a peer that has the log up to c (sections 5.3 and 5.4.2 of the Raft paper) |
| `RaftCommit.SmallClustersNeverCommit` | src/raft/raft.rs:1096-1098 | the leader does not count itself: with one or two members nothing is ever committed through it |
| `RaftCommit.StepAdvances` | src/raft/raft.rs:123-342 | every step keeps the commit index inside the log and never lowers it |
| `RaftCommit.CommitBounds` | src/raft/raft.rs:505-578 | over every run of a node that does not panic and is handed appends that do not run backwards, truncating ones included, the commit index never decreases and never passes the last index |
| `RaftCommitRuns.FollowerCommits` | src/raft/raft.rs:505-675 | from an append that matches or a heartbeat a node takes over a larger commit index as far as its log reaches, and exactly that; otherwise its commit index stays |
| `RaftCommitRuns.StepCommits` | src/raft/raft.rs:123-342 | every step leaves the commit index, or takes over at most the sender's, or moves it as a leader to an entry of its term that a quorum has reached; a leader believes of a peer only what the peer has told it in its term |
| `RaftCommitRuns.CommitHasSource` | src/raft/raft.rs:505-675 | over every run, every commit index at a node or in a message is at most an initial one or one to which a leader has moved before |
| `RaftCommitRuns.CommittedByMajority` | src/raft/raft.rs:1048-1069 | over every run, what any node, leader or follower, holds committed beyond the initial commit indexes has been in the logs of a majority |
| `RaftReplication.AppendContiguousIff` | src/raft/log.rs:145-166 | an append leaves the log without gaps or doubles if and only if the new entries follow or overlap it behind its first entry |
| `RaftReplication.AppendReplaces` | src/raft/log.rs:145-166 | then the log holds the new entries from their first index on and the old ones below |
| `RaftReplication.StepContiguousIff` | src/raft/raft.rs:123-342 | a step keeps a log so if and only if the entries it takes join the log; what a leader adds always does |
| `RaftReplication.LogContiguousIff` | src/raft/raft.rs:505-578 | a node's log stays so over its whole run if and only if all entries it takes join |
| `RaftReplication.RepeatedAppendDoubles` | src/raft/log.rs:156-163 | one append handled twice by a follower puts its first entry into the log twice |
| `RaftReplication.LogsContiguousIff` | src/raft/raft.rs:505-578 | over every run of a cluster, all logs stay without gaps and doubles if and only if no node takes entries that reach back to the first entry of its log |
| `RaftReplication.AppendsSoundOverRun` | src/raft/raft.rs:916-956 | then every append on the network is contiguous and starts behind its predecessor |
| `RaftReplication.StepSpeaks` | src/raft/raft.rs:505-956 | what a step says to others: appends and heartbeats are a leader's, with its term, commit index and the log from the next index on; an append is acknowledged only if it matches, up to the end of the log |
| `RaftReplication.CommitBoundsOverRun` | src/raft/raft.rs:505-578 | and at every node the commit index never decreases and never passes the last index, with no further assumption on messages |
| `RaftProgress.ElectionCanBeWon` | src/raft/raft.rs:440-471 | from every state of a cluster in which a node that does not lead has a log in order, and a majority with it is in no later term and has no log ahead of its own, there is a run that makes it leader of the next term and sends its first entry to every peer |
| `RaftProgress.RequestDecides` | src/raft/raft.rs:701-748 | a vote is given if and only if the request is of a later term, or of the own one with the vote free or already given to the sender, and the log described does not end before the own one; otherwise it is refused |
| `RaftProgress.AnswerDecides` | src/raft/raft.rs:800-825 | a candidate leads if and only if a quorum has voted for it, and gives up if and only if a quorum has refused |
| `RaftProgress.LaterTermFollows` | src/raft/raft.rs:123-141 | a message of a later term makes any node a follower of that term, and of the sender unless it asks for a vote |
| `RaftProposals.ProposalLogged` | src/raft/raft.rs:300-326 | what is proposed ends the leader's log with its type and data, in the leader's term and numbered on; the entries before stay |
| `RaftProposals.ProposalReaches` | src/raft/raft.rs:505-578 | proposal, append, answer: a follower in step then has the leader's log from the next index on and its own before, and the leader knows it |
| `RaftProposals.LeaderCommitsIff` | src/raft/raft.rs:300-326 | on a proposal or an acknowledgement the leader commits up to c if and only if c is above what is committed, of its term, and the largest index a quorum of the peers has reached |
| `RaftProposals.LastAckCommits` | src/raft/raft.rs:828-854 | the acknowledgement that gives a quorum the whole log, if that ends in the term of the leader, commits all of it |
| `RaftProposals.AckSendsRest` | src/raft/raft.rs:828-854 | a peer that acknowledges and lacks entries is sent the rest |
| `RaftProposals.BeatCatchesUp` | src/raft/raft.rs:886-898 | a follower in step that answers a heartbeat and lacks entries gets them |
| `RaftProposals.RejectionBacksUp` | src/raft/raft.rs:828-854 | an append that does not match changes no log, and its refusal takes the leader's next index back to the end of the follower's log, or by at least one, from where it tries again |
| `RaftProposals.OldLeaderStepsDown` | src/raft/raft.rs:505-578 | a leader of an earlier term is refused, and the refusal makes it a follower of the later term |
| `RaftProposals.CommitTravels` | src/raft/raft.rs:1037-1045 | a tick of the leader sends a heartbeat to every peer, and a follower that is in no later term takes over the commit index as far as its log reaches and answers |
| `RaftProposals.ProposalForwarded` | src/raft/raft.rs:165-196 | a follower hands a proposal on to the leader it knows |
| `RegionStore.StoreMeta.SetRegion` | src/raftstore/store_meta.rs:24-34 | table and sorted index after adding or replacing a region; their agreement is kept |
| `RegionStore.StoreMeta.RemoveRegion` | src/raftstore/store_meta.rs:75-81 | the same for removal |
| `RegionStore.StoreMeta.FindRegionByKey` | src/raftstore/store_meta.rs:43-66 | the search from the end of the index; on a tiling it returns the one region that holds the key |
| `RegionStore.AdminHandler.ExecuteSplit` | src/raftstore/admin.rs:61-106 | both halves stored, or refused with nothing changed; a tiling stays a tiling |
| `Regions.HalvesMeaning` | src/raftstore/admin.rs:61-162 | exactly when a split is refused; otherwise the halves meet at the split key and both carry the old version plus one, and the upper one has the peers asked for, on this store, or the chosen ones |
| `Regions.HalvesPartition` | src/raftstore/admin.rs:109-177 | a key is in the region if and only if it is in one half, and never in both |
| `Regions.SplitTilesIff` | src/raftstore/admin.rs:61-106 | a split keeps every key in exactly one region if and only if the new id overwrites no region that holds a key |
| `RegionIndex.SetRegionLists` | src/raftstore/store_meta.rs:24-34 | the index stays sorted and lists every region under its start key |
| `RegionIndex.RemoveRegionLists` | src/raftstore/store_meta.rs:75-81 | the same for removal |
| `RegionIndex.FindRoutes` | src/raftstore/store_meta.rs:43-66 | an index that agrees with a tiling routes every key |
| `RegionIndex.SplitKeeps` | src/raftstore/admin.rs:61-106 | index and tiling survive a split, also one at the start key of the region |
| `RegionIndex.RegionsTileOverRun` | src/raftstore/admin.rs:61-106 | over every run of splits from one unbounded region, each key lies in exactly one region and the search returns it |
| `RegionIndex.TakenIdLosesKeys` | src/raftstore/admin.rs:61-106 | a split under a taken id after which a key is in no region and is not found |
| `BasicCluster.BasicCluster.PutRegion` | src/scheduler/cluster/basic_cluster.rs:60-107 | the table changes at one id; both inverse indexes agree again; every known store's counts and sizes are the sums over the table |
| `BasicCluster.ComputeLoads` | src/scheduler/cluster/basic_cluster.rs:110-143 | resetting and accumulating in any order gives those sums |
| `BasicCluster.CountRegion` | src/scheduler/cluster/basic_cluster.rs:123-142 | one region adds its share to every store |
| `BasicCluster.Unlink` | src/scheduler/cluster/basic_cluster.rs:72-76 | removes the region from exactly the stores it was on |
| `BasicCluster.Link` | src/scheduler/cluster/basic_cluster.rs:91-96 | adds the region to exactly the stores it is on |
| `BasicCluster.BasicCluster.RandPendingRegion` | src/scheduler/cluster/basic_cluster.rs:164-190 | some region with pending peers on the store, or none exactly when there is none |
| `BasicCluster.BasicCluster.RandFollowerRegion` | src/scheduler/cluster/basic_cluster.rs:193-219 | some healthy region the store follows, or none exactly when there is none |
| `BasicCluster.BasicCluster.RandLeaderRegion` | src/scheduler/cluster/basic_cluster.rs:222-248 | some healthy region the store leads, or none exactly when there is none |
| `ClusterModel.LoadAdd` | src/scheduler/cluster/basic_cluster.rs:123-142 | the sum over the table does not depend on the order of the regions |
| `Balance.CountsMatchIndexes` | src/scheduler/cluster/basic_cluster.rs:110-161 | the counts in a store's statistics are the sizes of the inverse indexes |
| `Balance.SizesMatchIndexes` | src/scheduler/cluster/basic_cluster.rs:110-161 | the sizes in a store's statistics are the sums of the sizes of the regions in its indexes |
| `Balance.CarriedIsFinished` | src/scheduler/operator/operator.rs:49-127 | every step is finished, by its own test, once carried out |
| `Balance.MoveRelocates` | src/scheduler/operator/operator.rs:177-212 | the steps of a move relocate one peer: as many peers, one per store, the leader among them |
| `Balance.MoveLowersSquares` | src/scheduler/schedulers/balance_region.rs:126-161 | carrying out a move past the size guard lowers the sum of squared store sizes by at least 2x(x+1) for a region of size x |
| `Balance.TransferLowersSquares` | src/scheduler/schedulers/balance_leader.rs:72-93 | carrying out a transfer past the count guard lowers the sum of squared leader counts by at least 2 and keeps all region sizes |
| `Balance.BalancingFalls` | src/scheduler/schedulers/balance_region.rs:48-113 | over every run of moves and transfers in any mixture, the pair of both sums strictly falls in lexicographic order: balancing terminates |
| `BalanceBound.LeaderSquaresBound` | src/scheduler/schedulers/balance_region.rs:48-113 | however leaders are spread, the sum of their squared counts is at most the square of the number of regions |
| `BalanceBound.BalancingEnds` | src/scheduler/schedulers/balance_region.rs:48-113 | hence a bound on the number of orders in any run |
| `Schedulers.UsableStores` | src/scheduler/filter/filters.rs:37-56 | exactly the stores that are up, not blocked and heard of in time, in the asked order |
| `Schedulers.TryCreateMovePeerOperator` | src/scheduler/schedulers/balance_region.rs:118-164 | the first suitable target and the order to move there; nothing if and only if no target suits |
| `Schedulers.ScheduleRegionMove` | src/scheduler/schedulers/balance_region.rs:48-113 | what is ordered is a move of a region on the source to a suitable target, the least loaded of them; every usable store that carries more than the source, or every one if nothing is ordered, was tried in vain: of each kind of region there was none, or one without a target |
| `Schedulers.ScheduledMoveOrderable` | src/scheduler/schedulers/balance_region.rs:48-163 | with statistics from the table, it is a move that lowers the measure |
| `Schedulers.OrderTransfer` | src/scheduler/schedulers/balance_leader.rs:66-94 | the first follower with two leaders fewer; nothing if and only if there is none |
| `Schedulers.ScheduleLeaderTransfer` | src/scheduler/schedulers/balance_leader.rs:46-99 | what is ordered is a transfer from the source to such a follower, the one with fewest leaders; every usable store that leads more, or every one if nothing is ordered, was tried in vain |
| `Schedulers.ScheduledTransferOrderable` | src/scheduler/schedulers/balance_leader.rs:46-99 | with statistics from the table and counts below 2^31, it is a transfer that lowers the measure |
| `TieredStorages.TieredStorage.Touch` | src/storage/tiered_storage.rs:76-84 | counts one more access, saturating; exactly one other key is forgotten if the table would be over capacity, none otherwise |
| `TierRounds.TargetPlaces` | src/storage/tiered_storage.rs:86-126 | where a round sends an entry, by its count and the thresholds: from cold to warm, from warm to hot or cold, from hot to cold, or nowhere |
| `TierModel.HotFallsToCold` | src/storage/tiered_storage.rs:86-126 | an entry that leaves the hot tier and is not popular enough to return ends the same round in the cold tier |
| `TieredStorages.TieredStorage.GetCf` | src/storage/tiered_storage.rs:156-184 | answers as the merged map, and counts an access exactly when there is an answer |
| `TieredStorages.TieredStorage.Write` | src/storage/tiered_storage.rs:272-295 | deletions at once in all tiers, all puts into the warm tier at the end, each counted as an access |
| `TieredStorages.TieredStorage.RebalanceTier` | src/storage/tiered_storage.rs:108-126 | every misplaced entry of the tier moves to where its count sends it; when the round is full, exactly the first of them in byte order |
| `TieredStorages.TieredStorage.RebalanceOnce` | src/storage/tiered_storage.rs:103-136 | three such scans with room for 1000 moves in all; if that is enough every entry of disjoint tiers ends where its count and the thresholds say; disjoint tiers stay disjoint with the same contents; counts cleared |
| `TierModel.PassSettles` | src/storage/tiered_storage.rs:108-126 | a scan with room to spare leaves in its tier exactly what belongs there |
| `TierModel.RoundSettles` | src/storage/tiered_storage.rs:103-136 | after a round that was not cut short, an entry is in a tier if and only if it was in one from which the round sends it there |
| `TierRounds.RoundPlaces` | src/storage/tiered_storage.rs:86-136 | after such a round on disjoint tiers, each way between two tiers was taken if and only if the count met its threshold |
| `TierRounds.CountsAreAccesses` | src/storage/tiered_storage.rs:76-84 | while nothing is forgotten, the counts are the numbers of accesses, saturating |
| `TierRounds.PopularBecomesHot` | src/storage/tiered_storage.rs:76-136 | a warm entry is hot after the next uncut round if and only if it was accessed often enough since the last one, when no more keys were accessed than the table has room for; its value is the same |
| `TierModel.StoredKeysDistinct` | src/storage/tiered_storage.rs:68-74 | column families without an underscore in their names never share a stored key |
| `TierModel.LookupIsMerged` | src/storage/tiered_storage.rs:156-184 | looking through the tiers is looking in the merged map |
| `TierModel.WriteAgreesIff` | src/storage/tiered_storage.rs:272-295 | exactly when a read after a batch gives what a plain map would: every key put is put last and no older value stays hot |
| `TierModel.WriteDisjointIff` | src/storage/tiered_storage.rs:272-295 | exactly when a batch keeps the tiers disjoint |
| `TierModel.HotValueHidesPut` | src/storage/tiered_storage.rs:272-295 | a run: a key is put, moved to the hot tier and put again; readers keep the first value |
| `TierModel.LaterDeleteLost` | src/storage/tiered_storage.rs:272-295 | a batch that puts a key and then deletes it leaves the key in store |
| `TierModel.MoveKeepsLookupsIff` | src/storage/tiered_storage.rs:117-122 | exactly when readers do not notice a move |
| `TierModel.MovesKeep` | src/storage/tiered_storage.rs:103-136 | any sequence of moves keeps disjoint tiers disjoint and their contents the same |
| `TierModel.TiersAreOneMap` | src/storage/tiered_storage.rs:86-295 | over every run of rounds and clean batches the tiers stay disjoint and every read answers as one plain map that only saw the batches |

## Left out

- Serialization of locks and write records: both are datatypes here, so parse errors do not occur.
- Storage and network errors that leave a command through an early return, with its latches still taken.
- Latch liveness: whether a waiting task is woken, and a wake-up missed between the test and the wait.
- TransactionServers.TransactionServer.KvPrewrite: starts where the wait for the latches has ended; waiting and interleaving are in LatchedRuns.
- TransactionServers.TransactionServer.KvCommit: the same.
- TransactionServers.TransactionServer.KvBatchRollback: the same.
- TransactionServers.TransactionServer.KvCheckTxnStatus: the same.
- TransactionServers.TransactionServer.KvResolveLock: the same; between collecting the locks and latching them nothing else runs.
- Scanners.Scanner.Next: the end key is fixed when the scanner is made, and the store does not change during the scan.
- KvIterator.Iterator.Seek: a column family is a map of its own; the prefix by which the shared database tells them apart is not part of it.
- KvIterator.Iterator.constructor: the same; every user of an iterator seeks before it reads.
- Idempotent commit: the record is only looked for at the start timestamp, so it holds only in the case of CommitSucceedsIff.
- First-committer-wins: proved never to be enforced.
- Raft snapshots, membership change, ticks and random timeouts, the ready and advance cycle, and the asynchronous copies of the handlers.
- Raft Log Matching and State Machine Safety: an append at the first index does not truncate, so they do not hold of the code; the exact condition for logs without gaps and doubles is proved.
- RaftNode.Raft.Step: terms and indexes are unbounded integers, and an index that would fall below zero is a panic.
- RaftNode.Raft.BcastAppend: the queue of outgoing messages is compared as a set, so their order is not stated.
- RaftNode.Raft.BcastHeartbeat: the same.
- RaftElection.ElectionSafety: that a run with a stale message always yields two leaders is not claimed; one such run is given.
- Regions.HalvesMeaning: versions are unbounded; the peers chosen by the allocator are a parameter.
- Overlap queries, region merges and the other admin commands.
- Operator dispatch and timeouts: operator steps are carried out directly.
- Schedulers.ScheduleLeaderTransfer: random choices are arbitrary, so a region that was not picked may have had a target.
- Schedulers.ScheduleRegionMove: the same for moves.
- Schedulers.UsableStores: the time since a store was last heard of is a number, not a clock.
- TieredStorages.TieredStorage.Touch: which other key a full access table forgets is arbitrary.
- TierRounds.RoundPlaces: thresholds whose sum wraps around are covered by RoundSettles only.
- The merged iterator over the tiers, whose seek does not seek, the read cache and the multi-level scan.
- RocksDB, the write-ahead log, gRPC, HTTP, the command line, the placement driver service and metrics.
