# Replication protocols, modelled and proved in Dafny

This project models the replication and consensus protocols of the repository as state machines and
objects, and proves what their documentation promises about every run.

Each protocol has up to three parts. A *model* module holds values: the state of one node, what each
handler makes of it, and the steps of the whole system. A *proof* module states the properties over
all runs, that is over all sequences of states in which each follows from the one before by a step.
Auxiliary histories appear only inside proofs; the theorems speak about the real states. An *object*
module holds the classes and loops of the source, and ties every method to the model by its contract.

| protocol | files |
|---|---|
| Raft election, log replication and commit | `Raft`, `RaftElection`, `RaftLogMatching`, `RaftPast`, `RaftCommit`, `RaftRuns`, `RaftScenes`, `RaftCommitExact`, `RaftValidity`, `RaftStores`, `RaftNode`, `ReplicationLog` |
| single-decree and multi Paxos | `Paxos`, `PaxosSequential`, `PaxosObjects` |
| multi-leader replication | `MultiLeader`, `MultiLeaderDelivery`, `MultiLeaderNode`, `VectorClock`, `Lww`, `Hlc`, `Store` |
| leaderless quorums | `Leaderless`, `LeaderlessFreshness`, `LeaderlessValidity`, `LeaderlessDelivery`, `LeaderlessNode`, `Quorum` |
| single-leader replication | `SingleLeader`, `SingleLeaderStore`, `SingleLeaderBatches`, `SingleLeaderNodes` |
| linearizability checker | `Linearizability` |
| anti-entropy | `Merkle`, `AntiEntropy` |
| sequence CRDT | `Rga`, `RgaReading`, `RgaObject` |
| two-phase commit | `TwoPhaseCommit`, `TwoPhaseProgress`, `TwoPhaseObjects` |
| versioned store, hash ring, membership | `Mvcc`, `HashRing`, `Swim`, `SwimSuspicion` |
| shared | `Storage`, `Order` |

Conventions and assumptions:

- A handler, or a method that runs under one lock, is one step. The leader of single-leader replication
  appends to its log and updates its store under different locks, so these are two steps. Clocks,
  timeouts, random choices and message loss are parameters of steps or free choices, so every timing is
  covered.
- Counters are unbounded integers. Time stamps of the checker are 64-bit, because its search starts
  from the largest one. `NoOverflow` says when the hybrid clock fits 64 bits.
- Membership is fixed. Raft, Paxos and leaderless messages may be lost and delayed but not duplicated;
  multi-leader and single-leader messages may also be duplicated.
- Hashes and encodings are parameters. Collision freedom is asked only for the texts actually hashed.
- A nil and an empty byte string are told apart only where the source tells them apart.

Where a promise does not hold for all inputs, the code is kept as it is and the exact condition is
proved: Paxos agreement fails once nil may be proposed next to other values (`NilThenValue`,
`AgreesIffNilAlone`); the checker refuses ill-timed operations (`CheckRegister`, `IllTimedAlone`);
merging RGA states commutes exactly under agreement on ids (`MergeCommutes`); a Merkle diff is exact
exactly over keys that are not empty and values with which no two leaf texts coincide
(`DiffExactIffClean`, and `RoundExactIff` for the encoded values of a round); a round of anti-entropy
converges exactly when the newest versions of a key show the same (`RoundConverges`); a batch can be
split exactly by a leader step that logs something else or resends the batch's first entry
(`SplitsIffDisturbs`); the leader comes to serve something else than its log says exactly by logging a
key while an earlier, differing entry of that key is not stored yet (`MisleadsIffClash`); a late commit
on a taken timestamp is not seen there (`CommitVisible`); ring stability needs exactly that no two nodes
share a position (`AddStableIff`); gossip order matters exactly when a Dead claim is outbid
(`OrderIrrelevantIff`); a suspicion heard from a peer gets a time from a direct call exactly if that is
at a higher incarnation (`SuspectTakes`, `GossipSuspicionUntimed`); `Equal` on vector clocks is right
exactly without zero entries (`EqualExactIff`); and Raft can commit different entries at one index
exactly when a leader among three or more members may take acknowledgements of an earlier term, or
followers may acknowledge old entries of their own among three, or among five or more (`AgreesIffFits`).
The comments on `WriteBatch`, `advanceCommitLocked` and the merge of suspicions promise more; the model
follows the code.

## Model

| member | source | states |
|---|---|---|
| `RaftElection.ElectionSafety` | internal/node/raft.go:118-142 | in every run, no two nodes are ever leader in the same term, at the same time or at different times |
| `RaftElection.MoveKeepsInv` | internal/node/raft.go:277-316 | every voting step keeps the link between the bare vote counters and the votes really cast |
| `RaftElection.StepKeepsInv` | internal/node/raft.go:251-268 | every handler, tick and message loss is such a voting step or leaves votes alone |
| `RaftElection.MajorityAgrees` | internal/node/raft.go:300-316 | the threshold computed from the peer list is a majority of the membership |
| `RaftElection.SameLeader` | internal/node/raft.go:300-316 | two candidates supported by majorities in one term are the same node |
| `RaftLogMatching.LogMatching` | internal/node/raft.go:336-377 | in every run without compaction, logs (of any two nodes, at any two times) that hold an entry of the same index and term are equal up to it |
| `RaftLogMatching.SliceApplied` | internal/replication/log.go:170-192 | an incoming slice of a leader log, stale or overlapping, leaves the log as it was or makes it that leader log up to the end of the slice |
| `RaftLogMatching.SendGood` | internal/node/raft.go:174-203 | what a leader sends is a slice of its own log with the right previous term |
| `RaftLogMatching.ProposeKeepsInv` | internal/node/raft.go:453-457 | an append by a leader keeps every log coherent with the logs of the leaders of its terms |
| `RaftLogMatching.WinKeepsInv` | internal/node/raft.go:320-334 | a new leader starts its term with a coherent log |
| `RaftLogMatching.StepKeepsLogInv` | internal/node/raft.go:251-268 | every step keeps logs and messages coherent |
| `RaftPast.Complete` | internal/node/raft.go:277-298 | what members that meet every majority have held of a leader's log, up to an entry of that leader's term, is in the log every later leader stood with |
| `RaftCommit.StateMachineSafety` | internal/node/raft.go:336-420 | in every run without compaction whose acknowledgements are neither overstated nor outdated, or only of kinds that are harmless at its number of members, what any two nodes have committed, at any two times, is equal as far as both go |
| `RaftCommit.LeaderCompleteness` | internal/node/raft.go:277-334 | in such runs a leader has whatever any node had committed in an earlier term |
| `RaftCommit.StepKeepsInv` | internal/node/raft.go:251-268 | every handler, tick and loss keeps votes, held prefixes, progress and commits explained |
| `RaftCommit.AcceptedLog` | internal/node/raft.go:336-377 | after an accepted message the follower's log is the leader's up to the end of the message, and as far as it goes unless the answer overstates |
| `RaftCommit.AcceptedKeeps` | internal/replication/log.go:170-192 | an accepted message removes nothing that follower and leader had in common |
| `RaftCommit.ElectorsSound` | internal/node/raft.go:277-298 | a member that voted for a leader never overstates to it |
| `RaftCommit.EnoughHeld` | internal/node/raft.go:401-420 | of the members a leader counts, whatever kinds of acknowledgements are harmless at that size, so many have really held the entry that they meet every majority |
| `RaftCommit.CommitsCommitted` | internal/node/raft.go:401-420 | what a leader commits has been held, up to an entry of the leader's term, by members that meet every majority |
| `RaftCommitExact.OverstatedUnsafe` | internal/node/raft.go:362-376 | in every cluster of three or of five and more, followers that acknowledge old entries of their own lead to two different commits at one index |
| `RaftCommitExact.OutdatedUnsafe` | internal/node/raft.go:379-397 | in every cluster of three or more, acknowledgements of an earlier term, taken by a leader whose log was replaced meanwhile, lead to two different commits at one index |
| `RaftCommitExact.FittingAgrees` | internal/node/raft.go:336-420 | in all runs with outdated acknowledgements among at most two members, and overstated ones among at most two or four, commits agree |
| `RaftCommitExact.AgreesIffFits` | internal/node/raft.go:362-397 | for every number of members, commits agree in all runs exactly when outdated acknowledgements can occur only among at most two members and overstated ones only among at most two or four |
| `RaftRuns.Campaign` | internal/node/raft.go:118-142 | from any state in which all are in one term, a member that a majority would vote for can win the next term, and nobody gains or loses an entry |
| `RaftRuns.CopyTo` | internal/node/raft.go:174-203 | from any state, a leader with nothing committed backs off to its first entry and replaces a log that nowhere agrees with its own |
| `RaftRuns.Candidates` | internal/node/raft.go:401-420 | when some peers have acknowledged the whole log and the others nothing, the search commits the whole log or nothing, by their number |
| `RaftNodeObject.RaftNode.Elect` | internal/node/raft.go:118-142 | the candidacy step as the run model takes it |
| `RaftNodeObject.RaftNode.HandleVoteRequest` | internal/node/raft.go:277-298 | the vote step: at most one vote per term, only for an up-to-date log |
| `RaftNodeObject.RaftNode.HandleVoteResponse` | internal/node/raft.go:300-316 | the counting step, with the win |
| `RaftNodeObject.RaftNode.BecomeLeader` | internal/node/raft.go:320-334 | per-peer indexes are reset in a loop over the peers |
| `RaftNodeObject.RaftNode.StepDown` | internal/node/raft.go:270-275 | a higher term makes a follower without a vote |
| `RaftNodeObject.RaftNode.HandleAppendEntries` | internal/node/raft.go:336-377 | consistency check, append, commit and answer, as the run model takes them |
| `RaftNodeObject.RaftNode.HandleAppendAck` | internal/node/raft.go:379-397 | replication progress of one peer |
| `RaftNodeObject.RaftNode.AdvanceCommit` | internal/node/raft.go:401-420 | the commit index becomes the greatest uncommitted index of the current term that a majority is believed to hold, or stays when there is none |
| `RaftModel.CandidateIsGreatest` | internal/node/raft.go:401-420 | the downward search finds the greatest committable index exactly when there is one |
| `RaftModel.ReplicatedCounts` | internal/node/raft.go:408-413 | the count is one more than the peers whose known progress reaches the index |
| `RaftNodeObject.RaftNode.HandleInstallSnap` | internal/node/raft.go:215-249 | a newer snapshot replaces the store and moves the log boundary |
| `RaftNodeObject.RaftNode.SendAppend` | internal/node/raft.go:174-203 | entries from the next index on, or a snapshot when they are compacted away |
| `RaftNodeObject.RaftNode.Propose` | internal/node/raft.go:443-457 | only a leader appends: its log ends with the proposal, key, value, operation and timestamp, in its term |
| `RaftNodeObject.RaftNode.MaybeCompact` | internal/node/raft.go:158-172 | compaction at the applied index with its own term |
| `RaftValidity.Validity` | internal/node/raft.go:443-457 | in every run, compaction and snapshots included, each entry of any log at any time has the key, value, operation, timestamp and origin of an earlier proposal to a leader of its term, at the index that leader had reached |
| `RaftValidity.ProposedOnce` | internal/node/raft.go:443-457 | entries at two indexes of a log come from two proposals |
| `RaftValidity.ProposalLogged` | internal/node/raft.go:453-457 | a proposal becomes the last entry of a leader log, and changes nothing on any other node |
| `RaftStores.MachineIsFold` | internal/node/raft.go:423-441 | in every run in which commits agree, each node has applied exactly what it has committed, and its store is the fold of it |
| `RaftStores.StoresAgree` | internal/node/raft.go:423-441 | in such runs the store of whoever has applied less is the state the other went through at that index; equal indexes mean equal stores |
| `RaftStores.ServesLastCommitted` | internal/node/raft.go:493-513 | in such runs a node serves for a key the value of the last committed proposal of it, or nothing if that was a delete |
| `RaftStores.ServesNothingElse` | internal/node/raft.go:493-513 | a key without a committed proposal is not found |
| `RaftStores.FollowerCommits` | internal/node/raft.go:362-372 | an accepted message moves the commit index to what the leader has committed, as far as the log goes, and never back |
| `RaftStores.FollowsSender` | internal/node/raft.go:346-357 | a message of the term or a later one makes its sender the leader that is followed |
| `RaftStores.StaleSteppedDown` | internal/node/raft.go:338-343 | the answer to a leader of an earlier term makes it step down |
| `RaftStores.SnapshotCatchesUp` | internal/node/raft.go:205-249 | a peer behind the boundary takes over the leader's store, its log ends at the boundary, and the leader goes on from there |
| `RaftStores.CompactionHonest` | internal/node/raft.go:158-172 | compaction keeps the log a suffix of the plain one, and moves the boundary to the applied index exactly when more than thirty entries lie between |
| `RaftStores.LeaderNamesItself` | internal/node/raft.go:320-334 | in every run a leader names itself as leader |
| `RaftStores.NamesALeader` | internal/node/raft.go:516-520 | in every run the leader a node sends clients to has led the term of the node |
| `LogModel.CompactionUnobservable` | internal/replication/log.go:43-68 | after any honest history of appends, overwrites and compactions, every question at or above the boundary is answered as on the log that was never compacted |
| `LogModel.CompactedRunRefines` | internal/replication/log.go:170-226 | every honest history keeps the compacted log a suffix of the plain one with the true boundary term |
| `LogModel.RefinedAnswers` | internal/replication/log.go:121-165 | Get, GetFrom, TermAt, Matches and LastIndexTerm agree with the plain log |
| `LogModel.StepRefines` | internal/replication/log.go:34-41 | one operation on both logs keeps the refinement |
| `LogModel.Receive` | internal/replication/log.go:173-190 | one incoming entry keeps the index mapping and the boundary |
| `LogModel.DroppedIff` | internal/replication/log.go:203-226 | after any honest history an entry is gone exactly if some compaction reached it |
| `LogModel.SnapshotInstalled` | internal/replication/log.go:229-242 | a snapshot ahead of the boundary replaces the log, which ends there, and the commit index does not go back |
| `ReplicationLogObject.ReplicationLog.Append` | internal/replication/log.go:34-41 | the entry gets the next index |
| `ReplicationLogObject.ReplicationLog.AppendAfter` | internal/replication/log.go:170-192 | the truncating and appending loop is the fold of its single turns |
| `ReplicationLogObject.ReplicationLog.Receive` | internal/replication/log.go:173-190 | one turn of that loop: keep, skip, or truncate and append |
| `ReplicationLogObject.ReplicationLog.SetCommitIndex` | internal/replication/log.go:82-88 | the commit index only rises |
| `ReplicationLogObject.ReplicationLog.Compact` | internal/replication/log.go:203-226 | the prefix is dropped and the boundary term recorded |
| `ReplicationLogObject.ReplicationLog.InstallSnapshot` | internal/replication/log.go:229-242 | the whole log is replaced by a boundary |
| `PaxosSafety.Agreement` | internal/paxos/paxos.go:87-125 | with interleaved and lost calls and any proposers, even two that mint the same number, no two different non-nil values are ever accepted by majorities |
| `PaxosSafety.SuccessIsChosen` | internal/paxos/paxos.go:87-125 | a proposal that reports success has been accepted by a majority |
| `PaxosSafety.NumberIsNew` | internal/paxos/paxos.go:22-28 | an acceptor promises each number at most once, so no two attempts get a majority of promises for one number |
| `PaxosSafety.EarlierBlocked` | internal/paxos/paxos.go:87-125 | the value phase 1 picks blocks every contradicting earlier proposal |
| `PaxosSafety.StepKeepsInv` | internal/paxos/paxos.go:22-43 | every call keeps the invariant behind agreement |
| `PaxosSequential.SucceedsIffWilling` | internal/paxos/paxos.go:87-125 | an undisturbed Propose succeeds exactly when a majority has promised less than its number |
| `PaxosSequential.AdoptsHighest` | internal/paxos/paxos.go:87-108 | phase 1 adopts the value of the highest reported acceptance, or keeps its own |
| `PaxosSequential.ProposeIsRun` | internal/paxos/paxos.go:87-125 | an undisturbed Propose is a run of single calls |
| `PaxosSequential.NilThenValue` | internal/paxos/paxos.go:97-105 | a nil value can be chosen first and another after it: agreement fails |
| `PaxosSequential.AgreesIffNilAlone` | internal/paxos/paxos.go:97-105 | agreement holds in all runs over a set of allowed values exactly when nil is not among them or nothing else is |
| `PaxosSequential.ChosenWasOffered` | internal/paxos/paxos.go:87-125 | a chosen value was proposed by somebody |
| `PaxosObjects.NumbersUnique` | internal/paxos/paxos.go:63-66 | numbers grow with the round and differ between proposers whose ids fit |
| `PaxosObjects.Acceptor.Prepare` | internal/paxos/paxos.go:22-28 | promise, and what was accepted before |
| `PaxosObjects.Acceptor.Accept` | internal/paxos/paxos.go:35-43 | acceptance unless something higher was promised |
| `PaxosObjects.Proposer.Canvass` | internal/paxos/paxos.go:87-108 | the phase 1 loop |
| `PaxosObjects.Proposer.Collect` | internal/paxos/paxos.go:110-124 | the phase 2 loop |
| `PaxosObjects.Proposer.Propose` | internal/paxos/paxos.go:87-125 | both loops are the sequential Propose, on a number never used before by this proposer |
| `PaxosObjects.MultiPaxos.Decide` | internal/paxos/paxos.go:170-178 | other slots keep their value and what they were offered; the slot decides one of the values it was offered, keeps its decision unless nil was offered, and succeeds exactly when a majority has promised less |
| `PaxosObjects.MultiPaxos.constructor` | internal/paxos/paxos.go:138-143 | a new log has no slots and nothing was offered to any |
| `PaxosObjects.DecideRepeatedly` | internal/paxos/paxos.go:166-178 | a client that asks one slot again and again gets its first value back every time it gets an answer |
| `PaxosObjects.ChosenStays` | internal/paxos/paxos.go:170-178 | what is chosen stays chosen |
| `PaxosObjects.SlotRun` | internal/paxos/paxos.go:138-178 | one more decision on a slot continues its run, offers its value, and reports what was decided before |
| `HlcObject.HLC.Now` | internal/clock/hlc.go:71-91 | the branching clock yields max(last + 1, wall in stamp form) |
| `HlcObject.HLC.Update` | internal/clock/hlc.go:100-146 | the branching clock yields max(last + 1, remote + 1, wall in stamp form), carry included |
| `HlcObject.HLC.SetSkewMillis` | internal/clock/hlc.go:153-157 | changing the skew does not change the last stamp |
| `HlcModel.EncodeDecode` | internal/clock/hlc.go:61-63 | stamps and (physical, logical) pairs are in bijection |
| `HlcModel.TickIsLeast` | internal/clock/hlc.go:71-91 | a local event gets the least stamp after the last one that is not behind the wall clock |
| `HlcModel.JoinIsLeast` | internal/clock/hlc.go:100-146 | an event that receives a stamp gets the least one after that, too |
| `HlcModel.CausalityIncreases` | internal/clock/hlc.go:71-146 | across any number of clocks, stamps strictly increase along happens-before |
| `HlcModel.DriftBounded` | internal/clock/hlc.go:71-146 | no stamp exceeds the largest wall reading plus the number of events |
| `HlcModel.NoOverflow` | internal/clock/hlc.go:61-63 | below that bound, 64 bits are enough |
| `VectorClocks.EqualExact` | internal/storage/entry.go:74-84 | Equal is pointwise equality on clocks without zero entries |
| `VectorClocks.EqualExactIff` | internal/storage/entry.go:74-84 | Equal never calls different histories equal, and misses no equal one, exactly for clocks that spell out no zero |
| `VectorClocks.FooledByZero` | internal/storage/entry.go:74-84 | with any zero spelled out, another node in its place passes for equal |
| `VectorClocks.MissedByZero` | internal/storage/entry.go:74-84 | with any zero spelled out, the same clock without zeros is not recognized |
| `VectorClocks.JoinUnique` | internal/storage/entry.go:30-37 | a join is the same from either side |
| `VectorClocks.VectorClock.Increment` | internal/storage/entry.go:23-26 | one component grows by one |
| `VectorClocks.VectorClock.Merge` | internal/storage/entry.go:30-37 | the loop computes the join |
| `VectorClocks.VectorClock.HappensBefore` | internal/storage/entry.go:39-55 | the two loops decide the strict pointwise order |
| `VectorClocks.VectorClock.Dominates` | internal/storage/entry.go:65-72 | the loop decides the pointwise order |
| `VectorClocks.VectorClock.Equal` | internal/storage/entry.go:74-84 | length and lookup comparison |
| `MultiLeaderConvergence.Convergence` | internal/node/multileader.go:116-231 | in every run, two stored versions of a key with equal vector clocks, anywhere and at any time, have the same value, tombstone and stamp |
| `MultiLeaderConvergence.GreatestStamp` | internal/node/multileader.go:116-318 | each stored or in-flight entry has the value and tombstone that an earlier write step was asked for, and the stamp of that write, the greatest among all writes its vector clock covers |
| `MultiLeaderConvergence.WriteStores` | internal/node/multileader.go:233-318 | a write stores and sends the value it was given, a delete a tombstone |
| `MultiLeaderDelivery.WriteReachesAll` | internal/node/multileader.go:262-270 | from any reachable state, what a write sends can reach every node, and then every node has it or a version at least as new that counts it |
| `MultiLeaderDelivery.CaughtUpAgree` | internal/node/multileader.go:116-231 | in every run two replicas that count as many writes of each node as it has made agree on the key |
| `MultiLeaderDelivery.GossipConverges` | internal/node/multileader.go:75-98 | from any reachable state, gossip alone can make all replicas agree on a key |
| `MultiLeaderConvergence.ExchangeConverges` | internal/node/multileader.go:116-231 | two replicas that receive each other's version end with the same clock and content |
| `MultiLeaderConvergence.ReconcileJoins` | internal/node/multileader.go:116-231 | every receive leaves the clock at the join, whichever branch it takes |
| `MultiLeaderConvergence.StepKeepsInv` | internal/node/multileader.go:116-318 | writes, deletes, receives and gossip keep the invariant |
| `Lww.ResolveIsMax` | internal/conflict/lww.go:21-45 | the winner is one of the two and at least as new as both, whichever is local |
| `Lww.StampsOrdered` | internal/node/leaderless.go:296-301 | the (timestamp, node) order is total, and entryWins is its strict part |
| `MultiLeaderNodeObject.ResolveConflict` | internal/conflict/lww.go:21-45 | the resolver on stored entries |
| `MultiLeaderNodeObject.MultiLeaderNode.ReceiveRemoteWrite` | internal/node/multileader.go:116-231 | clock merge, comparison, resolution and store update, as the run model takes them; a conflict is recorded and resolved exactly if neither version knows of the other |
| `MultiLeaderNodeObject.MultiLeaderNode.Write` | internal/node/multileader.go:233-277 | new stamp, advanced vector clock, stored; a reader then sees the value given, and other keys as before |
| `MultiLeaderNodeObject.MultiLeaderNode.Delete` | internal/node/multileader.go:281-318 | a delete is a write of a tombstone; a reader then finds nothing under the key, and other keys as before |
| `StoreObject.SetShows` | internal/storage/store.go:37-51 | after Set a reader sees the entry, or nothing if it is a tombstone, and other keys as before |
| `StoreObject.DeleteHides` | internal/storage/store.go:53-77 | after Delete a reader sees nothing under the key, the old value is kept out of sight, and other keys are as before |
| `StoreObject.Store.RestoreSnapshot` | internal/storage/store.go:108-119 | the contents are replaced and the version counter stays |
| `LogFold.FoldShows` | internal/node/follower.go:176-193 | a reader of a folded log sees the last entry of the key, or nothing if that is a delete or there is none |
| `StoreObject.Store.Set` | internal/storage/store.go:37-51 | the stored copy carries the next version number |
| `StoreObject.Store.Delete` | internal/storage/store.go:53-77 | a tombstone over the old value, or a new one |
| `StoreObject.Store.Get` | internal/storage/store.go:20-28 | live entries only |
| `StoreObject.Store.GetRaw` | internal/storage/store.go:30-35 | tombstones included |
| `LeaderlessFreshness.Freshness` | internal/node/leaderless.go:517-679 | with N the membership and W + R > N, a read begun after a write met its quorum settles on a version at least as new whenever it answers, and says not found exactly for a winning tombstone |
| `LeaderlessFreshness.StampsOnlyGrow` | internal/node/leaderless.go:276-291 | in every run, what a replica stores for a key never gets older |
| `LeaderlessFreshness.StepKeepsWriteInv` | internal/node/leaderless.go:177-207 | every acknowledged write is stored, or something newer, on the acknowledging replica |
| `LeaderlessFreshness.StepKeepsReadInv` | internal/node/leaderless.go:208-264 | a read hears each replica at most once |
| `LeaderlessFreshness.QuorumsMeet` | internal/node/leaderless.go:601-618 | any R answers include a holder of the write |
| `LeaderlessFreshness.NewestIsMax` | internal/node/leaderless.go:613-618 | the reconciliation loop picks a greatest version |
| `LeaderlessValidity.StoredWasWritten` | internal/node/leaderless.go:276-301 | in every run whatever a replica stores of a key is the entry of an earlier write of that key |
| `LeaderlessValidity.FoundWasWritten` | internal/node/leaderless.go:602-678 | in every run whatever a read finds is the entry of an earlier write of its key, and no tombstone |
| `LeaderlessValidity.StepKeepsSound` | internal/node/leaderless.go:169-274 | every step keeps stores, messages, hints and answers made of writes, and answers no newer than what their senders store |
| `LeaderlessDelivery.WriteReachesAll` | internal/node/leaderless.go:339-434 | from any reachable state, once what a write sent and then the acknowledgements are delivered, every member stores the entry or a newer one, every other member is counted, and the quorum is met |
| `LeaderlessDelivery.HandoffReachesAll` | internal/node/leaderless.go:143-167 | when a write ends with whatever acknowledgements and its hints are sent and delivered, every member stores the entry or a newer one |
| `LeaderlessDelivery.RepairReachesAll` | internal/node/leaderless.go:626-668 | once the repairs of a read are delivered, the reader and all who answered it store the version it settled on, or a newer one |
| `LeaderlessDelivery.ReadAnswered` | internal/node/leaderless.go:517-679 | a read that hears everyone it asked answers with the newest version among its own and theirs, or that there is none |
| `LeaderlessDelivery.AsksForR` | internal/node/leaderless.go:525-538 | a read asks for as many answers as make R with its own version, or everyone |
| `LeaderlessDelivery.HintsAre` | internal/node/leaderless.go:488-515 | a hint for every target that has not acknowledged, and for nobody else |
| `LeaderlessDelivery.StaleAre` | internal/node/leaderless.go:632-649 | a read repairs the responders that have nothing or something older, and nobody else |
| `LeaderlessNodeObject.PickNewest` | internal/node/leaderless.go:613-618 | that loop |
| `LeaderlessNodeObject.FindStale` | internal/node/leaderless.go:638-650 | the responders without the key or with an older version |
| `LeaderlessNodeObject.LeaderlessNode.ApplyWrite` | internal/node/leaderless.go:276-291 | the newer version stays, and the clock is merged |
| `LeaderlessNodeObject.LeaderlessNode.WriteQuorumMet` | internal/node/leaderless.go:916-940 | distinct acknowledgements, with the coordinator when it is a replica, against W |
| `LeaderlessNodeObject.LeaderlessNode.OtherReplicas` | internal/node/leaderless.go:349-358 | the preference list without this node |
| `LeaderlessNodeObject.LeaderlessNode.Coordinate` | internal/node/leaderless.go:339-380 | the entry applied locally under a new number, one message with it to each other replica, and none elsewhere |
| `LeaderlessNodeObject.LeaderlessNode.Write` | internal/node/leaderless.go:304-317 | a stamped entry, coordinated |
| `LeaderlessNodeObject.LeaderlessNode.Delete` | internal/node/leaderless.go:321-335 | a stamped tombstone, coordinated |
| `LeaderlessNodeObject.LeaderlessNode.CollectHints` | internal/node/leaderless.go:503-513 | one hint per target that did not acknowledge |
| `LeaderlessNodeObject.LeaderlessNode.DeliverHints` | internal/node/leaderless.go:143-167 | every hint is sent once and forgotten |
| `LeaderlessNodeObject.LeaderlessNode.ReadTargets` | internal/node/leaderless.go:695-722 | a sample of different other nodes of the asked-for size, topped up from the membership |
| `LeaderlessNodeObject.LeaderlessNode.StartRead` | internal/node/leaderless.go:517-583 | local version, number of answers to wait for, fan-out |
| `LeaderlessNodeObject.LeaderlessNode.EndRead` | internal/node/leaderless.go:596-679 | quorum check, reconciliation and reply |
| `LeaderlessNodeObject.LeaderlessNode.Repair` | internal/node/leaderless.go:629-662 | the own copy if older, then exactly the stale responders, blocking or not |
| `LeaderlessNodeObject.LeaderlessNode.HandleMessage` | internal/node/leaderless.go:169-274 | every message as the run model takes it |
| `Quorums.QuorumConfig.OverlapGuaranteed` | internal/quorum/calculator.go:110-116 | OverlapCount bounds from below what any write set and any read set share |
| `Quorums.QuorumConfig.OverlapAttained` | internal/quorum/calculator.go:110-116 | some write set and read set share no more |
| `Quorums.QuorumConfig.StrongIffAlwaysMeets` | internal/quorum/calculator.go:56-58 | W + R > N exactly when every read set meets every write set |
| `LinearizabilityChecker.CheckRegister` | internal/checker/linearizability.go:61-82 | answers true exactly when no operation completes before its invocation and one global order respects real time and every register; otherwise blames an operation of the first key, in order, that has no such order |
| `LinearizabilityChecker.Search` | internal/checker/linearizability.go:109-164 | the backtracking search over flags flipped in place answers true exactly when the remaining operations can be ordered, and restores the flags |
| `LinearizabilityChecker.LinearizeKey` | internal/checker/linearizability.go:88-179 | the same for one whole key |
| `LinearizabilityChecker.EarliestCompletion` | internal/checker/linearizability.go:119-124 | the minimum over the remaining operations |
| `LinearizabilityChecker.Partition` | internal/checker/linearizability.go:64-71 | each key gets its sub-history in order |
| `RegisterHistories.Locality` | internal/checker/linearizability.go:57-60 | all keys can be ordered one by one exactly when the whole history can be ordered at once |
| `RegisterHistories.InterleaveSchedule` | internal/checker/linearizability.go:57-60 | interleaving two real-time orders by invocation gives a real-time order |
| `RegisterHistories.IllTimedAlone` | internal/checker/linearizability.go:126-136 | an operation that completes before its invocation is refused although it is linearizable |
| `RgaProofs.OrderIsPermutation` | internal/conflict/rga.go:27-72 | with unique ids every element is placed exactly once, however cyclic or dangling the anchors are |
| `RgaProofs.OrderIgnoresStorage` | internal/conflict/rga.go:27-72 | the order depends only on the elements |
| `RgaProofs.OrderIsSubsequence` | internal/conflict/rga.go:27-72 | a replica's order is the order of a larger state without the extra elements, if no anchor it lacks is known there |
| `RgaProofs.MergeKeepsOrders` | internal/conflict/rga.go:87-110 | merging anchor-closed states keeps both orders and closure |
| `RgaProofs.MergeCommutes` | internal/conflict/rga.go:87-110 | merging commutes exactly when each shared id has one value and anchor |
| `RgaProofs.MergeAssociates` | internal/conflict/rga.go:87-110 | merging is associative on all states |
| `RgaProofs.MergeIdempotent` | internal/conflict/rga.go:87-110 | merging with itself changes at most the storage order |
| `RgaProofs.MergeDetermined` | internal/conflict/rga.go:106-108 | there is one stored form of a merge |
| `RgaObject.Walker.Walk` | internal/conflict/rga.go:43-55 | the recursive walk over the visited set terminates and emits the specified order |
| `RgaObject.RGA.Order` | internal/conflict/rga.go:27-72 | grouping, sorting, walking and appending the rest |
| `RgaReading.OrderIsByPaths` | internal/conflict/rga.go:27-72 | the order without the walk: elements with a path of anchors from the head come first, each before what was inserted below it and, below one anchor, the higher id first; the others follow, higher ids first |
| `RgaReading.TextSpelled` | internal/conflict/rga.go:76-88 | the text can be cut into pieces that are the values of the live elements in the order, and nothing for the deleted ones |
| `RgaReading.SpelledOnce` | internal/conflict/rga.go:76-88 | there is only one such text |
| `RgaReading.DeleteRemovesValue` | internal/conflict/rga.go:76-88 | deleting one element takes its value out of the text and changes nothing else |
| `RgaReading.DeletedUnseen` | internal/conflict/rga.go:79-82 | the value of a deleted element cannot be seen |
| `RgaReading.MergeFlags` | internal/conflict/rga.go:90-104 | a merged element is deleted exactly if it is deleted on either side |
| `RgaReading.MergeShows` | internal/conflict/rga.go:76-104 | in the merged text an element deleted on either side adds nothing, and any other its value, at its place |
| `RgaObject.RGA.Value` | internal/conflict/rga.go:76-88 | the values of the live elements in the order |
| `RgaObject.RGA.Merge` | internal/conflict/rga.go:90-110 | union by id with the deleted flags or-ed, sorted by id |
| `MerkleProofs.DiffIsMapDifference` | internal/antientropy/merkle.go:84-158 | for a hash without collisions on what is hashed and clean keys, Diff of two trees is the set of keys on which the maps differ, empty maps included |
| `MerkleProofs.DiffExactIffClean` | internal/antientropy/merkle.go:34-36 | Diff is exact on all maps over a set of keys and a set of values exactly when no key is empty and no leaf text of a key and a value is also that of another key and another value |
| `MerkleProofs.CleanForAnyValues` | internal/antientropy/merkle.go:34-36 | where values are arbitrary, that is: no key is empty and none continues another with an equals sign |
| `MerkleProofs.RootsDecide` | internal/antientropy/merkle.go:110-114 | equal root hashes mean equal keys and values, over clean keys |
| `MerkleProofs.ReconcileExact` | internal/antientropy/merkle.go:142-158 | comparing leaf hashes by key is comparing values, over any non-empty keys |
| `MerkleProofs.BuildDeterministic` | internal/antientropy/merkle.go:38-41 | a map has one tree |
| `MerkleProofs.EqualsHides` | internal/antientropy/merkle.go:34-36 | for every key that continues another with an equals sign there are two maps whose difference stays hidden under any hash |
| `MerkleProofs.EmptyKeyHides` | internal/antientropy/merkle.go:181-183 | no diff of any two trees reports the empty key |
| `MerkleProofs.EmptyKeyMisreports` | internal/antientropy/merkle.go:181-183 | next to an empty key, a key that did not change is reported |
| `MerkleObject.BuildTree` | internal/antientropy/merkle.go:42-62 | the balanced tree over the sorted keys |
| `MerkleObject.LevelIsShape` | internal/antientropy/merkle.go:65-79 | buildLevel splits the leaves in halves |
| `MerkleObject.Diff` | internal/antientropy/merkle.go:84-94 | the sorted list of the differing keys |
| `MerkleObject.DiffNodes` | internal/antientropy/merkle.go:104-138 | the pruning descent fills the given set |
| `MerkleObject.Reconcile` | internal/antientropy/merkle.go:142-158 | the two loops add the keys on which the leaf hashes differ |
| `MerkleObject.SameKeys` | internal/antientropy/merkle.go:163-177 | equal count and inclusion decide equal key sets |
| `MerkleObject.CollectKeys` | internal/antientropy/merkle.go:186-209 | the leaf keys below a node |
| `MerkleObject.CollectLeafHashes` | internal/antientropy/merkle.go:212-222 | the leaf hashes below a node |
| `AntiEntropyModel.RoundConverges` | internal/simulation/antientropy.go:129-144 | one undisturbed round leaves all online replicas with the same visible state exactly when the newest versions of each key showed the same |
| `AntiEntropyModel.RoundExactIff` | internal/simulation/antientropy.go:34-48 | over the encoded values of a round the trees are exact exactly when no key is empty and none is another key with an equals sign and a padded encoded value but for its last equals sign |
| `AntiEntropyModel.ReferenceFindsAll` | internal/simulation/antientropy.go:111-124 | diffing against one arbitrary replica finds every key on which any two differ |
| `AntiEntropyModel.RoundNeverDecreases` | internal/simulation/antientropy.go:129-144 | no replica loses a key or gets an older version |
| `AntiEntropyModel.TreesFindDifferences` | internal/simulation/antientropy.go:98-124 | the trees report exactly the visible differences from the reference |
| `AntiEntropyObject.MapRepr` | internal/simulation/antientropy.go:34-48 | key to encoded value or tombstone marker |
| `AntiEntropyObject.NewestEntry` | internal/simulation/antientropy.go:52-65 | a greatest version among the replicas |
| `AntiEntropyObject.RepairKey` | internal/simulation/antientropy.go:130-143 | one key is raised to its newest version on every stale replica, counted |
| `AntiEntropyObject.RunAntiEntropy` | internal/simulation/antientropy.go:93-147 | trees, divergent keys, repairs and the reported counts; the reported convergence is that of the replicas, and holds exactly when the newest versions of each key showed the same |
| `AntiEntropyObject.CheckConvergence` | internal/simulation/convergence.go:39-82 | reports exactly the keys that two online replicas show differently |
| `TwoPhaseSafety.CommittedIsSerial` | internal/twopc/twopc.go:93-107 | in every run, a participant that has received the commits decided so far holds the serial result of exactly the committed transactions |
| `TwoPhaseSafety.LocksAlwaysExact` | internal/twopc/twopc.go:62-132 | in every reachable state the lock table is the disjoint union of the staged key sets |
| `TwoPhaseSafety.LogIsCommitted` | internal/twopc/twopc.go:199-214 | a transaction takes effect exactly when its decision was to commit, and once |
| `TwoPhaseSafety.RecoveryOrderIrrelevant` | internal/twopc/twopc.go:235-255 | in-doubt transactions recovered in different orders leave the same committed state |
| `TwoPhaseSafety.StepKeepsInv` | internal/twopc/twopc.go:62-132 | every call keeps locks, staging and serial result together |
| `TwoPhaseSafety.VotesYesIff` | internal/twopc/twopc.go:62-90 | in every reachable state a participant that is up and willing votes for a transaction exactly if no other has staged one of its keys |
| `TwoPhaseProgress.UncontestedEnds` | internal/twopc/twopc.go:173-255 | from any reachable state a transaction nobody contests can run to its end, through a crash or not, and then its participants have its writes or are as they were, by its decision, and nobody else has changed |
| `TwoPhaseObjects.MemParticipant.Prepare` | internal/twopc/twopc.go:62-89 | vote, staging and locks |
| `TwoPhaseObjects.MemParticipant.Commit` | internal/twopc/twopc.go:93-107 | staged writes applied, own locks released |
| `TwoPhaseObjects.MemParticipant.Abort` | internal/twopc/twopc.go:111-124 | staged writes dropped, own locks released |
| `TwoPhaseObjects.Coordinator.Execute` | internal/twopc/twopc.go:173-215 | commits or blocks in doubt exactly when everyone would vote yes, otherwise is rolled back everywhere |
| `TwoPhaseObjects.Coordinator.Canvass` | internal/twopc/twopc.go:183-197 | the voting loop stops at the first participant that does not vote yes |
| `TwoPhaseObjects.Coordinator.Decide` | internal/twopc/twopc.go:219-233 | the decision reaches every participant |
| `TwoPhaseObjects.Coordinator.Recover` | internal/twopc/twopc.go:238-255 | so does a recovery, even to a participant listed twice |
| `TwoPhaseObjects.PrepareThenResolve` | internal/twopc/twopc.go:62-132 | under a new id, prepare and abort undoes itself, prepare and commit only applies the writes |
| `TwoPhaseObjects.RolledBackUnchanged` | internal/twopc/twopc.go:199-203 | under a new id a failed transaction leaves no trace |
| `SingleLeaderSafety.PrefixSafety` | internal/node/follower.go:110-192 | under loss, duplication and reordering, a follower's log is a prefix of the leader's, and its store is the fold of that prefix |
| `SingleLeaderStore.LeaderServesLog` | internal/node/leader.go:184-269 | in every run without a clash, the leader serves for each key with nothing left to store what its log says |
| `SingleLeaderStore.MisleadsIffClash` | internal/node/leader.go:184-323 | after any run without a clash, a step can make the leader serve something else than its log says, with everything stored, exactly when it logs a key of which an earlier, differing entry is not stored yet |
| `SingleLeaderStore.OvertakenWrite` | internal/node/leader.go:239-251 | two writes of one key, logged one way round and stored the other, leave the leader serving the one and its log saying the other |
| `SingleLeaderStore.CaughtUpServesLog` | internal/node/follower.go:110-192 | in every run a follower that has applied everything serves what the leader's log says |
| `SingleLeaderStore.StepKeepsStore` | internal/node/leader.go:184-323 | every step that does not clash keeps what waits to be stored last of its key in the log, and the rest of the store what the log says |
| `SingleLeaderStore.SerialLeader` | internal/node/leader.go:184-269 | in every run in which nothing is logged before the last entry is stored, the leader's readers see the fold of its log, version numbers included |
| `SingleLeaderStore.LogIsWhatWasAsked` | internal/node/leader.go:174-333 | in every run the leader's log is what its writes, deletes and batches asked for, in their order, numbered |
| `SingleLeaderStore.WriteReaches` | internal/node/leader.go:239-269 | from any reachable state, the message of a write or batch that runs alone brings every follower that had everything up to the new log |
| `SingleLeaderStore.HeardWithinLog` | internal/node/follower.go:129-131 | in every run no follower believes the leader to be ahead of where it is |
| `SingleLeaderSafety.CatchUpInRun` | internal/node/leader.go:155-168 | once a resend from at most applied + 1 arrives, the follower has everything the leader had when it was sent |
| `SingleLeaderBatches.BatchesApplyWhole` | internal/node/leader.go:174-213 | in every run in which nothing disturbs a batch between its first append and its send, deliveries falling anywhere, a follower stands only where the leader stood between batches |
| `SingleLeaderBatches.SplitsIffDisturbs` | internal/node/leader.go:155-205 | after any undisturbed run that ends inside a batch, a leader step can leave a given follower inside it exactly when it logs something else or resends from at most the batch's first index |
| `SingleLeaderBatches.StepKeepsBatches` | internal/node/leader.go:155-333 | every step that does not disturb a batch keeps followers and messages whole |
| `SingleLeaderBatches.BatchIsOneStep` | internal/node/leader.go:184-205 | undisturbed, the appends, the stores and the send of a batch are one step |
| `SingleLeaderBatches.ResendSplits` | internal/node/leader.go:155-168 | a resend that includes the batch's first entry can leave any follower inside the batch |
| `SingleLeaderBatches.AppendSplits` | internal/node/leader.go:184-205 | anything else logged inside a batch, another batch included, can leave any follower inside it |
| `SingleLeaderSafety.StepKeepsInv` | internal/node/leader.go:155-333 | every step keeps messages and followers consistent with the leader's log |
| `SingleLeaderNodes.FollowerNode.ApplyEntries` | internal/node/follower.go:110-150 | buffering, the contiguous apply loop, and the request for a gap |
| `SingleLeaderNodes.FollowerNode.ApplyOne` | internal/node/follower.go:175-192 | one entry to log and store |
| `SingleLeaderNodes.FollowerNode.Stash` | internal/node/follower.go:112-117 | entries above the applied index wait by index |
| `SingleLeaderNodes.SingleLeaderNode.Write` | internal/node/leader.go:215-269 | stamped, logged, applied and sent: the log ends with the pair given, and a reader sees the value |
| `SingleLeaderNodes.SingleLeaderNode.Delete` | internal/node/leader.go:290-323 | the log ends with the delete and a reader finds nothing; the old value stays under the local tombstone |
| `SingleLeaderNodes.SingleLeaderNode.WriteBatch` | internal/node/leader.go:174-205 | one entry per pair, one message, empty batches refused |
| `SingleLeaderNodes.SingleLeaderNode.HandleSync` | internal/node/leader.go:155-168 | everything from the asked-for index, or nothing |
| `MvccProofs.CompactionUnobservable` | internal/mvcc/mvcc.go:110-138 | after any history of in-order or out-of-order commits and compactions, reads at or above the boundaries answer as without compaction |
| `MvccProofs.CompactKeepsReads` | internal/mvcc/mvcc.go:114-138 | compaction keeps every snapshot at or after its boundary |
| `MvccProofs.CompactKeepsNew` | internal/mvcc/mvcc.go:110-113 | compaction keeps every version from the boundary on and the one visible at it |
| `MvccProofs.SnapshotStable` | internal/mvcc/mvcc.go:66-70 | a commit at t never changes a read below t |
| `MvccProofs.CommitVisible` | internal/mvcc/mvcc.go:48-64 | a commit is seen at its own timestamp exactly when it goes to the end or that timestamp is new |
| `MvccProofs.InsertRead` | internal/mvcc/mvcc.go:48-64 | the read after a commit in terms of the read before it |
| `MvccProofs.ReadAnswers` | internal/mvcc/mvcc.go:71-91 | after any history of commits in or out of order and compactions, a read above the boundaries answers with the newest commit at or before its time, and with nothing if that is a delete or there is none |
| `MvccProofs.CompactDrops` | internal/mvcc/mvcc.go:114-138 | of the versions before the boundary at most one is left |
| `MvccObject.Store.Search` | internal/mvcc/mvcc.go:59-59 | the binary search finds the first position of the sorted chain |
| `MvccObject.Store.Append` | internal/mvcc/mvcc.go:48-64 | fast path or insertion, the chain stays sorted |
| `MvccObject.Store.ReadAt` | internal/mvcc/mvcc.go:71-91 | the binary search answers the last version at or before ts, tombstones as not found |
| `MvccObject.Store.Latest` | internal/mvcc/mvcc.go:96-108 | a read at the highest timestamp |
| `MvccObject.Store.Compact` | internal/mvcc/mvcc.go:114-138 | everything before the version visible at the boundary is dropped |
| `RingProofs.ListLength` | internal/hashring/ring.go:100-139 | a preference list has min(n, nodes) different nodes, and all of them for large n |
| `RingProofs.ListPrefix` | internal/hashring/ring.go:100-139 | a shorter list is a prefix of a longer one |
| `RingProofs.RemoveDeletesNode` | internal/hashring/ring.go:69-85 | removing a node deletes it from every walk and changes nothing else |
| `RingProofs.AddInsertsNode` | internal/hashring/ring.go:49-65 | where no two nodes share a position, adding a node only inserts it into every walk, whichever sorted order results |
| `RingProofs.AddThenRemove` | internal/hashring/ring.go:49-85 | where no two nodes share a position, adding and removing a node gives the ring back |
| `RingProofs.AddStableIff` | internal/hashring/ring.go:49-85 | adding a node only inserts it, and removing it gives the ring back, for all sorted orders exactly when no two nodes of the ring share a position |
| `RingProofs.SharedPositionMoves` | internal/hashring/ring.go:62-64 | on any ring where two nodes share a position some sorted order changes the walk from there |
| `RingProofs.WalkByDistance` | internal/hashring/ring.go:103-139 | the walk lists the nodes by distance: each has a token no farther clockwise from the key than any of a later one |
| `RingProofs.VnodesAre` | internal/hashring/ring.go:58-61 | the tokens of a node stand where the hash puts its virtual nodes |
| `RingObject.Ring.Add` | internal/hashring/ring.go:49-65 | the new tokens are in, the slice is sorted, a known node changes nothing |
| `RingObject.Ring.Remove` | internal/hashring/ring.go:69-85 | exactly the node's tokens go |
| `RingObject.Ring.FindStart` | internal/hashring/ring.go:118-120 | the binary search for the first token at or after the hash |
| `RingObject.Ring.PreferenceList` | internal/hashring/ring.go:103-139 | the capped walk is a prefix of the full walk |
| `RingObject.Ring.Walk` | internal/hashring/ring.go:125-138 | the wrapping loop with its seen set |
| `SwimProofs.MembersOnlyClimb` | internal/swim/swim.go:122-280 | in every run another member only climbs: Dead on top, otherwise incarnation, then Suspect over Alive |
| `SwimProofs.SelfOutlivesClaims` | internal/swim/swim.go:298-316 | the node's incarnation stays above every failure claim ever merged about it, and it stays alive unless told directly that it is dead |
| `SwimProofs.MergeIdempotent` | internal/swim/swim.go:251-280 | merging a batch twice is merging it once |
| `SwimProofs.MergeOrderIrrelevant` | internal/swim/swim.go:251-293 | unless a Dead claim that would be taken over is outbid, or a revival depends on the order, the same claims in any order and number give the same states and incarnations |
| `SwimProofs.OrderIrrelevantIff` | internal/swim/swim.go:251-293 | in any view, order, and order with repetition, do not matter exactly when no Dead claim that would be taken over is outbid by another about the same member, and a node not alive in its own view is revived in every order or in none |
| `SwimProofs.DeadOrderMatters` | internal/swim/swim.go:267-270 | a Dead claim that is outbid decides when it comes first and not when the other does, in any view and batch |
| `SwimSuspicion.Origin` | internal/swim/swim.go:122-282 | in every run, what a view says of another member was said by one step and holds since: a call with these very values, a claim of a peer, or a tick |
| `SwimSuspicion.SuspectSince` | internal/swim/swim.go:159-191 | a suspect has been under suspicion at its incarnation since a call, timed by it, or since a claim of a peer, untimed |
| `SwimSuspicion.DeadByCause` | internal/swim/swim.go:210-282 | in every run, a dead member became so by a direct call, by a Dead claim of a peer, or by a tick whose deadline lies after the beginning of the suspicion it was under |
| `SwimSuspicion.DiesIff` | internal/swim/swim.go:210-282 | from any view, exactly a direct call, a tick past the suspicion, or a Dead claim that wins at its turn takes another member for dead |
| `SwimSuspicion.SuspectTakes` | internal/swim/swim.go:159-191 | a suspicion of an unknown member, or of one that is not dead and no higher, leaves it suspect at that incarnation, timed by the first call |
| `SwimSuspicion.SuspicionLasts` | internal/swim/swim.go:179-191 | in every run a suspicion stays timed by its first call, whatever calls repeat it, until something else is heard |
| `SwimSuspicion.RefutedOrRunOut` | internal/swim/swim.go:122-152 | after a suspicion and nothing else heard, word that the member lives clears it exactly if its incarnation is higher, and a tick kills exactly if its deadline is past the first call |
| `SwimSuspicion.AliveTakes` | internal/swim/swim.go:122-152 | exactly when word that a member lives is taken |
| `SwimSuspicion.SelfRefutes` | internal/swim/swim.go:163-166 | a suspicion of the node itself makes it live on at a higher incarnation |
| `SwimSuspicion.GossipSuspicionUntimed` | internal/swim/swim.go:272-278 | a suspicion heard from a peer gets no time by a direct call at the same incarnation, and the next tick kills the member exactly if its deadline is positive |
| `SwimObject.Membership.Alive` | internal/swim/swim.go:122-151 | stale and equal-incarnation claims do not clear a suspicion, Dead is terminal |
| `SwimObject.Membership.Suspect` | internal/swim/swim.go:159-191 | an unknown member, or one alive and no higher, is suspect from now on; the first suspicion time is kept, self refutes |
| `SwimObject.Membership.RefuteSuspicion` | internal/swim/swim.go:201-206 | own incarnation plus one |
| `SwimObject.Membership.Dead` | internal/swim/swim.go:210-221 | the incarnation is left alone |
| `SwimObject.Membership.TickSuspicions` | internal/swim/swim.go:230-244 | exactly the expired suspicions become Dead and are reported in order |
| `SwimObject.Membership.Merge` | internal/swim/swim.go:251-280 | the gossip loop |
| `SwimObject.Membership.MergeSelf` | internal/swim/swim.go:298-316 | claims about self are outbid |
| `SwimObject.Membership.GossipWins` | internal/swim/swim.go:284-293 | the three-way comparison is the incarnation order with precedence |

## Left out

- RaftCommitExact.AgreesIffFits: runs with compaction are excluded on both sides, as for log matching.
- RaftCommit.StateMachineSafety: runs with compaction are excluded, as for log matching.
- RaftStores.MachineIsFold: runs with compaction are excluded, as for log matching; a snapshot is the leader's live store, which may be ahead of the boundary it is sent with.
- Serialization of snapshots, which is taken to lose nothing.
- Non-atomic parts of handlers: Raft's `sendAppend` drops its lock between reading the term and the log, and Raft's apply loop runs outside the lock; both are one step here.
- LogMatching: runs with compaction are excluded, because a compacted log no longer holds the entries the statement is about.
- `TruncateFrom` on the replication log, which nothing calls.
- Region-aware quorum levels, sloppy quorums, digest reads and preference lists shorter than the membership: with N equal to the membership there are no stand-ins, and the freshness statement is about that case.
- LeaderlessNodeObject.LeaderlessNode.HandleMessage: models full reads and no stand-ins: digest replies are a repair mode of their own, and hints for stand-ins need a preference list shorter than the membership.
- LeaderlessNodeObject.LeaderlessNode.WriteQuorumMet: models only the plain quorum level, because the region-aware levels are outside the freshness statement.
- That messages arrive: what follows once they do is stated (`WriteReachesAll`, `HandoffReachesAll`, `RepairReachesAll`, `ReadAnswered`, `GossipConverges`, `WriteReaches`).
- Read-repair messages to single-leader followers, which nothing sends to them; acknowledgement collection and replication modes of the leader; lag metrics.
- Single writes and deletes of the leader are offered as one step as well; one whose append, store and send come apart is a batch of one entry.
- SingleLeaderStore.LeaderServesLog: compares what a reader sees but for the version numbers, which count the writes of each store; they are compared in SingleLeaderStore.SerialLeader.
- Manual conflict resolution and the pluggable resolvers other than last-write-wins.
- PaxosObjects.MultiPaxos.Decide: a fresh proposer per call always starts at round one, so whether a later call succeeds depends on its id; no progress is stated beyond that.
- LinearizabilityChecker.LinearizeKey: which of several culprits is blamed is not determined beyond belonging to the failing key, because it depends on the search order.
- RegisterHistories.IllTimedAlone: stated for a write; the two sides agree on all well-timed histories.
- TwoPhaseSafety.RecoveryOrderIrrelevant: asks for the same history before the crash and the same decisions, as the source does.
- TwoPhaseObjects.Coordinator.Execute: which error is returned when several participants fail is left open, because the source ranges over a map.
- SwimModel states outside Alive, Suspect and Dead, which no gossip snapshot contains.
- SwimProofs.OrderIrrelevantIff: compares states and incarnations, not the local suspicion clocks, which gossip does not carry.
- Aliasing of byte slices and vector clocks: stored values are immutable here, as the source's copies make them.
- Phi-accrual failure detection, stale-read probability, latency statistics, counters, OR-sets, LWW maps, the write-ahead log, session guarantees, the event bus, the gateway, persistence, configuration and the user interface.
