/** The Raft node as the object it is: every handler updates the node as RaftModel's step says. */
module RaftNodeObject {
  import opened Storage
  import opened StoreObject
  import opened LogFold
  import M = RaftModel
  import L = LogModel
  import opened ReplicationLogObject

  class RaftNode {
    const id: NodeId
    const peers: seq<NodeId>
    const log: ReplicationLog
    const store: Store
    var currentTerm: nat
    var votedFor: NodeId
    var role: M.Role
    var raftLeader: NodeId
    var votes: nat
    var nextIndex: map<NodeId, nat>
    var matchIndex: map<NodeId, nat>
    var applied: nat

    ghost predicate Valid()
      reads this, log
    {
      log.Valid()
    }

    ghost function State(): M.Node
      requires Valid()
      reads this, log, store
    {
      M.Node(currentTerm, votedFor, role, raftLeader, votes, nextIndex, matchIndex, log.State(), applied,
             M.Machine(store.data, store.version))
    }

    constructor (id: NodeId, peers: seq<NodeId>)
      ensures Valid() && fresh(log) && fresh(store) && this.id == id && this.peers == peers
      ensures State() == M.NEW_NODE
    {
      this.id, this.peers := id, peers;
      log := new ReplicationLog();
      store := new Store();
      currentTerm, votedFor, role, raftLeader, votes := 0, NOBODY, M.Follower, NOBODY, 0;
      nextIndex, matchIndex, applied := map[], map[], 0;
    }

    method StepDown(newTerm: nat)
      requires Valid()
      modifies this
      ensures Valid() && State() == M.StepDown(old(State()), newTerm)
    {
      currentTerm, role, votedFor, raftLeader := newTerm, M.Follower, NOBODY, NOBODY;
    }

    /** maybeElect when the election timeout has passed. */
    method Elect() returns (out: seq<M.Message>)
      requires Valid()
      modifies this
      ensures Valid() && State() == M.Elect(id, peers, old(State())).node
      ensures out == M.Elect(id, peers, old(State())).out
    {
      out := [];
      if role == M.Leader {
        return;
      }
      currentTerm := currentTerm + 1;
      role, votedFor, votes, raftLeader := M.Candidate, id, 1, NOBODY;
      var last := L.LastIndexTerm(log.State());
      for i := 0 to |peers|
        invariant Valid() && State() == M.Elect(id, peers, old(State())).node
        invariant out == M.Requests(id, peers, currentTerm, last)[..i]
      {
        out := out + [M.VoteRequest(id, peers[i], currentTerm, last.0, last.1)];
      }
    }

    method HandleVoteRequest(m: M.Message) returns (out: seq<M.Message>)
      requires Valid() && m.VoteRequest?
      modifies this
      ensures Valid() && State() == M.HandleVoteRequest(id, old(State()), m).node
      ensures out == M.HandleVoteRequest(id, old(State()), m).out
    {
      if m.term > currentTerm {
        StepDown(m.term);
      }
      var grant := false;
      if m.term == currentTerm && (votedFor == NOBODY || votedFor == m.src) {
        var mine := L.LastIndexTerm(log.State());
        if m.lastLogTerm > mine.1 || (m.lastLogTerm == mine.1 && m.lastLogIndex >= mine.0) {
          grant := true;
          votedFor := m.src;
        }
      }
      out := [M.VoteResponse(id, m.src, currentTerm, grant)];
    }

    method BecomeLeader()
      requires Valid()
      modifies this
      ensures Valid() && State() == M.BecomeLeader(id, peers, old(State()))
    {
      role, raftLeader := M.Leader, id;
      for i := 0 to |peers|
        invariant role == M.Leader && raftLeader == id
        invariant currentTerm == old(currentTerm) && votedFor == old(votedFor) && votes == old(votes)
          && applied == old(applied)
        invariant nextIndex == M.SetAll(old(nextIndex), peers[..i], log.nextIndex)
        invariant matchIndex == M.SetAll(old(matchIndex), peers[..i], 0)
      {
        assert peers[..i + 1][..i] == peers[..i];
        nextIndex := nextIndex[peers[i] := log.nextIndex];
        matchIndex := matchIndex[peers[i] := 0];
      }
      assert peers[..|peers|] == peers;
    }

    method HandleVoteResponse(m: M.Message)
      requires Valid() && m.VoteResponse?
      modifies this
      ensures Valid() && State() == M.HandleVoteResponse(id, peers, old(State()), m).node
    {
      if m.term > currentTerm {
        StepDown(m.term);
        return;
      }
      if role != M.Candidate || m.term != currentTerm {
        return;
      }
      if m.voteGranted {
        votes := votes + 1;
        if votes >= M.Majority(peers) {
          BecomeLeader();
        }
      }
    }

    method ApplyCommitted(upto: nat)
      requires Valid()
      modifies this`applied, store
      ensures Valid() && State() == M.CommitTo(old(State()), log.State(), upto)
    {
      while applied < upto
        modifies this`applied, store
        invariant Valid()
        invariant M.CommitTo(State(), log.State(), upto) == M.CommitTo(old(State()), log.State(), upto)
      {
        var e := L.Get(log.State(), applied + 1);
        if e.None? {
          break;
        }
        var kv := KVEntry(e.value.key, e.value.value, e.value.vclock, e.value.timestamp, e.value.originId, false,
                          e.value.index);
        if e.value.op == OpDelete {
          kv := kv.(tombstone := true);
        }
        store.Set(kv);
        applied := applied + 1;
      }
    }

    method HandleAppendEntries(m: M.Message) returns (out: seq<M.Message>)
      requires Valid() && m.AppendEntries?
      modifies this, log, store
      ensures Valid() && State() == M.HandleAppendEntries(id, old(State()), m).node
      ensures out == M.HandleAppendEntries(id, old(State()), m).out
    {
      if m.term < currentTerm {
        return [M.AppendAck(id, m.src, currentTerm, false, 0)];
      }
      if m.term > currentTerm {
        StepDown(m.term);
      }
      role, raftLeader := M.Follower, m.src;
      if !L.Matches(log.State(), m.prevLogIndex, m.prevLogTerm) {
        return [M.AppendAck(id, m.src, currentTerm, false, log.nextIndex)];
      }
      var last := log.AppendAfter(m.prevLogIndex, m.entries);
      if m.leaderCommit > log.commitIndex {
        var commit := m.leaderCommit;
        if last < commit {
          commit := last;
        }
        log.SetCommitIndex(commit);
        ApplyCommitted(commit);
      }
      out := [M.AppendAck(id, m.src, currentTerm, true, last)];
    }

    /** How many nodes are believed to hold index N, counted over the peers. */
    method CountReplicas(N: nat) returns (count: nat)
      ensures count == M.Replicated(matchIndex, peers, N)
    {
      count := 1;
      for i := 0 to |peers|
        invariant count == M.Replicated(matchIndex, peers[..i], N)
      {
        assert peers[..i + 1][..i] == peers[..i];
        if M.Lookup(matchIndex, peers[i]) >= N {
          count := count + 1;
        }
      }
      assert peers[..|peers|] == peers;
    }

    method AdvanceCommit()
      requires Valid()
      modifies this`applied, log`commitIndex, store
      ensures Valid() && State() == M.AdvanceCommit(peers, old(State()))
      ensures log.commitIndex != old(log.commitIndex) ==> M.Committable(peers, old(State()), log.commitIndex)
      ensures forall k :: log.commitIndex < k < log.nextIndex ==> !M.Committable(peers, old(State()), k)
    {
      ghost var before := State();
      M.CandidateIsGreatest(peers, before, log.nextIndex - 1);
      var N: nat := log.nextIndex - 1;
      while N > log.commitIndex
        invariant Valid() && State() == before && before.log.nextIndex >= 1
        invariant M.CommitCandidate(peers, before, N) == M.CommitCandidate(peers, before, before.log.nextIndex - 1)
      {
        if L.TermAt(log.State(), N) == currentTerm {
          var count := CountReplicas(N);
          if count >= M.Majority(peers) {
            log.SetCommitIndex(N);
            ApplyCommitted(N);
            return;
          }
        }
        N := N - 1;
      }
    }

    method HandleAppendAck(m: M.Message)
      requires Valid() && m.AppendAck?
      modifies this, log`commitIndex, store
      ensures Valid() && State() == M.HandleAppendAck(peers, old(State()), m).node
    {
      if m.term > currentTerm {
        StepDown(m.term);
        return;
      }
      if role != M.Leader {
        return;
      }
      if m.success {
        matchIndex := matchIndex[m.src := m.conflictIndex];
        nextIndex := nextIndex[m.src := m.conflictIndex + 1];
        AdvanceCommit();
      } else if M.Lookup(nextIndex, m.src) > 1 {
        nextIndex := nextIndex[m.src := M.Lookup(nextIndex, m.src) - 1];
      }
    }

    method HandleInstallSnap(m: M.Message) returns (out: seq<M.Message>)
      requires Valid() && m.InstallSnap?
      modifies this, log, store
      ensures Valid() && State() == M.HandleInstallSnap(id, old(State()), m).node
      ensures out == M.HandleInstallSnap(id, old(State()), m).out
    {
      if m.term < currentTerm {
        return [M.AppendAck(id, m.src, currentTerm, false, 0)];
      }
      if m.term > currentTerm {
        StepDown(m.term);
      }
      role, raftLeader := M.Follower, m.src;
      if m.snapIndex > log.snapshotIndex {
        store.RestoreSnapshot(m.snapshot);
        log.InstallSnapshot(m.snapIndex, m.snapTerm);
        if applied < m.snapIndex {
          applied := m.snapIndex;
        }
      }
      out := [M.AppendAck(id, m.src, currentTerm, true, log.nextIndex - 1)];
    }

    /** The entries the peer is believed to lack, or a snapshot when they are compacted away. */
    method SendAppend(peer: NodeId) returns (out: seq<M.Message>)
      requires Valid()
      ensures out == M.SendAppend(id, State(), peer)
    {
      if role != M.Leader {
        return [];
      }
      var ni := M.Lookup(nextIndex, peer);
      if ni == 0 {
        ni := 1;
      }
      var prevIndex := ni - 1;
      if prevIndex < log.snapshotIndex {
        return [M.InstallSnap(id, peer, currentTerm, log.snapshotIndex, log.snapshotTerm, store.data)];
      }
      var prevTerm := L.TermAt(log.State(), prevIndex);
      var entries := L.GetFrom(log.State(), ni);
      return [M.AppendEntries(id, peer, currentTerm, prevIndex, prevTerm, entries, log.commitIndex)];
    }

    /** The append in proposeAndWait; the index, or nothing when the node is not the leader. */
    method Propose(key: string, value: Value, op: OpType, ts: int) returns (index: Option<nat>)
      requires Valid()
      modifies this`matchIndex, log
      ensures Valid() && State() == M.Propose(id, old(State()), key, value, op, ts)
      ensures index == if role == M.Leader then Some(old(log.nextIndex)) else None
      ensures role != M.Leader ==> log.entries == old(log.entries)
      ensures role == M.Leader ==>
        && |log.entries| == |old(log.entries)| + 1 && log.entries[..|old(log.entries)|] == old(log.entries)
        && var e := log.entries[|old(log.entries)|];
        && e.index == old(log.nextIndex) && e.term == currentTerm && e.originId == id
        && e.key == key && e.value == value && e.op == op && e.timestamp == ts
    {
      if role != M.Leader {
        return None;
      }
      var idx := log.Append(LogEntry(0, currentTerm, key, value, op, ts, id, map[]));
      matchIndex := matchIndex[id := idx];
      index := Some(idx);
    }

    method MaybeCompact()
      requires Valid()
      modifies log
      ensures Valid() && State() == M.MaybeCompact(old(State()))
    {
      if applied <= log.snapshotIndex || applied - log.snapshotIndex <= M.COMPACT_THRESHOLD {
        return;
      }
      var term := L.TermAt(log.State(), applied);
      if term == 0 {
        return;
      }
      log.Compact(applied, term);
    }
  }
}
