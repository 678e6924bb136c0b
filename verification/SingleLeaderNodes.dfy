/** Leader and follower as the source's objects: their methods move them as SingleLeaderModel says. */
module SingleLeaderNodes {
  import opened Storage
  import opened StoreObject
  import opened HlcObject
  import opened ReplicationLogObject
  import H = HlcModel
  import L = LogModel
  import M = SingleLeaderModel

  /** A log that is never compacted and is committed as far as it goes. */
  ghost predicate Plain(log: L.Log)
  {
    log.snapshotIndex == 0 && log.commitIndex == |log.entries| && L.WellFormed(log)
  }

  class FollowerNode {
    const id: NodeId
    const log: ReplicationLog
    const store: Store
    const hlc: HLC
    var applied: nat
    var pending: map<nat, LogEntry>
    var leaderIndex: nat

    ghost predicate Valid()
      reads this, log, store, hlc
    {
      && Plain(log.State()) && |log.entries| == applied == store.version
      && store.Valid() && hlc.Valid()
      && forall i :: i in pending ==> pending[i].index == i
    }

    ghost function State(): M.Follower
      reads this, log, store
    {
      M.Follower(applied, pending, leaderIndex, log.entries, store.data)
    }

    constructor (id: NodeId)
      ensures Valid() && State() == M.NEW_FOLLOWER && fresh(log) && fresh(store) && fresh(hlc)
    {
      this.id := id;
      log := new ReplicationLog();
      store := new Store();
      hlc := new HLC();
      applied, pending, leaderIndex := 0, map[], 0;
    }

    /** applyOne, and the bookkeeping around it. */
    method ApplyOne(unixNano: int)
      requires Valid() && applied + 1 in pending
      modifies this`applied, this`pending, log, store, hlc`lastPhysical, hlc`logical
      ensures Valid() && State() == M.ApplyOne(old(State()))
    {
      var next := applied + 1;
      var entry := pending[next];
      var _ := hlc.Update(entry.timestamp, unixNano);
      var _ := log.Append(entry);
      var kv := KVEntry(entry.key, entry.value, entry.vclock, entry.timestamp, entry.originId, false, entry.index);
      if entry.op == OpDelete {
        kv := kv.(tombstone := true);
      }
      store.Set(kv);
      log.SetCommitIndex(entry.index);
      pending := pending - {next};
      applied := next;
    }

    /** Entries above the applied index wait in pending. */
    method Stash(entries: seq<LogEntry>)
      requires Valid()
      modifies `pending
      ensures Valid() && pending == M.Buffer(applied, old(pending), entries)
    {
      for i := 0 to |entries|
        invariant Valid() && pending == M.Buffer(applied, old(pending), entries[..i])
      {
        assert entries[..i + 1][..i] == entries[..i];
        if entries[i].index <= applied {
          continue;
        }
        pending := pending[entries[i].index := entries[i]];
      }
      assert entries[..|entries|] == entries;
    }

    /** applyEntries; a gap makes the follower ask for everything from its next index. */
    method ApplyEntries(m: M.Message, unixNano: int) returns (syncFrom: Option<nat>)
      requires Valid()
      modifies this, log, store, hlc`lastPhysical, hlc`logical
      ensures Valid() && State() == M.ApplyEntries(old(State()), m)
      ensures syncFrom == if pending == map[] then None else Some(applied + 1)
    {
      Stash(m.entries);
      ghost var goal := M.CatchUp(State());
      while applied + 1 in pending
        modifies this`applied, this`pending, log, store, hlc`lastPhysical, hlc`logical
        invariant Valid() && M.CatchUp(State()) == goal
        decreases |pending|
      {
        ApplyOne(unixNano);
      }
      if m.ackIndex > leaderIndex {
        leaderIndex := m.ackIndex;
      }
      syncFrom := if |pending| > 0 then Some(applied + 1) else None;
    }
  }

  class SingleLeaderNode {
    const id: NodeId
    const log: ReplicationLog
    const store: Store
    const hlc: HLC
    var clock: nat
    var seqNo: nat

    ghost predicate Valid()
      reads this, log, store, hlc
    {
      Plain(log.State()) && |log.entries| == store.version && store.Valid() && hlc.Valid()
    }

    ghost function State(): M.Leader
      reads this, log, store
    {
      M.Leader(log.entries, store.data, store.version)
    }

    constructor (id: NodeId)
      ensures Valid() && State() == M.Leader([], map[], 0) && fresh(log) && fresh(store) && fresh(hlc)
        && clock == seqNo == 0 && this.id == id
    {
      this.id := id;
      log := new ReplicationLog();
      store := new Store();
      hlc := new HLC();
      clock, seqNo := 0, 0;
    }

    /** The entry a write makes: a new stamp, and a clock that counts the leader's writes. */
    ghost function Made(key: string, value: Value, op: OpType, unixNano: int): LogEntry
      reads this, hlc
    {
      LogEntry(0, 0, key, value, op, H.Tick(hlc.Last(), H.Wall(unixNano, hlc.skewNanos)), id, map[id := clock + 1])
    }

    /** One entry of Write, WriteBatch or Delete: stamp it, log it, apply it. */
    method Log(key: string, value: Value, op: OpType, unixNano: int) returns (entry: LogEntry)
      requires Valid()
      modifies this`clock, log, store, hlc`lastPhysical, hlc`logical
      ensures Valid() && State() == M.Append(old(State()), old(Made(key, value, op, unixNano)))
      ensures entry == M.Indexed(old(State()), old(Made(key, value, op, unixNano)))
      ensures clock == old(clock) + 1 && hlc.Last() == H.Tick(old(hlc.Last()), H.Wall(unixNano, hlc.skewNanos))
    {
      var ts := hlc.Now(unixNano);
      clock := clock + 1;
      var vc := map[id := clock];
      entry := LogEntry(0, 0, key, value, op, ts, id, vc);
      var idx := log.Append(entry);
      entry := entry.(index := idx);
      log.SetCommitIndex(idx);
      if op == OpDelete {
        store.Delete(key, id, ts, vc);
      } else {
        store.Set(KVEntry(key, value, vc, ts, id, false, idx));
      }
    }

    method Write(key: string, value: Value, unixNano: int) returns (m: M.Message)
      requires Valid()
      modifies this, log, store, hlc`lastPhysical, hlc`logical
      ensures Valid() && State() == M.Append(old(State()), old(Made(key, value, OpSet, unixNano)))
      ensures m == M.Message([M.Indexed(old(State()), old(Made(key, value, OpSet, unixNano)))], |log.entries|)
      ensures |log.entries| == |old(log.entries)| + 1 && log.entries[..|old(log.entries)|] == old(log.entries)
      ensures var e := log.entries[|old(log.entries)|];
        e.key == key && e.value == value && e.op == OpSet && e.originId == id && m.entries == [e]
      ensures Visible(store.data, key).Some? && Visible(store.data, key).value.value == value
      ensures forall k :: k != key ==> Visible(store.data, k) == old(Visible(store.data, k))
      ensures clock == old(clock) + 1 && seqNo == old(seqNo) + 1
    {
      var entry := Log(key, value, OpSet, unixNano);
      seqNo := seqNo + 1;
      m := M.Message([entry], entry.index);
    }

    method Delete(key: string, unixNano: int) returns (m: M.Message)
      requires Valid()
      modifies this, log, store, hlc`lastPhysical, hlc`logical
      ensures Valid() && State() == M.Append(old(State()), old(Made(key, None, OpDelete, unixNano)))
      ensures m == M.Message([M.Indexed(old(State()), old(Made(key, None, OpDelete, unixNano)))], |log.entries|)
      ensures |log.entries| == |old(log.entries)| + 1 && log.entries[..|old(log.entries)|] == old(log.entries)
      ensures var e := log.entries[|old(log.entries)|];
        e.key == key && e.op == OpDelete && e.originId == id && m.entries == [e]
      ensures Visible(store.data, key).None?
      ensures forall k :: k != key ==> Visible(store.data, k) == old(Visible(store.data, k))
      ensures clock == old(clock) + 1 && seqNo == old(seqNo) + 1
    {
      var entry := Log(key, None, OpDelete, unixNano);
      seqNo := seqNo + 1;
      m := M.Message([entry], entry.index);
    }

    /** An entry of a batch: its pair, and the leader's count of writes. */
    ghost predicate MadeFrom(e: LogEntry, pair: (string, Value), count: nat)
    {
      e.key == pair.0 && e.value == pair.1 && e.op == OpSet && e.originId == id && e.vclock == map[id := count]
    }

    /** WriteBatch run alone; an empty batch is refused. Clock readings differ from pair to pair. */
    method WriteBatch(pairs: seq<(string, Value)>, unixNanos: seq<int>)
        returns (m: Option<M.Message>, ghost made: seq<LogEntry>)
      requires Valid() && |unixNanos| == |pairs|
      modifies this, log, store, hlc`lastPhysical, hlc`logical
      ensures Valid() && State() == M.AppendAll(old(State()), made)
      ensures |made| == |pairs| && clock == old(clock) + |pairs|
      ensures forall i :: 0 <= i < |pairs| ==> MadeFrom(made[i], pairs[i], old(clock) + i + 1)
      ensures pairs == [] ==> m.None? && seqNo == old(seqNo)
      ensures pairs != [] ==>
        m == Some(M.Message(M.From(log.entries, |old(log.entries)| + 1), |log.entries|)) && seqNo == old(seqNo) + 1
    {
      hide M.ApplyLocally, H.Tick, H.Wall, Filed;
      made := [];
      if |pairs| == 0 {
        return None, made;
      }
      var entries: seq<LogEntry> := [];
      ghost var n := |log.entries|;
      for i := 0 to |pairs|
        invariant Valid() && seqNo == old(seqNo) && |made| == i && clock == old(clock) + i
        invariant State() == M.AppendAll(old(State()), made) && |log.entries| == n + i && entries == log.entries[n..]
        invariant forall j :: 0 <= j < i ==> MadeFrom(made[j], pairs[j], old(clock) + j + 1)
      {
        ghost var e := Made(pairs[i].0, pairs[i].1, OpSet, unixNanos[i]);
        var entry := Log(pairs[i].0, pairs[i].1, OpSet, unixNanos[i]);
        entries := entries + [entry];
        assert (made + [e])[..i] == made;
        made := made + [e];
      }
      seqNo := seqNo + 1;
      assert entries[|entries| - 1] == log.entries[|log.entries| - 1];
      m := Some(M.Message(entries, entries[|entries| - 1].index));
    }

    /** The answer to a catch-up request: everything from the asked-for index, or nothing. */
    method HandleSync(from: nat) returns (m: Option<M.Message>)
      requires Valid()
      ensures M.From(log.entries, from) == [] ==> m.None?
      ensures M.From(log.entries, from) != [] ==> m == Some(M.Message(M.From(log.entries, from), |log.entries|))
    {
      var entries := L.GetFrom(log.State(), from);
      if |entries| == 0 {
        return None;
      }
      return Some(M.Message(entries, log.nextIndex - 1));
    }
  }
}
