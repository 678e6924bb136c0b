/** Participants and coordinator as the source's objects. */
module TwoPhaseObjects {
  import M = TwoPhaseModel

  type TxId = M.TxId
  type Writes = M.Writes

  class MemParticipant {
    var voteNo: bool
    var down: bool
    var committed: Writes
    var staged: map<TxId, Writes>
    var locked: map<string, TxId>

    ghost function Value(): M.Part
      reads this
    {
      M.Part(committed, staged, locked, voteNo, down)
    }

    constructor ()
      ensures Value() == M.NEW_PART
    {
      voteNo, down, committed, staged, locked := false, false, map[], map[], map[];
    }

    method Prepare(tx: TxId, writes: Writes) returns (vote: M.Vote)
      modifies this
      ensures vote == M.VoteOf(old(Value()), tx, writes)
      ensures vote == M.Failed <==> down
      ensures vote == M.Yes <==> !down && !voteNo && forall k :: k in writes && k in old(locked) ==>
        old(locked)[k] == tx
      ensures Value() == M.Prepare(old(Value()), tx, writes)
    {
      if down {
        return M.Failed;
      }
      if voteNo {
        return M.No;
      }
      var blocked := IsBlocked(tx, writes);
      if blocked {
        return M.No;
      }
      var copy := StageAndLock(tx, writes);
      staged := staged[tx := copy];
      return M.Yes;
    }

    method StageAndLock(tx: TxId, writes: Writes) returns (copy: Writes)
      modifies `locked
      ensures copy == writes && locked == old(locked) + (map k | k in writes :: tx)
    {
      var todo := writes.Keys;
      copy := map[];
      while todo != {}
        invariant todo <= writes.Keys && copy.Keys == writes.Keys - todo
        invariant forall k :: k in copy ==> copy[k] == writes[k]
        invariant forall k :: k in locked <==> k in old(locked) || k in copy
        invariant forall k :: k in locked ==> locked[k] == if k in copy then tx else old(locked)[k]
        decreases |todo|
      {
        var k :| k in todo;
        copy := copy[k := writes[k]];
        locked := locked[k := tx];
        todo := todo - {k};
      }
      AllLocked(old(locked), tx, writes, copy, locked);
    }

    method IsBlocked(tx: TxId, writes: Writes) returns (blocked: bool)
      ensures blocked <==> M.Blocked(locked, tx, writes)
    {
      var todo := writes.Keys;
      while todo != {}
        invariant todo <= writes.Keys
        invariant forall k :: k in writes && k !in todo && k in locked ==> locked[k] == tx
        decreases |todo|
      {
        var k :| k in todo;
        if k in locked && locked[k] != tx {
          return true;
        }
        todo := todo - {k};
      }
      return false;
    }

    /** releaseLocked for every key of the set. */
    method Release(tx: TxId, keys: set<string>)
      modifies `locked
      ensures locked == M.Released(old(locked), tx, keys)
    {
      var todo := keys;
      while todo != {}
        invariant todo <= keys
        invariant forall k :: k in locked <==> k in old(locked) && !(k in keys && k !in todo && old(locked)[k] == tx)
        invariant forall k :: k in locked ==> locked[k] == old(locked)[k]
        decreases |todo|
      {
        var k :| k in todo;
        if k in locked && locked[k] == tx {
          locked := locked - {k};
        }
        todo := todo - {k};
      }
    }

    method Commit(tx: TxId)
      modifies this
      ensures Value() == M.Commit(old(Value()), tx)
    {
      if tx !in staged {
        return;
      }
      var writes := staged[tx];
      Apply(writes);
      Release(tx, writes.Keys);
      staged := staged - {tx};
    }

    method Apply(writes: Writes)
      modifies `committed
      ensures committed == old(committed) + writes
    {
      var todo := writes.Keys;
      while todo != {}
        invariant todo <= writes.Keys
        invariant forall k :: k in committed <==> k in old(committed) || (k in writes && k !in todo)
        invariant forall k :: k in committed ==>
          committed[k] == if k in writes && k !in todo then writes[k] else old(committed)[k]
        decreases |todo|
      {
        var k :| k in todo;
        committed := committed[k := writes[k]];
        todo := todo - {k};
      }
    }

    method Abort(tx: TxId)
      modifies this
      ensures Value() == M.Abort(old(Value()), tx)
    {
      if tx !in staged {
        return;
      }
      Release(tx, staged[tx].Keys);
      staged := staged - {tx};
    }
  }

  lemma AllLocked(before: map<string, TxId>, tx: TxId, writes: Writes, copy: Writes, after: map<string, TxId>)
    requires copy.Keys == writes.Keys && forall k :: k in copy ==> copy[k] == writes[k]
    requires forall k :: k in after <==> k in before || k in copy
    requires forall k :: k in after ==> after[k] == if k in copy then tx else before[k]
    ensures copy == writes && after == before + (map k | k in writes :: tx)
  {
    assert forall k :: k in copy <==> k in writes.Keys;
  }

  /** Phase 2 on one participant. */
  function Resolve(part: M.Part, tx: TxId, commit: bool): M.Part
  {
    if commit then M.Commit(part, tx) else M.Abort(part, tx)
  }

  /** The transaction has left nothing behind on the participant. */
  ghost predicate Fresh(part: M.Part, tx: TxId)
  {
    tx !in part.staged && forall k :: k in part.locked ==> part.locked[k] != tx
  }

  /** Preparing and aborting undoes itself; preparing and committing applies the writes and nothing else. */
  lemma PrepareThenResolve(part: M.Part, tx: TxId, writes: Writes)
    requires Fresh(part, tx) && M.VoteOf(part, tx, writes) == M.Yes
    ensures M.Abort(M.Prepare(part, tx, writes), tx) == part
    ensures M.Commit(M.Prepare(part, tx, writes), tx) == part.(committed := part.committed + writes)
  {
  }

  /** After a failed vote: the participant had prepared, or had not been asked. */
  ghost predicate RolledBack(part: M.Part, part': M.Part, tx: TxId, writes: Writes)
  {
    || (M.VoteOf(part, tx, writes) == M.Yes && part' == M.Abort(M.Prepare(part, tx, writes), tx))
    || part' == M.Abort(part, tx)
  }

  /** Under an id that left nothing behind, rolling back leaves no trace. */
  lemma RolledBackUnchanged(part: M.Part, part': M.Part, tx: TxId, writes: Writes)
    requires Fresh(part, tx) && RolledBack(part, part', tx, writes)
    ensures part' == part
  {
  }

  lemma ResolveTwice(part: M.Part, tx: TxId, commit: bool)
    ensures Resolve(Resolve(part, tx, commit), tx, commit) == Resolve(part, tx, commit)
  {
  }

  datatype Outcome = Committed | Aborted | VoteError | Crashed

  class Coordinator {
    var crashAfterPrepare: bool

    constructor ()
      ensures !crashAfterPrepare
    {
      crashAfterPrepare := false;
    }

    /** The decision reaches every participant, listed once or more often. */
    method Decide(tx: TxId, parts: seq<MemParticipant>, commit: bool)
      modifies parts
      ensures forall p :: p in parts ==> p.Value() == Resolve(old(p.Value()), tx, commit)
    {
      hide M.Commit, M.Abort;
      for i := 0 to |parts|
        invariant forall p :: p in parts[..i] ==> p.Value() == Resolve(old(p.Value()), tx, commit)
        invariant forall p :: p in parts && p !in parts[..i] ==> p.Value() == old(p.Value())
      {
        assert parts[..i + 1] == parts[..i] + [parts[i]];
        ResolveTwice(old(parts[i].Value()), tx, commit);
        if commit {
          parts[i].Commit(tx);
        } else {
          parts[i].Abort(tx);
        }
      }
      assert parts[..|parts|] == parts;
    }

    /** Phase 1: stops at the first participant that does not vote yes. */
    method Canvass(tx: TxId, parts: seq<MemParticipant>, per: map<MemParticipant, Writes>)
        returns (asked: nat, vote: M.Vote)
      requires forall i, j :: 0 <= i < j < |parts| ==> parts[i] != parts[j]
      requires forall p :: p in parts ==> p in per
      modifies parts
      ensures asked <= |parts| && (vote == M.Yes <==> asked == |parts|)
      ensures forall i :: 0 <= i < asked ==>
        M.VoteOf(old(parts[i].Value()), tx, per[parts[i]]) == M.Yes
          && parts[i].Value() == M.Prepare(old(parts[i].Value()), tx, per[parts[i]])
      ensures asked < |parts| ==> vote == M.VoteOf(old(parts[asked].Value()), tx, per[parts[asked]])
      ensures forall i :: asked <= i < |parts| ==> parts[i].Value() == old(parts[i].Value())
    {
      hide M.VoteOf;
      vote := M.Yes;
      for i := 0 to |parts|
        invariant vote == M.Yes
        invariant forall j :: 0 <= j < i ==>
          M.VoteOf(old(parts[j].Value()), tx, per[parts[j]]) == M.Yes
            && parts[j].Value() == M.Prepare(old(parts[j].Value()), tx, per[parts[j]])
        invariant forall j :: i <= j < |parts| ==> parts[j].Value() == old(parts[j].Value())
      {
        vote := parts[i].Prepare(tx, per[parts[i]]);
        if vote != M.Yes {
          return i, vote;
        }
      }
      return |parts|, M.Yes;
    }

    /** Whether every participant would vote yes. */
    ghost predicate Unanimous(tx: TxId, per: map<MemParticipant, Writes>)
      reads per.Keys
    {
      forall p :: p in per ==> M.VoteOf(p.Value(), tx, per[p]) == M.Yes
    }

    /**
     One whole transaction: it commits or blocks in doubt exactly when everyone would vote yes, and
     otherwise is rolled back everywhere.
     */
    method Execute(tx: TxId, per: map<MemParticipant, Writes>) returns (outcome: Outcome)
      modifies per.Keys
      ensures outcome == Committed <==> !crashAfterPrepare && old(Unanimous(tx, per))
      ensures outcome == Crashed <==> crashAfterPrepare && old(Unanimous(tx, per))
      ensures outcome == VoteError ==> exists p :: p in per && M.VoteOf(old(p.Value()), tx, per[p]) == M.Failed
      ensures outcome == Aborted ==> exists p :: p in per && M.VoteOf(old(p.Value()), tx, per[p]) == M.No
      ensures outcome == Committed ==> forall p :: p in per ==>
        p.Value() == M.Commit(M.Prepare(old(p.Value()), tx, per[p]), tx)
      ensures outcome == Crashed ==> forall p :: p in per ==> p.Value() == M.Prepare(old(p.Value()), tx, per[p])
      ensures outcome == Aborted || outcome == VoteError ==>
        forall p :: p in per ==> RolledBack(old(p.Value()), p.Value(), tx, per[p])
    {
      hide M.Commit, M.Abort, M.Prepare;
      var parts := Listed(per.Keys);
      var asked, vote := Canvass(tx, parts, per);
      if asked < |parts| {
        assert parts[asked] in per && !old(Unanimous(tx, per));
        Decide(tx, parts, false);
        return if vote == M.Failed then VoteError else Aborted;
      }
      if crashAfterPrepare {
        return Crashed;
      }
      Decide(tx, parts, true);
      return Committed;
    }

    method Recover(tx: TxId, decision: bool, participants: seq<MemParticipant>)
      modifies participants
      ensures forall p :: p in participants ==> p.Value() == Resolve(old(p.Value()), tx, decision)
    {
      Decide(tx, participants, decision);
    }
  }

  /** The participants in any order, each once. */
  method Listed(members: set<MemParticipant>) returns (list: seq<MemParticipant>)
    ensures forall i, j :: 0 <= i < j < |list| ==> list[i] != list[j]
    ensures forall p :: p in list <==> p in members
  {
    list := [];
    var todo := members;
    while todo != {}
      invariant todo <= members
      invariant forall i, j :: 0 <= i < j < |list| ==> list[i] != list[j]
      invariant forall p :: p in list <==> p in members && p !in todo
      decreases |todo|
    {
      var p :| p in todo;
      list := list + [p];
      todo := todo - {p};
    }
  }
}
