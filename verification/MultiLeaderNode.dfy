/** The multi-leader node as the object it is: its methods move it as MultiLeaderModel says. */
module MultiLeaderNodeObject {
  import opened Storage
  import opened StoreObject
  import opened StoredVersions
  import opened HlcObject
  import H = HlcModel
  import VC = VectorClocks
  import Lww
  import M = MultiLeaderModel

  datatype Conflict = Conflict(key: string, local: KVEntry, remote: KVEntry)

  /** LWWResolver.Resolve on stored entries. */
  method ResolveConflict(c: Conflict) returns (winner: KVEntry)
    ensures winner == c.local || winner == c.remote
    ensures Content(winner) == Lww.Resolve(Content(c.local), Content(c.remote))
  {
    winner := c.local;
    if c.remote.timestamp > c.local.timestamp {
      winner := c.remote;
    } else if c.remote.timestamp == c.local.timestamp {
      if Lww.S.Less(c.local.nodeId.name, c.remote.nodeId.name) {
        winner := c.remote;
      }
    }
  }

  /** Two versions neither of which knows of the other. */
  ghost predicate Concurrent(local: KVEntry, remote: KVEntry)
  {
    && !VC.EqualTest(remote.vclock, local.vclock)
    && !VC.Before(remote.vclock, local.vclock) && !VC.Before(local.vclock, remote.vclock)
  }

  class MultiLeaderNode {
    const id: NodeId
    const store: Store
    const hlc: HLC
    var conflicts: seq<Conflict>
    var resolutions: seq<KVEntry>

    ghost predicate Valid()
      reads this, store, hlc
    {
      store.Valid() && hlc.Valid()
    }

    /** The node as the protocol sees it. */
    ghost function State(): M.Node
      reads this, store, hlc
    {
      M.Node(hlc.Last(), Versions(store.data))
    }

    constructor (id: NodeId)
      ensures Valid() && fresh(store) && fresh(hlc) && this.id == id
      ensures State() == M.Node(0, map[]) && conflicts == [] && resolutions == []
    {
      this.id := id;
      store := new Store();
      hlc := new HLC();
      conflicts, resolutions := [], [];
    }

    /** The clock a new write of the key carries: the stored clock, advanced at this node. */
    method NextClock(key: string) returns (vc: Clock)
      requires Valid()
      ensures vc == VC.Increment(if key in store.data then store.data[key].vclock else map[], id)
    {
      var existing := store.GetRaw(key);
      var clock := new VC.VectorClock();
      if existing.Some? {
        clock.m := existing.value.vclock;
      }
      clock.Increment(id);
      vc := clock.m;
    }

    method Write(key: string, value: Value, unixNano: int) returns (e: KVEntry)
      requires Valid()
      modifies store, hlc
      ensures Valid() && e.key == key
      ensures Content(e) == M.Written(id, old(State()), key, value, false, H.Wall(unixNano, hlc.skewNanos))
      ensures State() == M.Write(id, old(State()), key, value, false, H.Wall(unixNano, hlc.skewNanos))
      ensures Visible(store.data, key).Some? && Visible(store.data, key).value.value == value
      ensures forall k :: k != key ==> Visible(store.data, k) == old(Visible(store.data, k))
    {
      var vc := NextClock(key);
      var ts := hlc.Now(unixNano);
      e := KVEntry(key, value, vc, ts, id, false, 0);
      VersionsAfterSet(store.data, store.version, e);
      store.Set(e);
    }

    method Delete(key: string, unixNano: int) returns (e: KVEntry)
      requires Valid()
      modifies store, hlc
      ensures Valid() && e.key == key
      ensures Content(e) == M.Written(id, old(State()), key, None, true, H.Wall(unixNano, hlc.skewNanos))
      ensures State() == M.Write(id, old(State()), key, None, true, H.Wall(unixNano, hlc.skewNanos))
      ensures Visible(store.data, key).None?
      ensures forall k :: k != key ==> Visible(store.data, k) == old(Visible(store.data, k))
    {
      var vc := NextClock(key);
      var ts := hlc.Now(unixNano);
      e := KVEntry(key, None, vc, ts, id, true, 0);
      VersionsAfterSet(store.data, store.version, e);
      store.Set(e);
    }

    /** A conflict: keep the winner's content under the joined clock. */
    method Settle(local: KVEntry, remote: KVEntry) returns (merged: KVEntry)
      modifies this
      ensures merged.key == local.key || merged.key == remote.key
      ensures Content(merged) ==
        Lww.Resolve(Content(local), Content(remote)).(vclock := VC.Joined(local.vclock, remote.vclock))
      ensures conflicts == old(conflicts) + [Conflict(remote.key, local, remote)]
      ensures |resolutions| == |old(resolutions)| + 1 && resolutions[..|old(resolutions)|] == old(resolutions)
      ensures var winner := resolutions[|old(resolutions)|];
        (winner == local || winner == remote) && merged == winner.(vclock := merged.vclock)
    {
      var c := Conflict(remote.key, local, remote);
      conflicts := conflicts + [c];
      var winner := ResolveConflict(c);
      resolutions := resolutions + [winner];
      var clock := new VC.VectorClock();
      clock.m := local.vclock;
      clock.Merge(remote.vclock);
      clock.Merge(winner.vclock);
      VC.JoinedAgain(local.vclock, remote.vclock);
      merged := winner.(vclock := clock.m);
    }

    /** What the stored entry becomes; nothing when the remote one adds nothing. */
    method Compare(local: KVEntry, remote: KVEntry) returns (replacement: Option<KVEntry>)
      requires local.key == remote.key
      modifies this
      ensures replacement.None? ==> M.Reconcile(Content(local), Content(remote)) == Content(local)
      ensures replacement.Some? ==>
        replacement.value.key == remote.key
          && M.Reconcile(Content(local), Content(remote)) == Content(replacement.value)
      ensures conflicts ==
        old(conflicts) + if Concurrent(local, remote) then [Conflict(remote.key, local, remote)] else []
      ensures |resolutions| - |old(resolutions)| == |conflicts| - |old(conflicts)|
    {
      var localVC := new VC.VectorClock();
      var remoteVC := new VC.VectorClock();
      localVC.m, remoteVC.m := local.vclock, remote.vclock;
      hide VC.EqualTest, VC.Before, VC.Joined, Lww.Resolve;
      var equal := remoteVC.Equal(local.vclock);
      if equal {
        return None;
      }
      var stale := remoteVC.HappensBefore(local.vclock);
      if stale {
        return None;
      }
      var superseded := localVC.HappensBefore(remote.vclock);
      if superseded {
        return Some(remote);
      }
      var merged := Settle(local, remote);
      return Some(merged);
    }

    /** receiveRemoteWrite with the last-write-wins resolver. */
    method ReceiveRemoteWrite(remote: KVEntry, unixNano: int)
      requires Valid()
      modifies this, store, hlc
      ensures Valid()
      ensures State() == M.Receive(old(State()), remote.key, Content(remote), H.Wall(unixNano, hlc.skewNanos))
      ensures conflicts == old(conflicts) +
        if remote.key in old(store.data) && Concurrent(old(store.data)[remote.key], remote)
        then [Conflict(remote.key, old(store.data)[remote.key], remote)] else []
      ensures |resolutions| - |old(resolutions)| == |conflicts| - |old(conflicts)|
    {
      hide M.Reconcile;
      var _ := hlc.Update(remote.timestamp, unixNano);
      var found := store.GetRaw(remote.key);
      if found.None? {
        VersionsAfterSet(store.data, store.version, remote);
        store.Set(remote);
        return;
      }
      var replacement := Compare(found.value, remote);
      if replacement.Some? {
        VersionsAfterSet(store.data, store.version, replacement.value);
        store.Set(replacement.value);
      } else {
        VersionsKept(store.data, remote.key);
      }
    }
  }
}
