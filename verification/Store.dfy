/** The key-value store every replica folds into (internal/storage/store.go). */
module StoreObject {
  import opened Storage

  type Contents = map<string, KVEntry>

  /** Set: the store's copy of the entry carries the store's own version number. */
  function AfterSet(data: Contents, version: nat, e: KVEntry): Contents
  {
    data[e.key := e.(version := version + 1)]
  }

  /** Delete keeps the old value under the tombstone, if there was one. */
  function AfterDelete(data: Contents, version: nat, key: string, nodeId: NodeId, ts: int, vc: Clock): Contents
  {
    data[key := KVEntry(key, if key in data then data[key].value else None, vc, ts, nodeId, true, version + 1)]
  }

  /** What readers see: live entries only. */
  function Visible(data: Contents, key: string): Option<KVEntry>
  {
    if key in data && !data[key].tombstone then Some(data[key]) else None
  }

  /** After Set a reader sees the entry under its key, or nothing if it is a tombstone; other keys are untouched. */
  lemma SetShows(data: Contents, version: nat, e: KVEntry, key: string)
    ensures var seen := Visible(AfterSet(data, version, e), key);
      if key != e.key then seen == Visible(data, key)
      else if e.tombstone then seen.None?
      else seen == Some(KVEntry(e.key, e.value, e.vclock, e.timestamp, e.nodeId, false, version + 1))
  {
  }

  /** After Delete a reader sees nothing under the key; the old value is kept out of sight. */
  lemma DeleteHides(data: Contents, version: nat, key: string, nodeId: NodeId, ts: int, vc: Clock, other: string)
    ensures var data' := AfterDelete(data, version, key, nodeId, ts, vc);
      && Visible(data', key).None? && key in data' && data'[key].tombstone
      && data'[key].timestamp == ts && data'[key].nodeId == nodeId && data'[key].vclock == vc
      && (key in data ==> data'[key].value == data[key].value) && (key !in data ==> data'[key].value == None)
      && (other != key ==> Visible(data', other) == Visible(data, other) && (other in data' <==> other in data))
  {
  }

  /** Every entry is filed under its own key. */
  ghost predicate Filed(data: Contents)
  {
    forall k :: k in data ==> data[k].key == k
  }

  class Store {
    var data: Contents
    var version: nat

    ghost predicate Valid()
      reads this
    {
      Filed(data)
    }

    constructor ()
      ensures Valid() && data == map[] && version == 0
    {
      data, version := map[], 0;
    }

    method Get(key: string) returns (e: Option<KVEntry>)
      ensures e == Visible(data, key)
    {
      if key !in data || data[key].tombstone {
        return None;
      }
      return Some(data[key]);
    }

    method GetRaw(key: string) returns (e: Option<KVEntry>)
      ensures e == if key in data then Some(data[key]) else None
    {
      if key in data {
        return Some(data[key]);
      }
      return None;
    }

    method Set(e: KVEntry)
      modifies this
      ensures old(Valid()) ==> Valid()
      ensures version == old(version) + 1 && data == AfterSet(old(data), old(version), e)
      ensures Visible(data, e.key) ==
        if e.tombstone then None else Some(KVEntry(e.key, e.value, e.vclock, e.timestamp, e.nodeId, false, version))
    {
      version := version + 1;
      data := data[e.key := e.(version := version)];
    }

    /** The contents are replaced; the counter stays. */
    method RestoreSnapshot(snapshot: Contents)
      modifies this`data
      ensures data == snapshot && (Filed(snapshot) ==> Valid())
    {
      data := snapshot;
    }

    method Delete(key: string, nodeId: NodeId, ts: int, vc: Clock)
      requires Valid()
      modifies this
      ensures Valid() && version == old(version) + 1
      ensures data == AfterDelete(old(data), old(version), key, nodeId, ts, vc)
      ensures Visible(data, key).None? && forall k :: k != key ==> Visible(data, k) == old(Visible(data, k))
    {
      version := version + 1;
      if key in data {
        data := data[key := data[key].(tombstone := true, timestamp := ts, nodeId := nodeId, vclock := vc,
          version := version)];
      } else {
        data := data[key := KVEntry(key, None, vc, ts, nodeId, true, version)];
      }
    }
  }
}

/** A log folded into a store, as every replica that applies log entries does. */
module LogFold {
  import opened Storage
  import opened StoreObject

  /** What applying a log entry stores. */
  function KVOf(e: LogEntry): KVEntry
  {
    KVEntry(e.key, e.value, e.vclock, e.timestamp, e.originId, e.op == OpDelete, e.index)
  }

  function Fold(log: seq<LogEntry>): Contents
  {
    if log == [] then map[] else AfterSet(Fold(log[..|log| - 1]), |log| - 1, KVOf(log[|log| - 1]))
  }

  function LiveKV(e: LogEntry, version: nat): KVEntry
  {
    KVEntry(e.key, e.value, e.vclock, e.timestamp, e.originId, false, version)
  }

  /** The last entry of a key. */
  ghost predicate LastOf(log: seq<LogEntry>, key: string, k: nat)
  {
    k < |log| && log[k].key == key && forall j :: k < j < |log| ==> log[j].key != key
  }

  /** A reader of the fold sees the last entry of the key, or nothing if that is a delete or there is none. */
  lemma {:induction false} FoldShows(log: seq<LogEntry>, key: string)
    ensures forall k: nat :: LastOf(log, key, k) ==>
      && (log[k].op == OpDelete ==> Visible(Fold(log), key).None?)
      && (log[k].op == OpSet ==> Visible(Fold(log), key) == Some(LiveKV(log[k], k + 1)))
    ensures (forall k :: 0 <= k < |log| ==> log[k].key != key) ==> Visible(Fold(log), key).None?
  {
    if log != [] {
      var init, e := log[..|log| - 1], log[|log| - 1];
      FoldShows(init, key);
      forall k: nat | LastOf(log, key, k)
        ensures k == |log| - 1 || LastOf(init, key, k)
      {
      }
    }
  }
}

/** The store as the last-write-wins protocols see it. */
module StoredVersions {
  import opened Storage
  import opened StoreObject
  import Lww

  /** An entry without its key and store version. */
  function Content(e: KVEntry): Lww.Entry
  {
    Lww.Entry(e.value, e.vclock, e.timestamp, e.nodeId, e.tombstone)
  }

  /** A store as the protocol sees it. */
  function Versions(data: Contents): map<string, Lww.Entry>
  {
    map k | k in data :: Content(data[k])
  }

  lemma VersionsAfterSet(data: Contents, version: nat, e: KVEntry)
    ensures Versions(AfterSet(data, version, e)) == Versions(data)[e.key := Content(e)]
  {
  }

  lemma VersionsKept(data: Contents, key: string)
    requires key in data
    ensures Versions(data) == Versions(data)[key := Content(data[key])]
  {
  }

  /** An entry on its way into a store: Set assigns the version. */
  function Unfiled(key: string, e: Lww.Entry): KVEntry
  {
    KVEntry(key, e.value, e.vclock, e.timestamp, e.nodeId, e.tombstone, 0)
  }
}
