/** Last-write-wins (internal/conflict/lww.go, entryWins in internal/node/leaderless.go). */
module Lww {
  import opened Storage
  import S = StringOrder

  /** A stored version of one key, without the per-store version counter. */
  datatype Entry = Entry(value: Value, vclock: Clock, timestamp: int, nodeId: NodeId, tombstone: bool)

  /** (timestamp, node) order, node ids compared as strings. */
  predicate Older(a: Entry, b: Entry)
  {
    a.timestamp < b.timestamp || (a.timestamp == b.timestamp && S.Less(a.nodeId.name, b.nodeId.name))
  }

  predicate SameStamp(a: Entry, b: Entry)
  {
    a.timestamp == b.timestamp && a.nodeId == b.nodeId
  }

  predicate AtMost(a: Entry, b: Entry)
  {
    Older(a, b) || SameStamp(a, b)
  }

  /** entryWins(a, b). */
  predicate Wins(a: Entry, b: Entry)
  {
    if a.timestamp != b.timestamp then a.timestamp > b.timestamp else S.Less(b.nodeId.name, a.nodeId.name)
  }

  /** LWWResolver.Resolve: the remote entry only if it is newer. */
  function Resolve(local: Entry, remote: Entry): Entry
  {
    if remote.timestamp > local.timestamp then remote
    else if remote.timestamp == local.timestamp && S.Less(local.nodeId.name, remote.nodeId.name) then remote
    else local
  }

  lemma StampsOrdered(a: Entry, b: Entry)
    ensures AtMost(a, b) || Older(b, a)
    ensures AtMost(a, b) && AtMost(b, a) ==> SameStamp(a, b)
    ensures Wins(b, a) <==> Older(a, b)
    ensures !Wins(b, a) <==> AtMost(b, a)
  {
    S.Trichotomy(a.nodeId.name, b.nodeId.name);
  }

  lemma AtMostTransitive(a: Entry, b: Entry, c: Entry)
    requires AtMost(a, b) && AtMost(b, c)
    ensures AtMost(a, c)
  {
    if a.timestamp == b.timestamp == c.timestamp && a.nodeId != b.nodeId && b.nodeId != c.nodeId {
      S.Transitive(a.nodeId.name, b.nodeId.name, c.nodeId.name);
    }
  }

  /** The resolver's winner is one of the two and at least as new as both, whichever is local. */
  lemma ResolveIsMax(local: Entry, remote: Entry)
    ensures Resolve(local, remote) == local || Resolve(local, remote) == remote
    ensures AtMost(local, Resolve(local, remote)) && AtMost(remote, Resolve(local, remote))
    ensures SameStamp(Resolve(local, remote), Resolve(remote, local))
    ensures Resolve(local, remote) == if Wins(remote, local) then remote else local
  {
    StampsOrdered(local, remote);
    StampsOrdered(remote, local);
  }
}
