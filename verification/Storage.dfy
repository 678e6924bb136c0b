/** Values shared by every node type (internal/storage/entry.go). */
module Storage {
  datatype Option<+T> = None | Some(value: T)

  /** A []byte: `None` is Go's nil slice. */
  type Value = Option<seq<bv8>>

  datatype NodeId = NodeId(name: string)

  /** The empty node id, Go's zero value. */
  const NOBODY := NodeId("")

  datatype OpType = OpSet | OpDelete

  type Clock = map<NodeId, nat>

  datatype LogEntry = LogEntry(
    index: nat, term: nat, key: string, value: Value, op: OpType,
    timestamp: int, originId: NodeId, vclock: Clock)

  datatype KVEntry = KVEntry(
    key: string, value: Value, vclock: Clock, timestamp: int,
    nodeId: NodeId, tombstone: bool, version: nat)
}
