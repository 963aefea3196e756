/** The raft vocabulary the log stores share: log ids and entries. */
module RaftTypes {
  import opened Prelude

  /** Leader term, leader node and position; ordered lexicographically. */
  datatype LogId = LogId(term: u64, node: u64, index: u64)

  datatype EntryPayload =
    | Blank
    | Normal(payload: seq<byte>)
    | Membership(config: seq<byte>)

  datatype Entry = Entry(logId: LogId, payload: EntryPayload)

  predicate LogIdLe(a: LogId, b: LogId) {
    a.term < b.term ||
    (a.term == b.term && (a.node < b.node || (a.node == b.node && a.index <= b.index)))
  }

  /** No log id at all sits below every log id. */
  predicate PointerLe(a: Option<LogId>, b: Option<LogId>) {
    a.None? || (b.Some? && LogIdLe(a.value, b.value))
  }
}
