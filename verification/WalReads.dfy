/** The durable log and the in-memory log store give the same answers over every run. */
module WalReads {
  import opened Prelude
  import opened RaftTypes
  import opened WalFrames
  import opened WalRecords
  import opened WalSpec
  import opened WalCrash
  import opened WalReclaim
  import opened WalReclaimRuns
  import opened LogStores

  /** The in-memory store's state after the calls. */
  function MemoryState(ops: seq<Op>): LogView {
    if ops == [] then EMPTY_VIEW
    else FoldFrom(MemoryState(ops[..|ops| - 1]), OpRecords(ops[|ops| - 1]))
  }

  method RunMemory(ops: seq<Op>) returns (store: LogStore)
    ensures fresh(store) && store.View() == MemoryState(ops)
  {
    hide FoldFrom, OpRecords;
    store := new LogStore();
    for i := 0 to |ops|
      invariant fresh(store) && store.View() == MemoryState(ops[..i])
    {
      assert ops[..i + 1][..i] == ops[..i];
      match ops[i] {
        case AppendEntries(entries) => store.Append(entries);
        case Truncate(index) => store.TruncateFrom(index);
        case PurgeTo(logId) => store.Purge(logId);
        case SaveCommitted(pointer) => store.SaveCommittedPointer(pointer);
      }
    }
    assert ops[..|ops|] == ops;
  }

  function Calls(ops: seq<Op>): seq<Step> {
    if ops == [] then [] else Calls(ops[..|ops| - 1]) + [Call(ops[|ops| - 1])]
  }

  /** Reads see entries and purge point only. */
  lemma SameReads(a: LogView, b: LogView, lo: u64, hi: Option<u64>)
    requires SameLog(a, b)
    ensures Read(a, lo, hi) == Read(b, lo, hi) && LastLogId(a) == LastLogId(b)
  {
  }

  /** As long as every call returns, RAM is the in-memory store's state, purges with unlinks included. */
  lemma {:induction false} RamIsMemory(c: Codec, ops: seq<Op>)
    requires c.Valid() && ReclaimingRun(c, Calls(ops))
    ensures Run(c, Calls(ops)).state == MemoryState(ops)
  {
    hide FoldFrom, OpRecords, Done, DirRecords, Allowed, Quiescent, PointerLe, SameLog;
    if ops != [] {
      var front, last := Calls(ops[..|ops| - 1]), ops[|ops| - 1];
      assert Calls(ops)[..|front|] == front;
      RamIsMemory(c, ops[..|ops| - 1]);
      var _ := ReclaimingRunRefinesLog(c, front);
      CallIsHealthy(c, Run(c, front), last, RunHighest(front));
    }
  }

  /** Equal reads, from RAM and after a reopen, and an equal commit pointer in RAM. */
  lemma ReadsAgree(c: Codec, ops: seq<Op>, lo: u64, hi: Option<u64>)
    requires c.Valid() && ReclaimingRun(c, Calls(ops))
    ensures var v, m := Run(c, Calls(ops)), MemoryState(ops);
            && Read(v.state, lo, hi) == Read(m, lo, hi) && LastLogId(v.state) == LastLogId(m)
            && Read(Fold(DirRecords(c, v.dir)), lo, hi) == Read(m, lo, hi)
            && LastLogId(Fold(DirRecords(c, v.dir))) == LastLogId(m)
            && v.state.lastPurged == m.lastPurged && v.state.committed == m.committed
  {
    hide FoldFrom, Run, DirRecords, ReclaimingRun, Read, LastLogId, MemoryState;
    RamIsMemory(c, ops);
    var kept := ReclaimingRunRefinesLog(c, Calls(ops));
    SameReads(Fold(DirRecords(c, Run(c, Calls(ops)).dir)), Run(c, Calls(ops)).state, lo, hi);
  }

  /** With crashes too: reads are those of the records the crashes left, whatever segments hold them. */
  lemma CrashReadsAgree(c: Codec, steps: seq<Step>, lo: u64, hi: Option<u64>) returns (kept: seq<WalRecord>)
    requires c.Valid() && ReclaimingRun(c, steps)
    ensures Explains(steps, kept)
    ensures var v := Run(c, steps);
            && Read(v.state, lo, hi) == Read(Fold(kept), lo, hi) && LastLogId(v.state) == LastLogId(Fold(kept))
            && Read(Fold(DirRecords(c, v.dir)), lo, hi) == Read(Fold(kept), lo, hi)
  {
    hide FoldFrom, Run, DirRecords, ReclaimingRun, Read, LastLogId, Explains;
    kept := ReclaimingRunRefinesLog(c, steps);
    SameReads(Run(c, steps).state, Fold(kept), lo, hi);
    SameReads(Fold(DirRecords(c, Run(c, steps).dir)), Fold(kept), lo, hi);
  }
}
