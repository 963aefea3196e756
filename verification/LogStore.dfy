/**
 The in-memory log store, and the reads the durable store answers from RAM. Both answer from
 a LogView by the same functions, so equal views give equal answers.
 */
module LogStores {
  import opened Prelude
  import opened RaftTypes
  import opened WalRecords
  import WalFrames
  import opened WalSpec

  // ---- reads ----

  ghost function SomeLeast(keys: set<u64>): (k: u64)
    requires keys != {}
    ensures k in keys && forall o :: o in keys ==> k <= o
  {
    var k :| k in keys;
    if keys == {k} then k
    else
      var m := SomeLeast(keys - {k});
      assert forall o :: o in keys ==> o == k || o in keys - {k};
      if k <= m then k else m
  }

  function Least(keys: set<u64>): (k: u64)
    requires keys != {}
    ensures k in keys && forall o :: o in keys ==> k <= o
  {
    assert SomeLeast(keys) in keys;
    var k :| k in keys && forall o :: o in keys ==> k <= o;
    k
  }

  /** The entries under the given keys, in index order. */
  function InOrder(m: map<u64, Entry>, keys: set<u64>): seq<Entry>
    requires keys <= m.Keys
    decreases keys
  {
    if keys == {} then []
    else
      var k := Least(keys);
      [m[k]] + InOrder(m, keys - {k})
  }

  /** Every entry sits under its own index. */
  ghost predicate Indexed(m: map<u64, Entry>) {
    forall k :: k in m ==> m[k].logId.index == k
  }

  lemma {:induction false} InOrderIsExact(m: map<u64, Entry>, keys: set<u64>)
    requires keys <= m.Keys && Indexed(m)
    ensures forall i, j :: 0 <= i < j < |InOrder(m, keys)| ==>
              InOrder(m, keys)[i].logId.index < InOrder(m, keys)[j].logId.index
    ensures forall e :: e in InOrder(m, keys) <==> e.logId.index in keys && m[e.logId.index] == e
    decreases keys
  {
    if keys != {} {
      InOrderIsExact(m, keys - {Least(keys)});
    }
  }

  /** The keys of a half-open index range; no upper bound when hi is None. */
  function InRange(m: map<u64, Entry>, lo: u64, hi: Option<u64>): (keys: set<u64>)
    ensures keys <= m.Keys
  {
    set k | k in m && lo <= k && (hi.None? || k < hi.value)
  }

  function Read(s: LogView, lo: u64, hi: Option<u64>): seq<Entry> {
    InOrder(s.entries, InRange(s.entries, lo, hi))
  }

  /** The last log id: of the highest entry, or the purge point when there is none. */
  function LastLogId(s: LogView): Option<LogId> {
    var all := Read(s, 0, None);
    if all == [] then s.lastPurged else Some(all[|all| - 1].logId)
  }

  lemma {:induction false} FoldIsIndexed(s: LogView, rs: seq<WalFrames.WalRecord>)
    requires Indexed(s.entries)
    ensures Indexed(FoldFrom(s, rs).entries)
  {
    if rs != [] {
      FoldIsIndexed(s, rs[..|rs| - 1]);
    }
  }

  /** What a reader sees of any folded log: exactly the live entries of the range, ascending,
      and as last id the greatest live index. */
  lemma ReadsAreExact(rs: seq<WalFrames.WalRecord>, lo: u64, hi: Option<u64>)
    ensures var s := Fold(rs);
            && (forall i, j :: 0 <= i < j < |Read(s, lo, hi)| ==>
                  Read(s, lo, hi)[i].logId.index < Read(s, lo, hi)[j].logId.index)
            && (forall e :: e in Read(s, lo, hi) <==>
                  e.logId.index in s.entries && s.entries[e.logId.index] == e &&
                  lo <= e.logId.index && (hi.None? || e.logId.index < hi.value))
            && (s.entries == map[] ==> LastLogId(s) == s.lastPurged)
            && (forall k :: k in s.entries && (forall o :: o in s.entries ==> o <= k) ==>
                  LastLogId(s) == Some(s.entries[k].logId))
  {
    hide FoldFrom, InOrder;
    FoldIsIndexed(EMPTY_VIEW, rs) by { assert Indexed(EMPTY_VIEW.entries); }
    var s := Fold(rs);
    InOrderIsExact(s.entries, InRange(s.entries, lo, hi));
    LastIsGreatest(s);
  }

  lemma LastIsGreatest(s: LogView)
    requires Indexed(s.entries)
    ensures LastLogId(s) == if s.entries == map[] then s.lastPurged
                            else Some(s.entries[Greatest(s.entries.Keys)].logId)
  {
    var keys := InRange(s.entries, 0, None);
    assert keys == s.entries.Keys;
    InOrderIsExact(s.entries, keys);
    var all := Read(s, 0, None);
    if s.entries != map[] {
      var g := s.entries[Greatest(s.entries.Keys)];
      assert g in all;
      var i :| 0 <= i < |all| && all[i] == g;
      var last := all[|all| - 1];
      assert last in all;
    }
  }

  ghost function SomeGreatest(keys: set<u64>): (k: u64)
    requires keys != {}
    ensures k in keys && forall o :: o in keys ==> o <= k
  {
    var k :| k in keys;
    if keys == {k} then k
    else
      var m := SomeGreatest(keys - {k});
      assert forall o :: o in keys ==> o == k || o in keys - {k};
      if k >= m then k else m
  }

  function Greatest(keys: set<u64>): (k: u64)
    requires keys != {}
    ensures k in keys && forall o :: o in keys ==> o <= k
  {
    assert SomeGreatest(keys) in keys;
    var k :| k in keys && forall o :: o in keys ==> o <= k;
    k
  }

  lemma NothingToRead(m: map<u64, Entry>)
    ensures InOrder(m, {}) == []
  {
  }

  lemma ReadStep(m: map<u64, Entry>, keys: set<u64>)
    requires keys <= m.Keys && keys != {}
    ensures InOrder(m, keys) == [m[Least(keys)]] + InOrder(m, keys - {Least(keys)})
  {
  }

  // ---- the in-memory store ----

  class LogStore {
    var log: map<u64, Entry>
    var lastPurged: Option<LogId>
    var committed: Option<LogId>

    function View(): LogView
      reads this
    {
      LogView(log, lastPurged, committed)
    }

    constructor ()
      ensures View() == EMPTY_VIEW
    {
      log, lastPurged, committed := map[], None, None;
    }

    method Append(entries: seq<Entry>)
      modifies this
      ensures View() == FoldFrom(old(View()), OpRecords(AppendEntries(entries)))
    {
      ghost var rs := EntryRecords(entries);
      for i := 0 to |entries|
        invariant View() == FoldFrom(old(View()), rs[..i])
      {
        assert rs[..i + 1][..i] == rs[..i];
        log := log[entries[i].logId.index := entries[i]];
      }
      assert rs[..|entries|] == rs;
    }

    method RemoveKeys(keys: set<u64>)
      modifies this`log
      ensures log == map k | k in old(log) && k !in keys :: old(log)[k]
    {
      var todo := keys;
      while todo != {}
        invariant todo <= keys
        invariant log == map k | k in old(log) && k !in keys - todo :: old(log)[k]
      {
        var k :| k in todo;
        log := log - {k};
        todo := todo - {k};
      }
    }

    method TruncateFrom(index: u64)
      modifies this
      ensures View() == FoldFrom(old(View()), OpRecords(Truncate(index)))
    {
      RemoveKeys(set k | k in log && k >= index);
      FoldOne(old(View()), WalFrames.TruncateFrom(index));
    }

    method Purge(logId: LogId)
      modifies this
      ensures View() == FoldFrom(old(View()), OpRecords(PurgeTo(logId)))
    {
      lastPurged := Some(logId);
      RemoveKeys(set k | k in log && k <= logId.index);
      FoldOne(old(View()), WalFrames.Purge(logId));
    }

    method SaveCommittedPointer(pointer: Option<LogId>)
      modifies this
      ensures View() == FoldFrom(old(View()), OpRecords(SaveCommitted(pointer)))
    {
      committed := pointer;
      FoldOne(old(View()), WalFrames.Committed(pointer));
    }

    /** Entries of an index range, by walking the ordered map. */
    method TryGetLogEntries(lo: u64, hi: Option<u64>) returns (out: seq<Entry>)
      ensures out == Read(View(), lo, hi)
    {
      hide InOrder, InRange;
      out := [];
      var todo := InRange(log, lo, hi);
      NothingToRead(log);
      while todo != {}
        invariant todo <= log.Keys
        invariant Read(View(), lo, hi) == out + InOrder(log, todo)
        decreases todo
      {
        var k := Least(todo);
        ReadStep(log, todo);
        out := out + [log[k]];
        todo := todo - {k};
      }
    }
  }
}
