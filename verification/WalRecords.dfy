/**
 What the record stream means: the fold of records into a log view, as a function and as
 the in-place update the source performs.
 */
module WalRecords {
  import opened Prelude
  import opened RaftTypes
  import opened WalFrames

  /** The folded view of a record stream. */
  datatype LogView = LogView(
    entries: map<u64, Entry>,
    lastPurged: Option<LogId>,
    committed: Option<LogId>)

  const EMPTY_VIEW := LogView(map[], None, None)

  function Before(m: map<u64, Entry>, index: u64): map<u64, Entry> {
    map k | k in m && k < index :: m[k]
  }

  function After(m: map<u64, Entry>, index: u64): map<u64, Entry> {
    map k | k in m && k > index :: m[k]
  }

  function ApplyRecord(s: LogView, r: WalRecord): LogView {
    match r
    case EntryRecord(e) => s.(entries := s.entries[e.logId.index := e])
    case TruncateFrom(index) => s.(entries := Before(s.entries, index))
    case Purge(logId) => s.(lastPurged := Some(logId), entries := After(s.entries, logId.index))
    case Committed(p) => s.(committed := p)
    case Checkpoint(p, c) =>
      s.(lastPurged := if s.lastPurged.None? then p else s.lastPurged,
         committed := if s.committed.None? then c else s.committed)
  }

  function FoldFrom(s: LogView, rs: seq<WalRecord>): LogView {
    if rs == [] then s else ApplyRecord(FoldFrom(s, rs[..|rs| - 1]), rs[|rs| - 1])
  }

  function Fold(rs: seq<WalRecord>): LogView {
    FoldFrom(EMPTY_VIEW, rs)
  }

  lemma FoldSnoc(s: LogView, rs: seq<WalRecord>, r: WalRecord)
    ensures FoldFrom(s, rs + [r]) == ApplyRecord(FoldFrom(s, rs), r)
  {
    assert (rs + [r])[..|rs|] == rs;
  }

  lemma FoldOne(s: LogView, r: WalRecord)
    ensures FoldFrom(s, [r]) == ApplyRecord(s, r)
  {
    assert [] + [r] == [r];
    FoldSnoc(s, [], r);
  }

  lemma {:induction false} FoldConcat(s: LogView, a: seq<WalRecord>, b: seq<WalRecord>)
    ensures FoldFrom(s, a + b) == FoldFrom(FoldFrom(s, a), b)
    decreases |b|
  {
    if b == [] {
      assert a + b == a;
    } else {
      assert (a + b)[..|a + b| - 1] == a + b[..|b| - 1];
      FoldConcat(s, a, b[..|b| - 1]);
    }
  }

  // ---- highest entry index ----

  function RaiseMax(m: Option<u64>, r: WalRecord): Option<u64> {
    if !r.EntryRecord? then m
    else if m.None? || m.value < r.entry.logId.index then Some(r.entry.logId.index)
    else m
  }

  function MaxIndex(rs: seq<WalRecord>): Option<u64> {
    if rs == [] then None else RaiseMax(MaxIndex(rs[..|rs| - 1]), rs[|rs| - 1])
  }

  lemma {:induction false} MaxIndexBounds(rs: seq<WalRecord>, i: nat)
    requires i < |rs| && rs[i].EntryRecord?
    ensures MaxIndex(rs).Some? && rs[i].entry.logId.index <= MaxIndex(rs).value
  {
    if i < |rs| - 1 {
      MaxIndexBounds(rs[..|rs| - 1], i);
    }
  }

  // ---- checkpoints ----

  function CheckpointOf(s: LogView): WalRecord {
    Checkpoint(s.lastPurged, s.committed)
  }

  /** The one record a stale checkpoint undoes: resetting a known commit pointer. */
  predicate ResetsCommitted(s: LogView, r: WalRecord) {
    r.Committed? && r.pointer.None? && s.committed.Some?
  }

  /** A checkpoint taken before the record that filled the segment is one record stale; on
      replay it changes nothing exactly when that record did not reset `committed`. */
  lemma StaleCheckpointIsNeutral(s: LogView, r: WalRecord)
    ensures ApplyRecord(ApplyRecord(s, r), CheckpointOf(s)) == ApplyRecord(s, r)
            <==> !ResetsCommitted(s, r)
  {
    var t := ApplyRecord(s, r);
    var u := ApplyRecord(t, CheckpointOf(s));
    assert u == t <==> u.lastPurged == t.lastPurged && u.committed == t.committed;
  }

  /** The stream without its checkpoints: what the callers issued. */
  function Plain(rs: seq<WalRecord>): seq<WalRecord> {
    if rs == [] then []
    else
      var r := rs[|rs| - 1];
      Plain(rs[..|rs| - 1]) + if r.Checkpoint? then [] else [r]
  }

  lemma {:induction false} PlainConcat(a: seq<WalRecord>, b: seq<WalRecord>)
    ensures Plain(a + b) == Plain(a) + Plain(b)
    decreases |b|
  {
    if b == [] {
      assert a + b == a;
    } else {
      assert (a + b)[..|a + b| - 1] == a + b[..|b| - 1];
      PlainConcat(a, b[..|b| - 1]);
    }
  }

  lemma PlainPrefix(a: seq<WalRecord>, b: seq<WalRecord>)
    requires IsPrefix(a, b)
    ensures IsPrefix(Plain(a), Plain(b))
  {
    assert b == a + b[|a|..];
    PlainConcat(a, b[|a|..]);
  }

  lemma {:induction false} PlainOfPlain(rs: seq<WalRecord>)
    requires forall r :: r in rs ==> !r.Checkpoint?
    ensures Plain(rs) == rs
  {
    if rs != [] {
      PlainOfPlain(rs[..|rs| - 1]);
      assert rs == rs[..|rs| - 1] + [rs[|rs| - 1]];
    }
  }

  /** No checkpoint in the stream changes anything where it stands. */
  ghost predicate Honest(rs: seq<WalRecord>) {
    forall i :: 0 <= i < |rs| && rs[i].Checkpoint? ==> ApplyRecord(Fold(rs[..i]), rs[i]) == Fold(rs[..i])
  }

  lemma HonestPrefix(a: seq<WalRecord>, b: seq<WalRecord>)
    requires IsPrefix(a, b) && Honest(b)
    ensures Honest(a)
  {
    forall i | 0 <= i < |a| && a[i].Checkpoint?
      ensures ApplyRecord(Fold(a[..i]), a[i]) == Fold(a[..i])
    {
      assert a[i] == b[i] && a[..i] == b[..i];
    }
  }

  lemma HonestSnoc(rs: seq<WalRecord>, r: WalRecord)
    requires Honest(rs)
    requires r.Checkpoint? ==> ApplyRecord(Fold(rs), r) == Fold(rs)
    ensures Honest(rs + [r])
  {
    var t := rs + [r];
    forall i | 0 <= i < |t| && t[i].Checkpoint?
      ensures ApplyRecord(Fold(t[..i]), t[i]) == Fold(t[..i])
    {
      assert i < |rs| ==> t[..i] == rs[..i] && t[i] == rs[i];
      assert i == |rs| ==> t[..i] == rs;
    }
  }

  /** Checkpoints can then be ignored altogether. */
  lemma {:induction false} HonestFold(rs: seq<WalRecord>)
    requires Honest(rs)
    ensures Fold(rs) == Fold(Plain(rs))
  {
    if rs != [] {
      var front, last := rs[..|rs| - 1], rs[|rs| - 1];
      assert IsPrefix(front, rs);
      HonestPrefix(front, rs);
      HonestFold(front);
      if last.Checkpoint? {
        assert Plain(rs) == Plain(front);
      } else {
        FoldSnoc(EMPTY_VIEW, Plain(front), last);
      }
    }
  }

  // ---- the view held in RAM, updated in place ----

  class WalState {
    var entries: map<u64, Entry>
    var lastPurged: Option<LogId>
    var committed: Option<LogId>

    function View(): LogView
      reads this
    {
      LogView(entries, lastPurged, committed)
    }

    constructor ()
      ensures View() == EMPTY_VIEW
    {
      entries, lastPurged, committed := map[], None, None;
    }

    method RemoveKeys(keys: set<u64>)
      modifies this`entries
      ensures entries == map k | k in old(entries) && k !in keys :: old(entries)[k]
    {
      var todo := keys;
      while todo != {}
        invariant todo <= keys
        invariant entries == map k | k in old(entries) && k !in keys - todo :: old(entries)[k]
      {
        var k :| k in todo;
        entries := entries - {k};
        todo := todo - {k};
      }
    }

    method Apply(record: WalRecord)
      modifies this
      ensures View() == ApplyRecord(old(View()), record)
    {
      match record {
        case EntryRecord(e) =>
          entries := entries[e.logId.index := e];
        case TruncateFrom(index) =>
          RemoveKeys(set k | k in entries && k >= index);
        case Purge(logId) =>
          lastPurged := Some(logId);
          RemoveKeys(set k | k in entries && k <= logId.index);
        case Committed(c) =>
          committed := c;
        case Checkpoint(p, c) =>
          if lastPurged.None? {
            lastPurged := p;
          }
          if committed.None? {
            committed := c;
          }
      }
    }
  }
}
