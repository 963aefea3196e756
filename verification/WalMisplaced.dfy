/**
 Damage in a segment other than the last: recovery makes segment 0 the active one, and what
 is appended then is replayed before everything in the later segments.
 */
module WalMisplaced {
  import opened Prelude
  import opened RaftTypes
  import opened WalFrames
  import opened WalRecords
  import opened WalSpec
  import opened WalCrash
  import opened WalReclaim
  import opened WalHoles
  import opened WalHoleRuns

  /** An append goes to the file of the active segment, wherever it stands in the directory. */
  function WriteTo(d: Dir, seqNo: nat, b: seq<byte>): (w: Dir)
    ensures |w| == |d|
    ensures forall i :: 0 <= i < |d| ==> w[i] == if d[i].seqNo == seqNo then d[i].(bytes := d[i].bytes + b) else d[i]
  {
    seq(|d|, i requires 0 <= i < |d| => if d[i].seqNo == seqNo then d[i].(bytes := d[i].bytes + b) else d[i])
  }

  /** Opening a file for appending creates it where it is missing. */
  function OpenAt(d: Dir, seqNo: nat): Dir {
    if d == [] || seqNo < d[0].seqNo then [SegFile(seqNo, [], 0)] + d
    else if d[0].seqNo == seqNo then d
    else [d[0]] + OpenAt(d[1..], seqNo)
  }

  /** The directory after an append: a full segment is followed by the file of the next number,
      which may be there already and then gets the checkpoint at its end. */
  function AppendedTo(c: Codec, v: WalView, r: WalRecord): Dir {
    var w := WriteTo(v.dir, v.segment.seqNo, FrameRecord(c, r));
    var next := v.segment.seqNo + 1;
    if v.segment.bytes + |FrameRecord(c, r)| < SEGMENT_MAX_BYTES then w
    else WriteTo(OpenAt(w, next), next, FrameRecord(c, CheckpointOf(v.state)))
  }

  lemma HeadAndRest(c: Codec, d: Dir)
    requires d != []
    ensures DirRecords(c, d) == Scan(c, d[0].bytes).records + DirRecords(c, d[1..])
  {
    hide Scan;
    DirRecordsSplit(c, d, 1);
    assert d[..1] == [] + [d[0]];
    LastRecords(c, [], d[0]);
    NoRecords(c);
    assert [] + Scan(c, d[0].bytes).records == Scan(c, d[0].bytes).records;
  }

  lemma KeptIsClean(c: Codec, d: Dir)
    requires FirstBad(c, d) < |d|
    ensures CleanPrefix(c, d) != [] && forall i :: 0 <= i < |CleanPrefix(c, d)| ==> Clean(c, CleanPrefix(c, d)[i].bytes)
  {
    hide Scan;
    var n := FirstBad(c, d);
    TruncationIsClean(c, d[n].bytes);
  }

  lemma KeptAscends(c: Codec, d: Dir)
    requires Ascending(d)
    ensures Ascending(CleanPrefix(c, d))
  {
    hide Scan;
  }

  lemma EmptyInFront(c: Codec, d: Dir, seqNo: nat)
    ensures DirRecords(c, [SegFile(seqNo, [], 0)] + d) == DirRecords(c, d)
  {
    hide Scan, DirRecords;
    var w := [SegFile(seqNo, [], 0)] + d;
    HeadAndRest(c, w);
    assert w[1..] == d;
    assert Scan(c, []) == Scanned([], 0, false) by { ScanStops(c, []); }
    assert [] + DirRecords(c, d) == DirRecords(c, d);
  }

  /** What opening such a directory leaves: clean segments, the active one at the front. */
  lemma MisplacedShape(c: Codec, d: Dir)
    requires Ascending(d) && FirstBad(c, d) < |d| - 1
    ensures var v := Opened(c, d);
            && v.dir != [] && v.dir[0].seqNo == 0 && v.segment.seqNo == 0 && v.segment.bytes == |v.dir[0].bytes|
            && (forall i :: 0 < i < |v.dir| ==> v.dir[i].seqNo != 0) && Ascending(v.dir)
            && (forall i :: 0 <= i < |v.dir| ==> Clean(c, v.dir[i].bytes))
            && v.state == Fold(DirRecords(c, v.dir))
  {
    hide Scan, DirRecords, FoldFrom, MaxIndex, CleanPrefix, FirstBad;
    KeptIsClean(c, d);
    KeptAscends(c, d);
    EmptyInFront(c, CleanPrefix(c, d), 0);
    assert Scan(c, []) == Scanned([], 0, false) by { ScanStops(c, []); }
  }

  // ---- a record replayed too early ----

  ghost predicate TouchedIn(rs: seq<WalRecord>, k: u64) {
    exists r :: r in rs && Touches(r, k)
  }

  lemma {:induction false} LaterRecordsDecide(s: LogView, t: LogView, rs: seq<WalRecord>, k: u64)
    ensures TouchedIn(rs, k) ==> EntryAt(FoldFrom(s, rs), k) == EntryAt(FoldFrom(t, rs), k)
    ensures !TouchedIn(rs, k) ==> EntryAt(FoldFrom(s, rs), k) == EntryAt(s, k)
  {
    if rs != [] {
      var front, last := rs[..|rs| - 1], rs[|rs| - 1];
      assert rs == front + [last];
      LaterRecordsDecide(s, t, front, k);
      assert TouchedIn(rs, k) <==> TouchedIn(front, k) || Touches(last, k);
    }
  }

  /** The later segments, opened at their first number or created in front of them. */
  lemma NextInFront(c: Codec, d: Dir) returns (later: Dir)
    requires d != [] && d[0].seqNo == 0 && Ascending(d)
    ensures OpenAt(d, 1) == [d[0]] + later && later != [] && later[0].seqNo == 1
    ensures forall i :: 0 < i < |later| ==> later[i].seqNo > 1
    ensures DirRecords(c, later) == DirRecords(c, d[1..])
    ensures (forall i :: 0 <= i < |d| ==> Clean(c, d[i].bytes)) ==> forall i :: 0 <= i < |later| ==> Clean(c, later[i].bytes)
  {
    hide Scan, DirRecords;
    var rest := d[1..];
    later := OpenAt(rest, 1);
    assert forall i :: 0 <= i < |rest| ==> rest[i] == d[i + 1];
    EmptyInFront(c, rest, 1);
    assert Scan(c, []) == Scanned([], 0, false) by { ScanStops(c, []); }
    assert forall i :: 0 < i < |rest| ==> rest[0].seqNo < rest[i].seqNo;
  }

  lemma WriteToHead(d: Dir, b: seq<byte>, seqNo: nat)
    requires d != [] && d[0].seqNo == seqNo && forall i :: 0 < i < |d| ==> d[i].seqNo != seqNo
    ensures WriteTo(d, seqNo, b) == [d[0].(bytes := d[0].bytes + b)] + d[1..]
  {
  }

  lemma WriteToSecond(first: SegFile, d: Dir, b: seq<byte>, seqNo: nat)
    requires d != [] && first.seqNo != seqNo && d[0].seqNo == seqNo && forall i :: 0 < i < |d| ==> d[i].seqNo != seqNo
    ensures WriteTo([first] + d, seqNo, b) == [first] + ([d[0].(bytes := d[0].bytes + b)] + d[1..])
  {
  }

  lemma CleanFront(c: Codec, f: SegFile, d: Dir)
    requires Clean(c, f.bytes) && forall i :: 0 <= i < |d| ==> Clean(c, d[i].bytes)
    ensures forall i :: 0 <= i < |[f] + d| ==> Clean(c, ([f] + d)[i].bytes)
  {
    hide Scan;
  }

  /** Reopened, the record comes before everything in the later segments; a rotation adds its
      checkpoint to them. */
  lemma AppendedReopens(c: Codec, d: Dir, r: WalRecord) returns (later: seq<WalRecord>)
    requires c.Valid() && c.Fits(r) && Ascending(d) && FirstBad(c, d) < |d| - 1
    ensures var v := Opened(c, d);
            && v.dir != []
            && Opened(c, AppendedTo(c, v, r)).state == Fold(Scan(c, v.dir[0].bytes).records + [r] + later)
            && v.state == Fold(Scan(c, v.dir[0].bytes).records + DirRecords(c, v.dir[1..]))
            && Without(later, CheckpointOf(v.state), DirRecords(c, v.dir[1..]))
  {
    hide Scan, DirRecords, FoldFrom, FrameRecord, Codec.Valid, Codec.Fits, Opened, FirstBad, OpenAt, CheckpointOf, WriteTo, Ascending;
    MisplacedShape(c, d);
    var v := Opened(c, d);
    var f, k := FrameRecord(c, r), CheckpointOf(v.state);
    var head := v.dir[0].(bytes := v.dir[0].bytes + f);
    ScanAppends(c, v.dir[0].bytes, r);
    WriteToHead(v.dir, f, 0);
    HeadAndRest(c, v.dir);
    var w := WriteTo(v.dir, 0, f);
    assert w[0] == head && w[1..] == v.dir[1..];
    later := DirRecords(c, v.dir[1..]);
    if v.segment.bytes + |f| < SEGMENT_MAX_BYTES {
      CleanFront(c, head, v.dir[1..]);
      CleanReopens(c, w);
      HeadAndRest(c, w);
    } else {
      assert Ascending(w) by { WriteKeepsOrder(v.dir, 0, f); }
      CleanFront(c, head, v.dir[1..]);
      var rest := NextInFront(c, w);
      CheckpointFits(c, v.state);
      ScanAppends(c, rest[0].bytes, k);
      WriteToSecond(head, rest, FrameRecord(c, k), 1);
      var next := rest[0].(bytes := rest[0].bytes + FrameRecord(c, k));
      CleanFront(c, next, rest[1..]);
      CleanFront(c, head, [next] + rest[1..]);
      CleanReopens(c, [head] + ([next] + rest[1..]));
      HeadAndRest(c, [head] + ([next] + rest[1..]));
      HeadAndRest(c, [next] + rest[1..]);
      HeadAndRest(c, rest);
      assert ([head] + ([next] + rest[1..]))[1..] == [next] + rest[1..] && ([next] + rest[1..])[1..] == rest[1..];
      var a, b := Scan(c, rest[0].bytes).records, DirRecords(c, rest[1..]);
      later := a + [k] + b;
      assert Without(later, k, a + b) by { CheckpointBetween(a, k, b); }
    }
  }

  lemma WriteKeepsOrder(d: Dir, seqNo: nat, b: seq<byte>)
    requires Ascending(d)
    ensures Ascending(WriteTo(d, seqNo, b))
  {
  }

  /** The same records, or with one checkpoint more. */
  ghost predicate Without(rs: seq<WalRecord>, k: WalRecord, original: seq<WalRecord>) {
    rs == original || exists i :: 0 <= i <= |original| && rs == original[..i] + [k] + original[i..]
  }

  lemma CheckpointBetween(a: seq<WalRecord>, k: WalRecord, b: seq<WalRecord>)
    ensures Without(a + [k] + b, k, a + b)
  {
    assert (a + b)[..|a|] == a && (a + b)[|a|..] == b;
  }

  lemma WithoutDecides(s: LogView, rs: seq<WalRecord>, k: WalRecord, original: seq<WalRecord>, index: u64)
    requires Without(rs, k, original) && k.Checkpoint?
    ensures EntryAt(FoldFrom(s, rs), index) == EntryAt(FoldFrom(s, original), index)
  {
    hide FoldFrom, TouchedIn, ApplyRecord;
    if i :| 0 <= i <= |original| && rs == original[..i] + [k] + original[i..] {
      var a, b := original[..i], original[i..];
      assert original == a + b;
      FoldConcat(s, a + [k], b);
      FoldConcat(s, a, b);
      FoldSnoc(s, a, k);
      var x, y := FoldFrom(s, a + [k]), FoldFrom(s, a);
      LaterRecordsDecide(x, y, b, index);
      LaterRecordsDecide(y, y, b, index);
      assert EntryAt(x, index) == EntryAt(y, index) by { CheckpointLeaves(y, k, index); }
    }
  }

  lemma CheckpointLeaves(s: LogView, k: WalRecord, index: u64)
    requires k.Checkpoint?
    ensures EntryAt(ApplyRecord(s, k), index) == EntryAt(s, index)
  {
  }

  /**
   The next append after such a recovery, filling its segment or not, and a reopen. RAM has
   applied the record last; the reopened log applies it before the later segments. At every
   index the record touches, the reopened log holds what the record left when no later segment
   touches the index, and otherwise what was there without it.
   */
  lemma MisplacedAppendIsForgotten(c: Codec, d: Dir, r: WalRecord)
    requires c.Valid() && c.Fits(r) && Ascending(d) && FirstBad(c, d) < |d| - 1
    ensures var v := Opened(c, d);
            && v.dir != []
            && var reopened := Opened(c, AppendedTo(c, v, r)).state;
            && forall k: u64 :: Touches(r, k) ==>
                 EntryAt(ApplyRecord(v.state, r), k) == Leaves(r) &&
                 EntryAt(reopened, k) == if TouchedIn(DirRecords(c, v.dir[1..]), k) then EntryAt(v.state, k) else Leaves(r)
  {
    hide Scan, DirRecords, FoldFrom, Codec.Valid, Codec.Fits, Touches, Leaves, Opened, TouchedIn, FirstBad, AppendedTo, CheckpointOf,
         Without;
    var rest := AppendedReopens(c, d, r);
    var v := Opened(c, d);
    var head, later := Scan(c, v.dir[0].bytes).records, DirRecords(c, v.dir[1..]);
    FoldConcat(EMPTY_VIEW, head + [r], rest);
    FoldConcat(EMPTY_VIEW, head, later);
    FoldSnoc(EMPTY_VIEW, head, r);
    var cp := CheckpointOf(v.state);
    assert cp.Checkpoint? by { ChecksPoint(v.state); }
    forall k: u64 | Touches(r, k)
      ensures EntryAt(ApplyRecord(v.state, r), k) == Leaves(r)
      ensures EntryAt(FoldFrom(Fold(head + [r]), rest), k) == if TouchedIn(later, k) then EntryAt(v.state, k) else Leaves(r)
    {
      WithoutDecides(Fold(head + [r]), rest, cp, later, k);
      LaterRecordsDecide(Fold(head + [r]), Fold(head), later, k);
      LastTouchDecides(head, r, k);
      FoldSnoc(EMPTY_VIEW, head + later, r);
      LastTouchDecides(head + later, r, k);
    }
  }

  lemma ChecksPoint(s: LogView)
    ensures CheckpointOf(s).Checkpoint?
  {
  }
}
