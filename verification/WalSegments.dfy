/** The log seen as the records of its segments: what appends, rotations and calls do to them. */
module WalSegments {
  import opened Prelude
  import opened RaftTypes
  import opened WalFrames
  import opened WalRecords
  import opened WalSpec
  import opened WalCrash
  import opened WalReclaim

  /** The records of each segment file. */
  function Segments(c: Codec, d: Dir): (segs: seq<seq<WalRecord>>)
    ensures |segs| == |d|
    ensures forall i :: 0 <= i < |d| ==> segs[i] == Scan(c, d[i].bytes).records
  {
    seq(|d|, i requires 0 <= i < |d| => Scan(c, d[i].bytes).records)
  }

  function AddTo(segs: seq<seq<WalRecord>>, r: WalRecord): (out: seq<seq<WalRecord>>)
    requires segs != []
    ensures |out| == |segs|
  {
    segs[|segs| - 1 := segs[|segs| - 1] + [r]]
  }

  /** What is on disk and in RAM between calls. */
  ghost predicate At(c: Codec, v: WalView, segs: seq<seq<WalRecord>>, bytes: nat, s: LogView) {
    && Quiescent(c, v) && v.dir != [] && Segments(c, v.dir) == segs
    && v.segment.bytes == bytes && v.state == s
  }

  lemma WrittenSegments(c: Codec, v: WalView, r: WalRecord)
    requires c.Valid() && c.Fits(r) && Tracked(c, v)
    ensures v.dir != [] && Segments(c, Written(c, v, r).dir) == AddTo(Segments(c, v.dir), r)
    ensures Written(c, v, r).segment.bytes == v.segment.bytes + |FrameRecord(c, r)|
  {
    hide Scan, FrameRecord, Codec.Fits, Codec.Valid, MaxIndex;
    var last := v.dir[|v.dir| - 1];
    assert Clean(c, last.bytes) by { LastIsClean(c, v.dir); }
    ScanAppends(c, last.bytes, r);
    var w := Written(c, v, r).dir;
    assert forall i :: 0 <= i < |w| - 1 ==> w[i] == v.dir[i];
  }

  lemma SyncedSegments(c: Codec, d: Dir)
    requires d != []
    ensures Segments(c, SyncActive(d)) == Segments(c, d)
  {
    hide Scan;
  }

  lemma NextSegments(c: Codec, v: WalView)
    requires v.dir != []
    ensures Segments(c, NextSegment(v).dir) == Segments(c, v.dir) + [[]]
  {
    hide Scan;
    SyncedSegments(c, v.dir);
    assert Scan(c, []) == Scanned([], 0, false) by { ScanStops(c, []); }
    var d := NextSegment(v).dir;
    assert d == SyncActive(v.dir) + [SegFile(v.segment.seqNo + 1, [], 0)];
  }

  lemma AddToFresh(segs: seq<seq<WalRecord>>, r: WalRecord)
    ensures AddTo(segs + [[]], r) == segs + [[r]]
  {
    var empty: seq<WalRecord> := [];
    assert empty + [r] == [r];
  }

  lemma RotatedSegments(c: Codec, v: WalView)
    requires c.Valid() && Tracked(c, v)
    ensures v.dir != [] && Segments(c, Rotated(c, v).dir) == Segments(c, v.dir) + [[CheckpointOf(v.state)]]
    ensures Rotated(c, v).segment.bytes == |FrameRecord(c, CheckpointOf(v.state))| && Rotated(c, v).state == v.state
  {
    hide FrameRecord, Codec.Fits, Codec.Valid, Tracked, Written, NextSegment, AddTo, CheckpointOf, Segments;
    TrackedHasDir(c, v);
    NextIsTracked(c, v);
    NextSegments(c, v);
    NextBytes(v);
    CheckpointFits(c, v.state);
    WrittenSegments(c, NextSegment(v), CheckpointOf(v.state));
    WrittenState(c, NextSegment(v), CheckpointOf(v.state));
    AddToFresh(Segments(c, v.dir), CheckpointOf(v.state));
  }

  lemma NextBytes(v: WalView)
    requires v.dir != []
    ensures NextSegment(v).segment.bytes == 0 && NextSegment(v).state == v.state && NextSegment(v).dir != []
  {
  }

  lemma WrittenState(c: Codec, v: WalView, r: WalRecord)
    requires v.dir != []
    ensures Written(c, v, r).state == v.state
    ensures Full(Written(c, v, r)) <==> v.segment.bytes + |FrameRecord(c, r)| >= SEGMENT_MAX_BYTES
  {
    hide FrameRecord;
  }

  lemma IssuedSegments(c: Codec, v: WalView, r: WalRecord)
    requires c.Valid() && c.Fits(r) && Tracked(c, v)
    ensures v.dir != []
    ensures var full := v.segment.bytes + |FrameRecord(c, r)| >= SEGMENT_MAX_BYTES;
            var w := Issued(c, v, r);
            && (full <==> Full(Written(c, v, r)))
            && Segments(c, w.dir) ==
               AddTo(Segments(c, v.dir), r) + (if full then [[CheckpointOf(v.state)]] else [])
            && w.segment.bytes ==
               (if full then |FrameRecord(c, CheckpointOf(v.state))| else v.segment.bytes + |FrameRecord(c, r)|)
            && w.state == ApplyRecord(v.state, r)
  {
    hide FrameRecord, Codec.Fits, Codec.Valid, Segments, CheckpointOf, ApplyRecord, Tracked, Written, Rotated, AddTo, Full;
    TrackedHasDir(c, v);
    WrittenState(c, v, r);
    WrittenSegments(c, v, r);
    WrittenIsTracked(c, v, r);
    RotatedSegments(c, Written(c, v, r));
    assert AddTo(Segments(c, v.dir), r) + [] == AddTo(Segments(c, v.dir), r);
  }

  /** A call of one record that is not a purge. */
  lemma CallSegments(c: Codec, v: WalView, op: Op, r: WalRecord, segs: seq<seq<WalRecord>>, bytes: nat, s: LogView)
    requires c.Valid() && c.Fits(r) && At(c, v, segs, bytes, s)
    requires OpRecords(op) == [r] && !op.PurgeTo?
    ensures segs != []
    ensures bytes + |FrameRecord(c, r)| < SEGMENT_MAX_BYTES ==>
              At(c, Done(c, v, op), AddTo(segs, r), bytes + |FrameRecord(c, r)|, ApplyRecord(s, r))
    ensures bytes + |FrameRecord(c, r)| >= SEGMENT_MAX_BYTES ==>
              At(c, Done(c, v, op), AddTo(segs, r) + [[CheckpointOf(s)]], |FrameRecord(c, CheckpointOf(s))|, ApplyRecord(s, r))
  {
    hide FrameRecord, Codec.Fits, Codec.Valid, Tracked, Segments, CheckpointOf, ApplyRecord, Issued, OpRecords, AddTo, SyncActive,
         Full, Written;
    IssuedSegments(c, v, r);
    IssuedIsTracked(c, v, r);
    SingleIssue(c, v, r);
    var u := Issued(c, v, r);
    SyncIsTracked(c, u);
    SyncedSegments(c, u.dir);
    assert AddTo(segs, r) + [] == AddTo(segs, r);
  }

  lemma StartsAt(c: Codec)
    ensures At(c, Run(c, []), [[]], 0, EMPTY_VIEW)
  {
    FreshLog(c);
    var v := Recovered(c, []);
    assert Scan(c, []) == Scanned([], 0, false);
    assert Segments(c, v.dir) == [[]];
  }

  /** The directory of a purge before its unlinks. */
  lemma MarkedSegments(c: Codec, v: WalView, logId: LogId)
    requires c.Valid() && c.Fits(Purge(logId)) && Quiescent(c, v)
    ensures v.dir != []
    ensures var full := v.segment.bytes + |FrameRecord(c, Purge(logId))| >= SEGMENT_MAX_BYTES;
            && (full <==> Full(Written(c, v, Purge(logId))))
            && Segments(c, Marked(c, v, logId).dir) ==
               AddTo(Segments(c, v.dir), Purge(logId)) + if full then [[CheckpointOf(v.state)]] else []
  {
    hide FrameRecord, Codec.Fits, Codec.Valid, Tracked, Segments, Issued, Full, Written, CheckpointOf;
    IssuedSegments(c, v, Purge(logId));
    SyncedSegments(c, Issued(c, v, Purge(logId)).dir);
  }
}
