/**
 Exactly when a purge keeps the meaning of the log: which records survive the unlinks, and
 when the survivors still replay to what is in RAM.
 */
module WalHoles {
  import opened Prelude
  import opened RaftTypes
  import opened WalFrames
  import opened WalRecords
  import opened WalSpec
  import opened WalCrash
  import opened WalReclaim
  import opened WalSegments

  // ---- what one index becomes in a replay ----

  /** The record writes or voids the entry at this index. */
  predicate Touches(r: WalRecord, k: u64) {
    match r
    case EntryRecord(e) => e.logId.index == k
    case TruncateFrom(index) => k >= index
    case Purge(logId) => k <= logId.index
    case _ => false
  }

  function EntryAt(s: LogView, k: u64): Option<Entry> {
    if k in s.entries then Some(s.entries[k]) else None
  }

  /** What the record leaves at an index it touches. */
  function Leaves(r: WalRecord): Option<Entry> {
    if r.EntryRecord? then Some(r.entry) else None
  }

  /** The last record touching an index decides what a replay holds there. */
  lemma LastTouchDecides(rs: seq<WalRecord>, r: WalRecord, k: u64)
    ensures EntryAt(Fold(rs + [r]), k) == if Touches(r, k) then Leaves(r) else EntryAt(Fold(rs), k)
  {
    FoldSnoc(EMPTY_VIEW, rs, r);
  }

  // ---- streams of kept and dropped records ----

  datatype Tagged = Tagged(record: WalRecord, kept: bool)

  function Whole(ts: seq<Tagged>): seq<WalRecord> {
    if ts == [] then [] else Whole(ts[..|ts| - 1]) + [ts[|ts| - 1].record]
  }

  function Kept(ts: seq<Tagged>): seq<WalRecord> {
    if ts == [] then []
    else
      var front := Kept(ts[..|ts| - 1]);
      if ts[|ts| - 1].kept then front + [ts[|ts| - 1].record] else front
  }

  /** A surviving write of the index, a dropped marker after it that voided it, and no surviving
      record after the write that writes or voids it again. */
  ghost predicate Resurrected(ts: seq<Tagged>, k: u64) {
    exists i, j :: 0 <= i < j < |ts| && Revives(ts, k, i, j)
  }

  ghost predicate Revives(ts: seq<Tagged>, k: u64, i: int, j: int)
    requires 0 <= i < j < |ts|
  {
    && ts[i].kept && ts[i].record.EntryRecord? && Touches(ts[i].record, k)
    && !ts[j].kept && !ts[j].record.EntryRecord? && Touches(ts[j].record, k)
    && forall l :: i < l < |ts| && ts[l].kept ==> !Touches(ts[l].record, k)
  }

  /** The last record touching the index is not a dropped write. */
  ghost predicate EndsWell(ts: seq<Tagged>, k: u64) {
    forall i :: 0 <= i < |ts| && !ts[i].kept && ts[i].record.EntryRecord? && Touches(ts[i].record, k) ==>
      exists j :: i < j < |ts| && Touches(ts[j].record, k)
  }

  /** The last surviving write of an index survives every later survivor. */
  lemma {:induction false} KeptLast(ts: seq<Tagged>, k: u64) returns (i: int)
    ensures -1 <= i < |ts| && forall l :: i < l < |ts| && ts[l].kept ==> !Touches(ts[l].record, k)
    ensures i >= 0 ==> ts[i].kept && Touches(ts[i].record, k)
    ensures EntryAt(Fold(Kept(ts)), k) == if i >= 0 then Leaves(ts[i].record) else None
  {
    hide FoldFrom, Touches, Leaves;
    i := -1;
    if ts == [] {
      NothingFolded(k);
    } else {
      var front, t := ts[..|ts| - 1], ts[|ts| - 1];
      i := KeptLast(front, k);
      if t.kept {
        LastTouchDecides(Kept(front), t.record, k);
        if Touches(t.record, k) {
          i := |front|;
        }
      }
    }
  }

  lemma {:induction false} WholeLast(ts: seq<Tagged>, k: u64) returns (i: int)
    ensures -1 <= i < |ts| && forall l :: i < l < |ts| ==> !Touches(ts[l].record, k)
    ensures i >= 0 ==> Touches(ts[i].record, k)
    ensures EntryAt(Fold(Whole(ts)), k) == if i >= 0 then Leaves(ts[i].record) else None
  {
    hide FoldFrom, Touches, Leaves;
    i := -1;
    if ts == [] {
      NothingFolded(k);
    } else {
      var front, t := ts[..|ts| - 1], ts[|ts| - 1];
      i := WholeLast(front, k);
      LastTouchDecides(Whole(front), t.record, k);
      if Touches(t.record, k) {
        i := |front|;
      }
    }
  }

  lemma NothingFolded(k: u64)
    ensures EntryAt(Fold([]), k) == None
  {
  }

  /** Dropping records changes what a replay holds at an index exactly when it revives a write. */
  lemma IndexIsExact(ts: seq<Tagged>, k: u64)
    requires EndsWell(ts, k)
    ensures EntryAt(Fold(Kept(ts)), k) == EntryAt(Fold(Whole(ts)), k) <==> !Resurrected(ts, k)
  {
    hide FoldFrom, Touches;
    var i := KeptLast(ts, k);
    var j := WholeLast(ts, k);
    if j >= 0 && ts[j].kept {
      assert i == j;
    }
    if j >= 0 && !ts[j].kept {
      assert !ts[j].record.EntryRecord?;
      if i >= 0 && ts[i].record.EntryRecord? {
        assert Revives(ts, k, i, j);
      }
    }
    if Resurrected(ts, k) {
      var a, b :| 0 <= a < b < |ts| && Revives(ts, k, a, b);
      assert i == a && j >= b;
    }
  }

  /** The survivors replay to the same entries exactly when no index is resurrected. */
  lemma EntriesAreExact(ts: seq<Tagged>)
    requires forall k: u64 :: EndsWell(ts, k)
    ensures Fold(Kept(ts)).entries == Fold(Whole(ts)).entries <==> forall k: u64 :: !Resurrected(ts, k)
  {
    hide FoldFrom, Resurrected, EndsWell;
    var a, b := Fold(Kept(ts)), Fold(Whole(ts));
    forall k: u64
      ensures EntryAt(a, k) == EntryAt(b, k) <==> !Resurrected(ts, k)
    {
      IndexIsExact(ts, k);
    }
    if forall k: u64 :: !Resurrected(ts, k) {
      SameEverywhere(a, b);
    }
  }

  lemma SameEverywhere(a: LogView, b: LogView)
    requires forall k: u64 :: EntryAt(a, k) == EntryAt(b, k)
    ensures a.entries == b.entries
  {
    forall k: u64
      ensures k in a.entries <==> k in b.entries
      ensures k in a.entries ==> a.entries[k] == b.entries[k]
    {
      assert EntryAt(a, k) == EntryAt(b, k);
    }
  }

  // ---- the purge point of a replay ----

  function LastPurge(rs: seq<WalRecord>): Option<LogId> {
    if rs == [] then None
    else if rs[|rs| - 1].Purge? then Some(rs[|rs| - 1].logId)
    else LastPurge(rs[..|rs| - 1])
  }

  /** The purge point of the first checkpoint that carries one. */
  function FirstPurged(rs: seq<WalRecord>): Option<LogId> {
    if rs == [] then None
    else
      var front, last := FirstPurged(rs[..|rs| - 1]), rs[|rs| - 1];
      if front.None? && last.Checkpoint? then last.lastPurged else front
  }

  /** A replay's purge point: the last Purge record, or without any the first checkpoint's. */
  function PurgePoint(rs: seq<WalRecord>): Option<LogId> {
    if LastPurge(rs).Some? then LastPurge(rs) else FirstPurged(rs)
  }

  lemma {:induction false} FoldPurged(rs: seq<WalRecord>)
    ensures Fold(rs).lastPurged == PurgePoint(rs)
  {
    if rs != [] {
      FoldPurged(rs[..|rs| - 1]);
    }
  }

  // ---- segments ----

  /** All records at or below the index: the segment goes at a purge, once closed. */
  predicate Goes(segment: seq<WalRecord>, index: u64) {
    MaxIndex(segment).None? || MaxIndex(segment).value <= index
  }

  function TagSegment(segment: seq<WalRecord>, kept: bool): (ts: seq<Tagged>)
    ensures |ts| == |segment| && forall i :: 0 <= i < |ts| ==> ts[i] == Tagged(segment[i], kept)
  {
    seq(|segment|, i requires 0 <= i < |segment| => Tagged(segment[i], kept))
  }

  /** The records of the first n segments, dropped where the segment goes; the last of all
      segments is active and never goes. */
  function TagsBelow(segs: seq<seq<WalRecord>>, index: u64, n: nat): seq<Tagged>
    requires n <= |segs|
  {
    if n == 0 then []
    else TagsBelow(segs, index, n - 1) + TagSegment(segs[n - 1], n == |segs| || !Goes(segs[n - 1], index))
  }

  function Tags(segs: seq<seq<WalRecord>>, index: u64): seq<Tagged> {
    TagsBelow(segs, index, |segs|)
  }

  lemma {:induction false} TagConcat(a: seq<Tagged>, b: seq<Tagged>)
    ensures Whole(a + b) == Whole(a) + Whole(b) && Kept(a + b) == Kept(a) + Kept(b)
    decreases |b|
  {
    if b == [] {
      assert a + b == a;
    } else {
      TagConcat(a, b[..|b| - 1]);
      assert (a + b)[..|a + b| - 1] == a + b[..|b| - 1];
    }
  }

  lemma {:induction false} TagSegmentIs(segment: seq<WalRecord>, kept: bool)
    ensures Whole(TagSegment(segment, kept)) == segment
    ensures Kept(TagSegment(segment, kept)) == if kept then segment else []
  {
    hide TagSegment;
    if segment != [] {
      var front, last := segment[..|segment| - 1], segment[|segment| - 1];
      TagSegmentIs(front, kept);
      assert TagSegment(segment, kept)[..|front|] == TagSegment(front, kept);
      assert segment == front + [last];
    }
  }

  /** The files left when the first n closed segments have been considered. */
  function LeftBelow(c: Codec, d: Dir, index: u64, n: nat): Dir {
    if d == [] then []
    else
      var front, last := LeftBelow(c, d[..|d| - 1], index, n), d[|d| - 1];
      if |d| <= n && Goes(Scan(c, last.bytes).records, index) then front else front + [last]
  }

  lemma {:induction false} LeftMembers(c: Codec, d: Dir, index: u64, n: nat)
    ensures forall f :: f in LeftBelow(c, d, index, n) ==> f in d
  {
    hide Goes, Scan;
    if d != [] {
      LeftMembers(c, d[..|d| - 1], index, n);
      assert d == d[..|d| - 1] + [d[|d| - 1]];
    }
  }

  lemma RemoveSnoc(d: Dir, f: SegFile, seqNo: nat)
    ensures Remove(d + [f], seqNo) == Remove(d, seqNo) + if f.seqNo == seqNo then [] else [f]
  {
    assert (d + [f])[..|d|] == d;
  }

  /** One more closed segment considered. */
  lemma {:induction false} LeftStep(c: Codec, d: Dir, index: u64, n: nat)
    requires Ascending(d) && n < |d|
    ensures LeftBelow(c, d, index, n + 1) ==
            if Goes(Scan(c, d[n].bytes).records, index) then Remove(LeftBelow(c, d, index, n), d[n].seqNo)
            else LeftBelow(c, d, index, n)
    decreases |d|
  {
    hide Goes, Scan, Remove;
    var front, last := d[..|d| - 1], d[|d| - 1];
    var before := LeftBelow(c, front, index, n);
    LeftMembers(c, front, index, n);
    if n < |front| {
      LeftStep(c, front, index, n);
      RemoveSnoc(before, last, d[n].seqNo);
    } else {
      LeftStays(c, front, index, n);
      RemoveSnoc(before, last, last.seqNo);
      forall i | 0 <= i < |before|
        ensures before[i].seqNo != last.seqNo
      {
        assert before[i] in front;
        var j :| 0 <= j < |front| && front[j] == before[i];
        assert d[j] == front[j];
      }
      RemoveAbsent(before, last.seqNo);
      assert before + [] == before;
    }
  }

  lemma {:induction false} LeftStays(c: Codec, d: Dir, index: u64, n: nat)
    requires n >= |d|
    ensures LeftBelow(c, d, index, n + 1) == LeftBelow(c, d, index, n)
  {
    hide Goes, Scan;
    if d != [] {
      LeftStays(c, d[..|d| - 1], index, n);
    }
  }

  lemma {:induction false} NothingLeftOut(c: Codec, d: Dir, index: u64)
    ensures LeftBelow(c, d, index, 0) == d
  {
    hide Goes, Scan;
    if d != [] {
      NothingLeftOut(c, d[..|d| - 1], index);
      assert d == d[..|d| - 1] + [d[|d| - 1]];
    }
  }

  /** The closed list is the bookkeeping of the directory's first segments. */
  ghost predicate Keeps(c: Codec, d: Dir, closed: seq<ClosedSegment>) {
    && |closed| <= |d|
    && forall i :: 0 <= i < |closed| ==> closed[i] == ClosedSegment(d[i].seqNo, MaxIndex(Scan(c, d[i].bytes).records))
  }

  /** The unlink loop leaves exactly the segments that stay, holes or not. */
  lemma {:induction false} UnlinkLeaves(c: Codec, d: Dir, closed: seq<ClosedSegment>, index: u64)
    requires Ascending(d) && Keeps(c, d, closed)
    ensures Unlinked(d, closed, index) == LeftBelow(c, d, index, |closed|)
    decreases |closed|
  {
    hide Scan, LeftBelow, MaxIndex;
    if closed == [] {
      NothingLeftOut(c, d, index);
    } else {
      var front := closed[..|closed| - 1];
      UnlinkLeaves(c, d, front, index);
      LeftStep(c, d, index, |front|);
    }
  }

  /** What survives on disk is what the tags keep. */
  lemma {:induction false} LeftRecords(c: Codec, d: Dir, segs: seq<seq<WalRecord>>, index: u64, n: nat)
    requires |segs| > n && |d| == n && forall i :: 0 <= i < n ==> segs[i] == Scan(c, d[i].bytes).records
    ensures DirRecords(c, LeftBelow(c, d, index, n)) == Kept(TagsBelow(segs, index, n))
    ensures DirRecords(c, d) == Whole(TagsBelow(segs, index, n))
    decreases n
  {
    hide Scan, Goes, Kept, Whole;
    if n == 0 {
      TagsOfNothing();
    } else {
      var front, last := d[..n - 1], d[n - 1];
      LeftRecords(c, front, segs, index, n - 1);
      LeftStays(c, front, index, n - 1);
      TagSegmentIs(segs[n - 1], !Goes(segs[n - 1], index));
      TagConcat(TagsBelow(segs, index, n - 1), TagSegment(segs[n - 1], !Goes(segs[n - 1], index)));
      LastRecords(c, LeftBelow(c, front, index, n - 1), last);
      assert Kept(TagsBelow(segs, index, n - 1)) + [] == Kept(TagsBelow(segs, index, n - 1));
    }
  }

  lemma TagsOfNothing()
    ensures Kept([]) == [] && Whole([]) == []
  {
  }

  lemma AllTags(c: Codec, d: Dir, index: u64)
    requires d != []
    ensures var n, ts := |d| - 1, Tags(Segments(c, d), index);
            && DirRecords(c, d) == Whole(ts)
            && DirRecords(c, LeftBelow(c, d[..n], index, n) + [d[n]]) == Kept(ts)
  {
    hide Scan, Goes, MaxIndex, Kept, Whole, DirRecords, LeftBelow, TagSegment;
    var segs, n := Segments(c, d), |d| - 1;
    var front, last := d[..n], d[n];
    LeftRecords(c, front, segs, index, n);
    LastRecords(c, LeftBelow(c, front, index, n), last);
    LastRecords(c, front, last);
    assert d == front + [last];
    TagSegmentIs(segs[n], true);
    TagConcat(TagsBelow(segs, index, n), TagSegment(segs[n], true));
  }

  /** Before and after the unlinks: all records, and the ones the tags keep. */
  lemma TrackedTags(c: Codec, v: WalView, index: u64)
    requires Tracked(c, v)
    ensures v.dir != []
    ensures var ts := Tags(Segments(c, v.dir), index);
            && DirRecords(c, v.dir) == Whole(ts)
            && DirRecords(c, Unlinked(v.dir, v.closed, index)) == Kept(ts)
  {
    hide Scan, Goes, MaxIndex, Kept, Whole, DirRecords, Unlinked, LeftBelow, Tags, Segments, Durable;
    TrackedClosed(c, v);
    UnlinkLeaves(c, v.dir, v.closed, index);
    AllTags(c, v.dir, index);
    LeftOfLast(c, v.dir, index);
  }

  lemma LeftOfLast(c: Codec, d: Dir, index: u64)
    requires d != []
    ensures LeftBelow(c, d, index, |d| - 1) == LeftBelow(c, d[..|d| - 1], index, |d| - 1) + [d[|d| - 1]]
  {
  }

  // ---- the purge call ----

  lemma {:induction false} WholeAt(ts: seq<Tagged>)
    ensures |Whole(ts)| == |ts| && forall i :: 0 <= i < |ts| ==> Whole(ts)[i] == ts[i].record
  {
    if ts != [] {
      WholeAt(ts[..|ts| - 1]);
    }
  }

  /** A dropped write lies at or below the purge point. */
  lemma {:induction false} DroppedWrites(segs: seq<seq<WalRecord>>, index: u64, n: nat)
    requires n <= |segs|
    ensures forall t :: t in TagsBelow(segs, index, n) && !t.kept && t.record.EntryRecord? ==> t.record.entry.logId.index <= index
  {
    hide MaxIndex;
    if n > 0 {
      DroppedWrites(segs, index, n - 1);
      var segment, kept := segs[n - 1], n == |segs| || !Goes(segs[n - 1], index);
      TagSegmentIs(segment, kept);
      var ts := TagSegment(segment, kept);
      forall t | t in ts && !t.kept && t.record.EntryRecord?
        ensures t.record.entry.logId.index <= index
      {
        var i :| 0 <= i < |ts| && ts[i] == t;
        MaxIndexBounds(segment, i);
      }
    }
  }

  /** With the Purge record behind them, dropped writes never come last. */
  lemma PurgeEndsWell(ts: seq<Tagged>, before: seq<WalRecord>, logId: LogId, tail: seq<WalRecord>, k: u64)
    requires Whole(ts) == before + [Purge(logId)] + tail && forall r :: r in tail ==> r.Checkpoint?
    requires forall t :: t in ts && !t.kept && t.record.EntryRecord? ==> t.record.entry.logId.index <= logId.index
    ensures EndsWell(ts, k)
  {
    WholeAt(ts);
    var p := |before|;
    assert ts[p].record == Whole(ts)[p] == Purge(logId);
    forall j | p < j < |ts|
      ensures ts[j].record.Checkpoint?
    {
      assert ts[j].record == tail[j - p - 1] && tail[j - p - 1] in tail;
    }
    forall i | 0 <= i < |ts| && !ts[i].kept && ts[i].record.EntryRecord? && Touches(ts[i].record, k)
      ensures exists j :: i < j < |ts| && Touches(ts[j].record, k)
    {
      assert ts[i] in ts;
      assert i < p && Touches(ts[p].record, k);
    }
  }

  /** A Purge record with nothing but checkpoints behind it, when it survives, is the purge point. */
  lemma SurvivingPurge(ts: seq<Tagged>, before: seq<WalRecord>, logId: LogId, tail: seq<WalRecord>)
    requires Whole(ts) == before + [Purge(logId)] + tail && forall r :: r in tail ==> r.Checkpoint?
    ensures |ts| > |before|
    ensures ts[|before|].kept ==> PurgePoint(Kept(ts)) == Some(logId)
  {
    WholeAt(ts);
    var p := |before|;
    assert ts[p].record == Whole(ts)[p] == Purge(logId);
    forall j | p < j < |ts|
      ensures ts[j].record.Checkpoint?
    {
      assert ts[j].record == tail[j - p - 1] && tail[j - p - 1] in tail;
    }
    if ts[p].kept {
      LastPurgeStays(ts, p);
    }
  }

  lemma {:induction false} LastPurgeStays(ts: seq<Tagged>, p: nat)
    requires p < |ts| && ts[p].kept && ts[p].record.Purge?
    requires forall j :: p < j < |ts| ==> ts[j].record.Checkpoint?
    ensures LastPurge(Kept(ts)) == Some(ts[p].record.logId)
    decreases |ts|
  {
    if p < |ts| - 1 {
      LastPurgeStays(ts[..|ts| - 1], p);
      var front := Kept(ts[..|ts| - 1]);
      assert ts[|ts| - 1].kept ==> Kept(ts)[..|Kept(ts)| - 1] == front;
    }
  }

  lemma StreamTail(c: Codec, v: WalView, logId: LogId)
    requires v.dir != []
    ensures var tail := if Full(Written(c, v, Purge(logId))) then [CheckpointOf(v.state)] else [];
            Stream(c, v, Purge(logId)) == [Purge(logId)] + tail
  {
    hide Full, Written;
  }

  lemma PurgeTagsEndWell(c: Codec, v: WalView, logId: LogId, k: u64)
    requires c.Valid() && c.Fits(Purge(logId)) && Quiescent(c, v)
    ensures v.dir != [] && EndsWell(Tags(Segments(c, Marked(c, v, logId).dir), logId.index), k)
  {
    hide DirRecords, Tracked, Full, Written, Marked, Whole, Kept, TagsBelow, EndsWell;
    TrackedHasDir(c, v);
    MarkedRecords(c, v, logId);
    StreamTail(c, v, logId);
    var m := Marked(c, v, logId);
    var segs := Segments(c, m.dir);
    var ts := Tags(segs, logId.index);
    TrackedTags(c, m, logId.index);
    DroppedWrites(segs, logId.index, |segs|);
    var tail := if Full(Written(c, v, Purge(logId))) then [CheckpointOf(v.state)] else [];
    assert Whole(ts) == DirRecords(c, v.dir) + [Purge(logId)] + tail;
    PurgeEndsWell(ts, DirRecords(c, v.dir), logId, tail, k);
  }

  /**
   The exact condition on a purge. Of the records on disk once the Purge record is written,
   tag the ones whose segment goes. RAM and the replay of the survivors then agree on the
   entries exactly when no index is resurrected, and on the purge point exactly when the
   survivors still end in this one.
   */
  lemma PurgeIsExact(c: Codec, v: WalView, logId: LogId)
    requires c.Valid() && c.Fits(Purge(logId)) && Quiescent(c, v)
    requires SameLog(v.state, Fold(DirRecords(c, v.dir)))
    ensures v.dir != []
    ensures var ts := Tags(Segments(c, Marked(c, v, logId).dir), logId.index);
            var w := Done(c, v, PurgeTo(logId));
            && Whole(ts) == DirRecords(c, v.dir) + Stream(c, v, Purge(logId)) && Kept(ts) == DirRecords(c, w.dir)
            && (Fold(DirRecords(c, w.dir)).entries == w.state.entries <==> forall k: u64 :: !Resurrected(ts, k))
            && (Fold(DirRecords(c, w.dir)).lastPurged == w.state.lastPurged <==> PurgePoint(Kept(ts)) == Some(logId))
            && (SameLog(w.state, Fold(DirRecords(c, w.dir))) <==>
                  (forall k: u64 :: !Resurrected(ts, k)) && PurgePoint(Kept(ts)) == Some(logId))
            && |ts| > |DirRecords(c, v.dir)|
            && (ts[|DirRecords(c, v.dir)|].kept ==> PurgePoint(Kept(ts)) == Some(logId))
  {
    hide DirRecords, FoldFrom, Tracked, Issued, Full, Written, Marked, Whole, Kept, TagsBelow, Resurrected, EndsWell, PurgePoint;
    TrackedHasDir(c, v);
    MarkedRecords(c, v, logId);
    MarkedReplay(c, v, logId);
    DoneIsReclaimed(c, v, logId);
    StreamTail(c, v, logId);
    var m := Marked(c, v, logId);
    var segs := Segments(c, m.dir);
    var ts := Tags(segs, logId.index);
    TrackedTags(c, m, logId.index);
    var tail := if Full(Written(c, v, Purge(logId))) then [CheckpointOf(v.state)] else [];
    assert Whole(ts) == DirRecords(c, v.dir) + [Purge(logId)] + tail;
    forall k: u64
      ensures EndsWell(ts, k)
    {
      PurgeTagsEndWell(c, v, logId, k);
    }
    EntriesAreExact(ts);
    FoldPurged(Kept(ts));
    assert m.state.lastPurged == Some(logId);
    SurvivingPurge(ts, DirRecords(c, v.dir), logId, tail);
  }

  // ---- the purge point by the guards of the code ----

  lemma PurgePointBehind(rs: seq<WalRecord>, logId: LogId, k: WalRecord)
    requires k.Checkpoint?
    ensures PurgePoint(rs + [Purge(logId)]) == Some(logId) == PurgePoint(rs + [Purge(logId)] + [k])
    ensures PurgePoint(rs + [k]) == if PurgePoint(rs).Some? then PurgePoint(rs) else k.lastPurged
  {
    var marked := rs + [Purge(logId)];
    assert marked[..|rs|] == rs && (marked + [k])[..|marked|] == marked && (rs + [k])[..|rs|] == rs;
  }

  /** The segments closed before the call that stay. */
  function EarlierLeft(v: WalView, index: u64): Dir
    requires v.dir != []
  {
    Unlinked(v.dir[..|v.dir| - 1], v.closed, index)
  }

  lemma EarlierRecords(c: Codec, v: WalView, segs: seq<seq<WalRecord>>, index: u64)
    requires Tracked(c, v) && |segs| >= |v.dir|
    requires forall i :: 0 <= i < |v.dir| - 1 ==> segs[i] == Segments(c, v.dir)[i]
    ensures v.dir != [] && DirRecords(c, EarlierLeft(v, index)) == Kept(TagsBelow(segs, index, |v.dir| - 1))
  {
    hide Scan, MaxIndex, DirRecords, Kept, TagsBelow, Unlinked, LeftBelow, Durable;
    var n := |v.dir| - 1;
    var front := v.dir[..n];
    assert Ascending(front) by { FrontAscends(c, v.dir); }
    UnlinkLeaves(c, front, v.closed, index);
    LeftRecords(c, front, segs, index, n);
  }

  lemma FrontAscends(c: Codec, d: Dir)
    requires d != [] && Durable(c, d)
    ensures Ascending(d[..|d| - 1])
  {
  }

  /** What the tags keep from segment n on, when at most one more follows it. */
  lemma KeptFrom(segs: seq<seq<WalRecord>>, index: u64, n: nat)
    requires n < |segs| <= n + 2
    ensures var earlier := Kept(TagsBelow(segs, index, n));
            Kept(Tags(segs, index)) ==
              if |segs| == n + 1 then earlier + segs[n]
              else earlier + (if Goes(segs[n], index) then [] else segs[n]) + segs[n + 1]
  {
    hide Goes, Kept, Whole, TagSegment;
    var kept := n + 1 == |segs| || !Goes(segs[n], index);
    var below := TagsBelow(segs, index, n);
    TagSegmentIs(segs[n], kept);
    TagConcat(below, TagSegment(segs[n], kept));
    assert TagsBelow(segs, index, n + 1) == below + TagSegment(segs[n], kept);
    if |segs| == n + 2 {
      TagSegmentIs(segs[n + 1], true);
      TagConcat(TagsBelow(segs, index, n + 1), TagSegment(segs[n + 1], true));
    }
  }

  /** The survivors: earlier segments that stay, the one that got the record, and the one
      a rotation opened. */
  lemma SurvivorsOfPurge(c: Codec, v: WalView, logId: LogId)
    requires c.Valid() && c.Fits(Purge(logId)) && Quiescent(c, v)
    ensures v.dir != []
    ensures var earlier := DirRecords(c, EarlierLeft(v, logId.index));
            var last := Segments(c, v.dir)[|v.dir| - 1] + [Purge(logId)];
            Kept(Tags(Segments(c, Marked(c, v, logId).dir), logId.index)) ==
              if !Full(Written(c, v, Purge(logId))) then earlier + last
              else earlier + (if Goes(last, logId.index) then [] else last) + [CheckpointOf(v.state)]
  {
    hide Scan, Goes, DirRecords, Kept, Tags, TagsBelow, Segments, Marked, EarlierLeft, Full, Written, CheckpointOf, Tracked,
         FrameRecord, Codec.Valid, Codec.Fits, AddTo;
    TrackedHasDir(c, v);
    MarkedSegments(c, v, logId);
    var segs, n := Segments(c, Marked(c, v, logId).dir), |v.dir| - 1;
    var tail := if Full(Written(c, v, Purge(logId))) then [[CheckpointOf(v.state)]] else [];
    assert segs == AddTo(Segments(c, v.dir), Purge(logId)) + tail;
    AddedShape(Segments(c, v.dir), Purge(logId), tail);
    EarlierRecords(c, v, segs, logId.index);
    KeptFrom(segs, logId.index, n);
  }

  lemma AddedShape(segs: seq<seq<WalRecord>>, r: WalRecord, tail: seq<seq<WalRecord>>)
    requires segs != []
    ensures var n, out := |segs| - 1, AddTo(segs, r) + tail;
            && |out| == |segs| + |tail| && out[n] == segs[n] + [r]
            && (forall i :: 0 <= i < n ==> out[i] == segs[i])
            && (|tail| == 1 ==> out[n + 1] == tail[0])
  {
  }

  lemma LastClosedGoes(c: Codec, v: WalView, logId: LogId)
    requires c.Valid() && c.Fits(Purge(logId)) && Quiescent(c, v)
    ensures v.dir != []
    ensures Full(Written(c, v, Purge(logId))) ==>
              var closed := Issued(c, v, Purge(logId)).closed;
              && closed != []
              && (Removable(closed[|closed| - 1], logId.index) <==>
                    Goes(Segments(c, v.dir)[|v.dir| - 1] + [Purge(logId)], logId.index))
  {
    hide Scan, Segments, Full, Written, Tracked, Issued, FrameRecord;
    TrackedHasDir(c, v);
    IssuedIsTracked(c, v, Purge(logId));
    IssuedSegments(c, v, Purge(logId));
    if Full(Written(c, v, Purge(logId))) {
      var m := Issued(c, v, Purge(logId));
      ClosedSegmentIs(c, m, |v.dir| - 1);
    }
  }

  lemma ClosedSegmentIs(c: Codec, v: WalView, i: nat)
    requires Tracked(c, v) && i < |v.dir| - 1
    ensures |v.closed| == |v.dir| - 1 && v.closed[i].maxIndex == MaxIndex(Segments(c, v.dir)[i])
  {
    hide Scan, MaxIndex, Durable;
  }

  /**
   When the replay of the survivors ends in this purge point: the Purge record did not fill its
   segment, or that segment stays, or the earlier segments that stay end in this purge point,
   or they name none and RAM had it.
   */
  lemma PurgePointIsExact(c: Codec, v: WalView, logId: LogId)
    requires c.Valid() && c.Fits(Purge(logId)) && Quiescent(c, v)
    requires SameLog(v.state, Fold(DirRecords(c, v.dir)))
    ensures v.dir != []
    ensures var closed, w := Issued(c, v, Purge(logId)).closed, Done(c, v, PurgeTo(logId));
            var earlier := PurgePoint(DirRecords(c, EarlierLeft(v, logId.index)));
            Fold(DirRecords(c, w.dir)).lastPurged == w.state.lastPurged <==>
              !Full(Written(c, v, Purge(logId))) ||
              (closed != [] && !Removable(closed[|closed| - 1], logId.index)) ||
              (if earlier.Some? then earlier else v.state.lastPurged) == Some(logId)
  {
    hide DirRecords, Quiescent, Removable, Issued, Full, Written, FoldFrom, SameLog, Tags, Segments, Marked, EarlierLeft, Goes,
         PurgePoint, Kept, Whole, Resurrected, Done;
    PurgeIsExact(c, v, logId);
    SurvivorsOfPurge(c, v, logId);
    LastClosedGoes(c, v, logId);
    var earlier, last := DirRecords(c, EarlierLeft(v, logId.index)), Segments(c, v.dir)[|v.dir| - 1];
    var k := CheckpointOf(v.state);
    PurgePointBehind(earlier + last, logId, k);
    PurgePointBehind(earlier, logId, k);
    assert earlier + (last + [Purge(logId)]) == earlier + last + [Purge(logId)];
    assert earlier + [] == earlier;
  }

  // ---- without holes ----

  lemma AllRemovable(closed: seq<ClosedSegment>, index: u64)
    requires RemovablePrefix(closed, index) && closed != [] && Removable(closed[|closed| - 1], index)
    ensures forall s :: s in closed ==> Removable(s, index)
  {
  }

  lemma RotationCloses(c: Codec, v: WalView, r: WalRecord)
    requires v.dir != [] && Full(Written(c, v, r))
    ensures Issued(c, v, r).closed != []
  {
    hide FrameRecord;
  }

  /** Everything is unlinked but the checkpoint that heads the new segment, and that is all
      right for the entries: none was above the purge point. */
  lemma LostRecordKeepsEntries(c: Codec, v: WalView, logId: LogId)
    requires c.Valid() && c.Fits(Purge(logId)) && Quiescent(c, v)
    requires SameLog(v.state, Fold(DirRecords(c, v.dir)))
    requires Full(Written(c, v, Purge(logId)))
    requires forall s :: s in Issued(c, v, Purge(logId)).closed ==> Removable(s, logId.index)
    ensures var w := Done(c, v, PurgeTo(logId));
            SameLog(w.state, Fold(DirRecords(c, w.dir))) <==> v.state.lastPurged == Some(logId)
  {
    hide DirRecords, Tracked, Scan, MaxIndex, Removable, Marked, Issued, Full, Written, FoldFrom, EntriesUpTo;
    TrackedHasDir(c, v);
    LostPurgeRecord(c, v, logId);
    MarkedRecords(c, v, logId);
    DoneIsReclaimed(c, v, logId);
    StreamTail(c, v, logId);
    var m := Marked(c, v, logId);
    TrackedClosed(c, m);
    var n := |m.closed|;
    var d := m.dir[..n];
    forall i | 0 <= i < |d|
      ensures Removable(ClosedSegment(d[i].seqNo, MaxIndex(Scan(c, d[i].bytes).records)), logId.index)
    {
      assert m.closed[i] in m.closed;
    }
    RemovableEntries(c, d, logId.index);
    MarkedTail(c, v, logId);
    LastRecords(c, d, m.dir[n]);
    assert m.dir == d + [m.dir[n]];
    var before := DirRecords(c, v.dir);
    assert DirRecords(c, d) == before + [Purge(logId)] by {
      assert before + Stream(c, v, Purge(logId)) == before + [Purge(logId)] + [CheckpointOf(v.state)];
      PrefixesAgree(DirRecords(c, d), before + [Purge(logId)], [CheckpointOf(v.state)]);
    }
    FrontEntries(before, Purge(logId), logId.index);
    NothingAbove(before, logId.index);
    FoldOne(EMPTY_VIEW, CheckpointOf(v.state));
    assert Fold([CheckpointOf(v.state)]).entries == map[];
  }

  lemma FrontEntries(rs: seq<WalRecord>, r: WalRecord, index: u64)
    requires EntriesUpTo(rs + [r], index)
    ensures EntriesUpTo(rs, index)
  {
    assert forall x :: x in rs ==> x in rs + [r];
  }

  lemma PrefixesAgree<T>(a: seq<T>, b: seq<T>, tail: seq<T>)
    requires a + tail == b + tail
    ensures a == b
  {
    assert |a| == |b|;
    assert a == (a + tail)[..|a|] && b == (b + tail)[..|b|];
  }

  /**
   When the segments that go form a prefix, the log keeps its meaning unless the Purge record
   filled its segment, that segment goes too, and this purge had not been made before.
   */
  lemma PrefixPurgeIsExact(c: Codec, v: WalView, logId: LogId)
    requires c.Valid() && c.Fits(Purge(logId)) && Quiescent(c, v)
    requires SameLog(v.state, Fold(DirRecords(c, v.dir)))
    requires v.dir != [] && RemovablePrefix(Issued(c, v, Purge(logId)).closed, logId.index)
    ensures var closed, w := Issued(c, v, Purge(logId)).closed, Done(c, v, PurgeTo(logId));
            SameLog(w.state, Fold(DirRecords(c, w.dir))) <==>
              !Full(Written(c, v, Purge(logId))) ||
              (closed != [] && !Removable(closed[|closed| - 1], logId.index)) ||
              v.state.lastPurged == Some(logId)
  {
    hide DirRecords, Quiescent, Removable, Issued, Full, Written, FoldFrom, SameLog, RemovablePrefix;
    var closed := Issued(c, v, Purge(logId)).closed;
    if PurgeSafe(c, v, logId) {
      PurgeIsTracked(c, v, logId);
    } else {
      RotationCloses(c, v, Purge(logId));
      AllRemovable(closed, logId.index);
      LostRecordKeepsEntries(c, v, logId);
    }
  }
}
