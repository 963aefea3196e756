/**
 What the replayed log is, read off the positions of its records: which entry each index
 holds, the purge point and the commit pointer; and which files a purge leaves.
 */
module WalMeanings {
  import opened Prelude
  import opened RaftTypes
  import opened WalFrames
  import opened WalRecords
  import opened WalSpec
  import opened WalHoles

  // ---- entries ----

  /** The record puts something at the index or takes it away. */
  predicate Touches(r: WalRecord, index: u64) {
    match r
    case EntryRecord(e) => e.logId.index == index
    case TruncateFrom(from) => from <= index
    case Purge(logId) => index <= logId.index
    case _ => false
  }

  /** Record i is this entry and nothing later touches its index. */
  ghost predicate LastPut(rs: seq<WalRecord>, i: nat, e: Entry) {
    i < |rs| && rs[i] == EntryRecord(e) && forall j :: i < j < |rs| ==> !Touches(rs[j], e.logId.index)
  }

  predicate Stores(m: map<u64, Entry>, e: Entry) {
    e.logId.index in m && m[e.logId.index] == e
  }

  lemma LastPutSnoc(front: seq<WalRecord>, last: WalRecord, e: Entry)
    ensures (exists i: nat :: LastPut(front + [last], i, e)) <==>
            last == EntryRecord(e) || (!Touches(last, e.logId.index) && exists i: nat :: LastPut(front, i, e))
  {
    hide Touches;
    var rs := front + [last];
    assert rs[|front|] == last && forall j :: 0 <= j < |front| ==> rs[j] == front[j];
    if last == EntryRecord(e) {
      assert LastPut(rs, |front|, e);
    }
    if i: nat :| LastPut(front, i, e) {
      assert !Touches(last, e.logId.index) ==> LastPut(rs, i, e);
    }
    if i: nat :| LastPut(rs, i, e) {
      assert i < |front| ==> LastPut(front, i, e) && !Touches(rs[|front|], e.logId.index);
    }
  }

  /** The log holds an entry exactly when it was put there and nothing later touched its index. */
  lemma {:induction false} EntriesAreLastPuts(rs: seq<WalRecord>, e: Entry)
    ensures Stores(Fold(rs).entries, e) <==> exists i: nat :: LastPut(rs, i, e)
  {
    if rs != [] {
      var front, last := rs[..|rs| - 1], rs[|rs| - 1];
      EntriesAreLastPuts(front, e);
      assert rs == front + [last];
      LastPutSnoc(front, last, e);
      RecordDecides(Fold(front), last, e);
    }
  }

  lemma RecordDecides(s: LogView, r: WalRecord, e: Entry)
    ensures Stores(ApplyRecord(s, r).entries, e) <==>
            r == EntryRecord(e) || (!Touches(r, e.logId.index) && Stores(s.entries, e))
  {
  }

  lemma {:induction false} EntriesSitAtTheirIndex(rs: seq<WalRecord>, index: u64)
    requires index in Fold(rs).entries
    ensures Fold(rs).entries[index].logId.index == index
  {
    if rs != [] {
      var front := rs[..|rs| - 1];
      if index in Fold(front).entries {
        EntriesSitAtTheirIndex(front, index);
      }
    }
  }

  /** The last of the entries for an index. */
  ghost predicate LastAt(entries: seq<Entry>, e: Entry) {
    exists i :: 0 <= i < |entries| && entries[i] == e &&
      forall j :: i < j < |entries| ==> entries[j].logId.index != e.logId.index
  }

  lemma LastAtSnoc(front: seq<Entry>, last: Entry, e: Entry)
    ensures LastAt(front + [last], e) <==> if last.logId.index == e.logId.index then last == e else LastAt(front, e)
  {
    var all := front + [last];
    assert all[|front|] == last && forall i :: 0 <= i < |front| ==> all[i] == front[i];
    if i :| 0 <= i < |front| && front[i] == e && forall j :: i < j < |front| ==> front[j].logId.index != e.logId.index {
      assert all[i] == e;
    }
  }

  lemma {:induction false} AppendsMean(s: LogView, entries: seq<Entry>, e: Entry)
    ensures var t := FoldFrom(s, EntryRecords(entries));
            && t.lastPurged == s.lastPurged && t.committed == s.committed
            && (Stores(t.entries, e) <==>
                  LastAt(entries, e) ||
                  (Stores(s.entries, e) && Untouched(entries, e.logId.index)))
    decreases |entries|
  {
    hide FoldFrom, ApplyRecord, LastAt, Stores;
    if entries == [] {
      NoAppends(s, e);
    } else {
      var front, last := entries[..|entries| - 1], entries[|entries| - 1];
      AppendsMean(s, front, e);
      assert entries == front + [last];
      assert EntryRecords(entries) == EntryRecords(front) + [EntryRecord(last)];
      FoldSnoc(s, EntryRecords(front), EntryRecord(last));
      RecordDecides(FoldFrom(s, EntryRecords(front)), EntryRecord(last), e);
      PointersStep(FoldFrom(s, EntryRecords(front)), EntryRecord(last));
      LastAtSnoc(front, last, e);
      assert Untouched(entries, e.logId.index) <==> Untouched(front, e.logId.index) && last.logId.index != e.logId.index;
    }
  }

  lemma NoAppends(s: LogView, e: Entry)
    ensures FoldFrom(s, EntryRecords([])) == s && !LastAt([], e)
  {
  }

  /** None of the entries has the index. */
  predicate Untouched(entries: seq<Entry>, index: u64) {
    forall i :: 0 <= i < |entries| ==> entries[i].logId.index != index
  }

  /** What the records of one call make of the log: the last appended entry per index, nothing
      from a truncated index on, nothing up to the purge point, the pointer saved; and no more. */
  lemma CallsMean(s: LogView, op: Op, e: Entry)
    ensures var t := FoldFrom(s, OpRecords(op));
            match op
            case AppendEntries(entries) =>
              && t.lastPurged == s.lastPurged && t.committed == s.committed
              && (Stores(t.entries, e) <==>
                    LastAt(entries, e) ||
                    (Stores(s.entries, e) && Untouched(entries, e.logId.index)))
            case Truncate(index) =>
              && t.lastPurged == s.lastPurged && t.committed == s.committed
              && (Stores(t.entries, e) <==> Stores(s.entries, e) && e.logId.index < index)
            case PurgeTo(logId) =>
              && t.lastPurged == Some(logId) && t.committed == s.committed
              && (Stores(t.entries, e) <==> Stores(s.entries, e) && e.logId.index > logId.index)
            case SaveCommitted(p) =>
              t.committed == p && t.lastPurged == s.lastPurged && t.entries == s.entries
  {
    match op
    case AppendEntries(entries) => AppendsMean(s, entries, e);
    case Truncate(index) => FoldOne(s, TruncateFrom(index));
    case PurgeTo(logId) => FoldOne(s, Purge(logId));
    case SaveCommitted(p) => FoldOne(s, Committed(p));
  }

  // ---- the purge point and the commit pointer ----

  /** What a record does to one of the two pointers: nothing, set it, or fill it when unset. */
  datatype Effect = Nothing | Put(pointer: Option<LogId>) | Offer(pointer: Option<LogId>)

  function OnPurgePoint(r: WalRecord): Effect {
    match r
    case Purge(logId) => Put(Some(logId))
    case Checkpoint(p, _) => Offer(p)
    case _ => Nothing
  }

  function OnCommitted(r: WalRecord): Effect {
    match r
    case Committed(p) => Put(p)
    case Checkpoint(_, p) => Offer(p)
    case _ => Nothing
  }

  /** From record m on, just after the pointer was cleared or at the start, nothing set it. */
  ghost predicate UnsetFrom(effect: WalRecord -> Effect, rs: seq<WalRecord>, m: nat) {
    && m <= |rs|
    && (m == 0 || effect(rs[m - 1]) == Put(None))
    && forall j :: m <= j < |rs| ==> effect(rs[j]) == Nothing || effect(rs[j]) == Offer(None)
  }

  ghost predicate Unset(effect: WalRecord -> Effect, rs: seq<WalRecord>) {
    exists m: nat :: UnsetFrom(effect, rs, m)
  }

  /** Record i gave the pointer its value: nothing later sets it, and an offer found it unset. */
  ghost predicate GivenBy(effect: WalRecord -> Effect, rs: seq<WalRecord>, i: nat, p: LogId) {
    && i < |rs|
    && (effect(rs[i]) == Put(Some(p)) || (effect(rs[i]) == Offer(Some(p)) && Unset(effect, rs[..i])))
    && forall j :: i < j < |rs| ==> !effect(rs[j]).Put?
  }

  ghost predicate Given(effect: WalRecord -> Effect, rs: seq<WalRecord>, p: LogId) {
    exists i: nat :: GivenBy(effect, rs, i, p)
  }

  lemma UnsetSnoc(effect: WalRecord -> Effect, front: seq<WalRecord>, last: WalRecord)
    ensures Unset(effect, front + [last]) <==>
            effect(last) == Put(None) ||
            ((effect(last) == Nothing || effect(last) == Offer(None)) && Unset(effect, front))
  {
    var rs := front + [last];
    assert rs[|front|] == last && forall j :: 0 <= j < |front| ==> rs[j] == front[j];
    if effect(last) == Put(None) {
      assert UnsetFrom(effect, rs, |rs|);
    }
    if m: nat :| UnsetFrom(effect, front, m) {
      assert effect(last) == Nothing || effect(last) == Offer(None) ==> UnsetFrom(effect, rs, m);
    }
    if m: nat :| UnsetFrom(effect, rs, m) {
      assert m <= |front| ==> UnsetFrom(effect, front, m) && effect(rs[|front|]) == effect(last);
    }
  }

  lemma GivenSnoc(effect: WalRecord -> Effect, front: seq<WalRecord>, last: WalRecord, p: LogId)
    ensures Given(effect, front + [last], p) <==>
            effect(last) == Put(Some(p)) ||
            (effect(last) == Offer(Some(p)) && Unset(effect, front)) ||
            (!effect(last).Put? && Given(effect, front, p))
  {
    hide Unset;
    var rs := front + [last];
    assert rs[|front|] == last && rs[..|front|] == front && forall j :: 0 <= j < |front| ==> rs[j] == front[j];
    if effect(last) == Put(Some(p)) || (effect(last) == Offer(Some(p)) && Unset(effect, front)) {
      assert GivenBy(effect, rs, |front|, p);
    }
    if i: nat :| GivenBy(effect, front, i, p) {
      assert rs[..i] == front[..i];
      assert !effect(last).Put? ==> GivenBy(effect, rs, i, p);
    }
    if i: nat :| GivenBy(effect, rs, i, p) {
      if i < |front| {
        assert rs[..i] == front[..i];
        assert GivenBy(effect, front, i, p) && !effect(rs[|front|]).Put?;
      }
    }
  }

  /** The value after one more record. */
  function Next(before: Option<LogId>, effect: Effect): Option<LogId> {
    match effect
    case Nothing => before
    case Put(p) => p
    case Offer(p) => if before.None? then p else before
  }

  lemma PointersStep(s: LogView, r: WalRecord)
    ensures ApplyRecord(s, r).lastPurged == Next(s.lastPurged, OnPurgePoint(r))
    ensures ApplyRecord(s, r).committed == Next(s.committed, OnCommitted(r))
  {
  }

  ghost predicate Explained(effect: WalRecord -> Effect, rs: seq<WalRecord>, pointer: Option<LogId>) {
    && (pointer.None? <==> Unset(effect, rs))
    && forall p :: pointer == Some(p) <==> Given(effect, rs, p)
  }

  lemma ExplainedSnoc(effect: WalRecord -> Effect, front: seq<WalRecord>, last: WalRecord, before: Option<LogId>)
    requires Explained(effect, front, before)
    ensures Explained(effect, front + [last], Next(before, effect(last)))
  {
    hide Unset, Given;
    UnsetSnoc(effect, front, last);
    forall p
      ensures Next(before, effect(last)) == Some(p) <==> Given(effect, front + [last], p)
    {
      GivenSnoc(effect, front, last, p);
    }
  }

  /** The purge point and the commit pointer are each given by the record described, or unset. */
  lemma {:induction false} PointersAreGiven(rs: seq<WalRecord>)
    ensures Explained(OnPurgePoint, rs, Fold(rs).lastPurged)
    ensures Explained(OnCommitted, rs, Fold(rs).committed)
  {
    hide Explained, ApplyRecord;
    if rs == [] {
      NothingGiven(OnPurgePoint);
      NothingGiven(OnCommitted);
    } else {
      var front, last := rs[..|rs| - 1], rs[|rs| - 1];
      PointersAreGiven(front);
      assert rs == front + [last];
      PointersStep(Fold(front), last);
      ExplainedSnoc(OnPurgePoint, front, last, Fold(front).lastPurged);
      ExplainedSnoc(OnCommitted, front, last, Fold(front).committed);
    }
  }

  lemma NothingGiven(effect: WalRecord -> Effect)
    ensures Explained(effect, [], None)
  {
    assert UnsetFrom(effect, [], 0);
  }

  // ---- highest index and segment bounds ----

  /** The recorded maximum is the index of some entry, and missing only without entries. */
  lemma {:induction false} MaxIndexIsReached(rs: seq<WalRecord>)
    ensures MaxIndex(rs).None? <==> forall i :: 0 <= i < |rs| ==> !rs[i].EntryRecord?
    ensures MaxIndex(rs).Some? ==>
              exists i :: 0 <= i < |rs| && rs[i].EntryRecord? && rs[i].entry.logId.index == MaxIndex(rs).value
  {
    if rs != [] {
      var front := rs[..|rs| - 1];
      MaxIndexIsReached(front);
      assert rs[|rs| - 1] == rs[|front|];
    }
  }

  /** An append leaves less than a full segment active, and closes one exactly when the record
      filled it. */
  lemma AppendStaysBounded(c: Codec, v: WalView, r: WalRecord)
    requires c.Valid() && c.Fits(r) && v.dir != []
    ensures var w, size := Appended(c, v, r), v.segment.bytes + FRAME_HEADER + |c.encode(r)|;
            && w.segment.bytes < SEGMENT_MAX_BYTES
            && (size < SEGMENT_MAX_BYTES ==> w.segment.seqNo == v.segment.seqNo && w.segment.bytes == size && w.closed == v.closed)
            && (size >= SEGMENT_MAX_BYTES ==>
                  && w.segment.seqNo == v.segment.seqNo + 1
                  && |w.closed| == |v.closed| + 1 && w.closed[..|v.closed|] == v.closed
                  && w.closed[|v.closed|].seqNo == v.segment.seqNo)
  {
    FrameIsLong(c, r);
    FrameIsLong(c, CheckpointOf(v.state));
    assert FRAME_HEADER + |c.encode(Checkpoint(v.state.lastPurged, v.state.committed))| < SEGMENT_MAX_BYTES;
  }

  lemma FrameIsLong(c: Codec, r: WalRecord)
    ensures |FrameRecord(c, r)| == FRAME_HEADER + |c.encode(r)|
  {
  }

  // ---- what a purge leaves on disk ----

  /** The file holds an entry beyond the index. */
  predicate HoldsBeyond(c: Codec, f: SegFile, index: u64) {
    exists i :: 0 <= i < |Scan(c, f.bytes).records| &&
      Scan(c, f.bytes).records[i].EntryRecord? && Scan(c, f.bytes).records[i].entry.logId.index > index
  }

  lemma GoesWithoutEntries(c: Codec, f: SegFile, index: u64)
    ensures Goes(Scan(c, f.bytes).records, index) <==> !HoldsBeyond(c, f, index)
  {
    hide Scan, MaxIndex;
    var rs := Scan(c, f.bytes).records;
    MaxIndexIsReached(rs);
    forall i | 0 <= i < |rs| && rs[i].EntryRecord?
      ensures MaxIndex(rs).Some? && rs[i].entry.logId.index <= MaxIndex(rs).value
    {
      MaxIndexBounds(rs, i);
    }
  }

  lemma {:induction false} LeftFiles(c: Codec, d: Dir, index: u64, n: nat, f: SegFile)
    ensures f in LeftBelow(c, d, index, n) <==>
            exists i :: 0 <= i < |d| && d[i] == f && (i >= n || HoldsBeyond(c, f, index))
  {
    hide Scan, Goes, HoldsBeyond;
    if d != [] {
      var front, last := d[..|d| - 1], d[|d| - 1];
      LeftFiles(c, front, index, n, f);
      GoesWithoutEntries(c, last, index);
      assert forall i :: 0 <= i < |front| ==> front[i] == d[i];
    }
  }

  /** Reclaiming leaves the active file and exactly the closed files that hold an entry beyond
      the index. */
  lemma ReclaimIsExact(c: Codec, v: WalView, index: u64, f: SegFile)
    requires Tracked(c, v)
    ensures var d := Reclaimed(v, index).dir;
            f in d <==> f in v.dir && (f == v.dir[|v.dir| - 1] || HoldsBeyond(c, f, index))
  {
    hide Scan, HoldsBeyond, Unlinked, LeftBelow;
    UnlinkLeaves(c, v.dir, v.closed, index);
    LeftFiles(c, v.dir, index, |v.closed|, f);
  }
}
