/**
 Segment reclamation: what unlinking closed segments at a purge does to the meaning of the
 log, including a crash part-way through the unlinks.
 */
module WalReclaim {
  import opened Prelude
  import opened RaftTypes
  import opened WalFrames
  import opened WalRecords
  import opened WalSpec
  import opened WalCrash

  /** Equal up to the commit pointer. */
  predicate SameLog(a: LogView, b: LogView) {
    a.entries == b.entries && a.lastPurged == b.lastPurged
  }

  // ---- dropping a prefix of the records ----

  ghost predicate EntriesUpTo(rs: seq<WalRecord>, index: u64) {
    forall r :: r in rs && r.EntryRecord? ==> r.entry.logId.index <= index
  }

  ghost predicate SameAbove(a: LogView, b: LogView, index: u64) {
    forall k :: k > index ==>
      (k in a.entries <==> k in b.entries) && (k in a.entries ==> a.entries[k] == b.entries[k])
  }

  lemma {:induction false} NothingAbove(rs: seq<WalRecord>, index: u64)
    requires EntriesUpTo(rs, index)
    ensures forall k :: k in Fold(rs).entries ==> k <= index
  {
    if rs != [] {
      NothingAbove(rs[..|rs| - 1], index);
    }
  }

  lemma {:induction false} SameAboveFold(a: LogView, b: LogView, rs: seq<WalRecord>, index: u64)
    requires SameAbove(a, b, index)
    ensures SameAbove(FoldFrom(a, rs), FoldFrom(b, rs), index)
  {
    if rs != [] {
      SameAboveFold(a, b, rs[..|rs| - 1], index);
    }
  }

  /** Records whose entries all lie at or below the purge point can go, as long as the
      Purge record itself stays. */
  lemma DropIsInvisible(dropped: seq<WalRecord>, kept: seq<WalRecord>, logId: LogId, tail: seq<WalRecord>)
    requires EntriesUpTo(dropped, logId.index)
    requires tail == [] || (|tail| == 1 && tail[0].Checkpoint?)
    ensures SameLog(Fold(dropped + (kept + [Purge(logId)] + tail)), Fold(kept + [Purge(logId)] + tail))
  {
    var rest := kept + [Purge(logId)];
    FoldConcat(EMPTY_VIEW, dropped, rest + tail);
    NothingAbove(dropped, logId.index);
    SameAboveFold(Fold(dropped), EMPTY_VIEW, kept, logId.index);
    FoldSnoc(Fold(dropped), kept, Purge(logId));
    FoldSnoc(EMPTY_VIEW, kept, Purge(logId));
    assert SameLog(FoldFrom(Fold(dropped), rest), Fold(rest));
    if tail == [] {
      assert rest + tail == rest;
    } else {
      assert rest + tail == rest + [tail[0]];
      FoldSnoc(Fold(dropped), rest, tail[0]);
      FoldSnoc(EMPTY_VIEW, rest, tail[0]);
    }
  }

  // ---- unlinking whole segments ----

  /** No removable segment follows one that stays. */
  ghost predicate RemovablePrefix(closed: seq<ClosedSegment>, index: u64) {
    forall i, j :: 0 <= i < j < |closed| && Removable(closed[j], index) ==> Removable(closed[i], index)
  }

  function RemovableCount(closed: seq<ClosedSegment>, index: u64): (n: nat)
    ensures n <= |closed|
  {
    if closed == [] then 0
    else RemovableCount(closed[..|closed| - 1], index) + if Removable(closed[|closed| - 1], index) then 1 else 0
  }

  lemma {:induction false} CountMarksPrefix(closed: seq<ClosedSegment>, index: u64)
    requires RemovablePrefix(closed, index)
    ensures forall i :: 0 <= i < |closed| ==> (Removable(closed[i], index) <==> i < RemovableCount(closed, index))
  {
    if closed != [] {
      CountMarksPrefix(closed[..|closed| - 1], index);
    }
  }

  lemma {:induction false} AllCounted(closed: seq<ClosedSegment>, index: u64)
    requires forall s :: s in closed ==> Removable(s, index)
    ensures RemovableCount(closed, index) == |closed|
  {
    if closed != [] {
      AllCounted(closed[..|closed| - 1], index);
    }
  }

  lemma LastRemovable(closed: seq<ClosedSegment>, index: u64)
    requires closed != [] && RemovablePrefix(closed, index) && Removable(closed[|closed| - 1], index)
    ensures RemovableCount(closed[..|closed| - 1], index) == |closed| - 1
    ensures RemovableCount(closed, index) == |closed|
  {
    AllCounted(closed[..|closed| - 1], index);
  }

  lemma {:induction false} RemoveAbsent(d: Dir, seqNo: nat)
    requires forall i :: 0 <= i < |d| ==> d[i].seqNo != seqNo
    ensures Remove(d, seqNo) == d
  {
    if d != [] {
      RemoveAbsent(d[..|d| - 1], seqNo);
      assert d == d[..|d| - 1] + [d[|d| - 1]];
    }
  }

  lemma {:induction false} RemoveFirst(d: Dir)
    requires d != [] && Ascending(d)
    ensures Remove(d, d[0].seqNo) == d[1..]
  {
    var front := d[..|d| - 1];
    if front == [] {
      assert Remove(front, d[0].seqNo) == [];
    } else {
      RemoveFirst(front);
      assert d[1..] == front[1..] + [d[|d| - 1]];
    }
  }

  /** The closed list names the directory's segments, in order. */
  ghost predicate Names(d: Dir, closed: seq<ClosedSegment>) {
    |closed| <= |d| && forall i :: 0 <= i < |closed| ==> closed[i].seqNo == d[i].seqNo
  }

  /** Removing a removable prefix removes a prefix of the directory. */
  lemma {:induction false} UnlinkDropsPrefix(d: Dir, closed: seq<ClosedSegment>, index: u64)
    requires Ascending(d) && Names(d, closed) && RemovablePrefix(closed, index)
    ensures Unlinked(d, closed, index) == d[RemovableCount(closed, index)..]
  {
    if closed != [] {
      var front, last := closed[..|closed| - 1], closed[|closed| - 1];
      UnlinkDropsPrefix(d, front, index);
      CountMarksPrefix(closed, index);
      CountMarksPrefix(front, index);
      if Removable(last, index) {
        LastRemovable(closed, index);
        RemoveFirst(d[|front|..]);
        assert d[|front|..][1..] == d[|closed|..];
      }
    }
  }

  lemma {:induction false} UnlinkVisitsArePrefixes(d: Dir, closed: seq<ClosedSegment>, index: u64, x: Dir)
    requires Ascending(d) && Names(d, closed) && RemovablePrefix(closed, index)
    requires x in UnlinkVisits(d, closed, index)
    ensures exists i :: 0 < i <= RemovableCount(closed, index) && x == d[i..]
  {
    var front, last := closed[..|closed| - 1], closed[|closed| - 1];
    if x in UnlinkVisits(d, front, index) {
      UnlinkVisitsArePrefixes(d, front, index, x);
    } else {
      UnlinkDropsPrefix(d, closed, index);
    }
  }

  lemma {:induction false} SurvivingDropsPrefix(closed: seq<ClosedSegment>, index: u64)
    requires RemovablePrefix(closed, index)
    ensures Surviving(closed, index) == closed[RemovableCount(closed, index)..]
  {
    if closed != [] {
      var front, last := closed[..|closed| - 1], closed[|closed| - 1];
      SurvivingDropsPrefix(front, index);
      CountMarksPrefix(closed, index);
      CountMarksPrefix(front, index);
      if Removable(last, index) {
        LastRemovable(closed, index);
      }
      assert closed == front + [last];
    }
  }

  lemma {:induction false} DirRecordsSplit(c: Codec, d: Dir, i: nat)
    requires i <= |d|
    ensures DirRecords(c, d) == DirRecords(c, d[..i]) + DirRecords(c, d[i..])
    decreases |d|
  {
    hide Scan;
    if i == |d| {
      assert d[..i] == d && d[i..] == [];
    } else {
      var front := d[..|d| - 1];
      DirRecordsSplit(c, front, i);
      assert front[..i] == d[..i] && d[i..][..|d| - i - 1] == front[i..];
    }
  }

  lemma {:induction false} RemovableEntries(c: Codec, d: Dir, index: u64)
    requires forall i :: 0 <= i < |d| ==>
      Removable(ClosedSegment(d[i].seqNo, MaxIndex(Scan(c, d[i].bytes).records)), index)
    ensures EntriesUpTo(DirRecords(c, d), index)
  {
    hide Scan, MaxIndex;
    if d != [] {
      RemovableEntries(c, d[..|d| - 1], index);
      var records := Scan(c, d[|d| - 1].bytes).records;
      forall r | r in records && r.EntryRecord?
        ensures r.entry.logId.index <= index
      {
        var i :| 0 <= i < |records| && records[i] == r;
        MaxIndexBounds(records, i);
      }
    }
  }

  // ---- the purge call ----

  /** The two guards under which reclamation is safe, both readable before any unlink: the
      removable segments form a prefix, and the Purge record was not rotated into one. */
  ghost predicate PurgeSafe(c: Codec, v: WalView, logId: LogId)
    requires v.dir != []
  {
    var closed := Issued(c, v, Purge(logId)).closed;
    && RemovablePrefix(closed, logId.index)
    && (Full(Written(c, v, Purge(logId))) ==> closed != [] && !Removable(closed[|closed| - 1], logId.index))
  }

  /** The directory once the Purge record is synced and before any unlink. */
  function Marked(c: Codec, v: WalView, logId: LogId): (w: WalView)
    requires v.dir != []
    ensures w.dir != []
  {
    Synced(Issued(c, v, Purge(logId)))
  }

  lemma MarkedFiles(c: Codec, v: WalView, logId: LogId, i: nat)
    requires v.dir != [] && i < |v.dir|
    ensures i < |Marked(c, v, logId).dir| && Marked(c, v, logId).dir[..i] == v.dir[..i]
    ensures |Marked(c, v, logId).dir| == |v.dir| + if Full(Written(c, v, Purge(logId))) then 1 else 0
  {
    hide FrameRecord, Full, ApplyRecord;
  }

  lemma MarkedRecords(c: Codec, v: WalView, logId: LogId)
    requires c.Valid() && c.Fits(Purge(logId)) && Quiescent(c, v)
    ensures var w := Marked(c, v, logId);
            && Quiescent(c, w)
            && DirRecords(c, w.dir) == DirRecords(c, v.dir) + Stream(c, v, Purge(logId))
            && w.closed == Issued(c, v, Purge(logId)).closed
            && w.state == ApplyRecord(v.state, Purge(logId))
  {
    hide Tracked, DirRecords, SafeRecords, Appended, ApplyRecord, Stream;
    QuiescentIsSafe(c, v);
    IssuedIsTracked(c, v, Purge(logId));
    SyncIsTracked(c, Issued(c, v, Purge(logId)));
  }

  lemma IssuedIsTracked(c: Codec, v: WalView, r: WalRecord)
    requires c.Valid() && c.Fits(r) && Tracked(c, v)
    ensures var w := Issued(c, v, r);
            && Tracked(c, w)
            && DirRecords(c, w.dir) == DirRecords(c, v.dir) + Stream(c, v, r)
  {
    hide DirRecords, Stream, Durable, Appended;
    AppendIsTracked(c, v, r, SafeRecords(c, v.dir));
  }

  /** The directory after the first i removals. */
  function Partly(c: Codec, v: WalView, logId: LogId, i: nat): Dir
    requires v.dir != []
  {
    var d := Marked(c, v, logId).dir;
    if i <= |d| then d[i..] else []
  }

  lemma DropCount(c: Codec, v: WalView, logId: LogId)
    requires Quiescent(c, v) && PurgeSafe(c, v, logId) && Quiescent(c, Marked(c, v, logId))
    ensures RemovableCount(Marked(c, v, logId).closed, logId.index) < |v.dir|
  {
    hide Tracked, Issued, Full, Written, Durable;
    TrackedHasDir(c, v);
    var w := Marked(c, v, logId);
    var closed := w.closed;
    assert |closed| == |w.dir| - 1 by { TrackedClosed(c, w); }
    MarkedFiles(c, v, logId, |v.dir| - 1) by { TrackedHasDir(c, v); }
    CountMarksPrefix(closed, logId.index);
  }

  lemma TrackedClosed(c: Codec, v: WalView)
    requires Tracked(c, v)
    ensures v.dir != [] && Ascending(v.dir) && |v.closed| == |v.dir| - 1 && Names(v.dir, v.closed)
    ensures forall i :: 0 <= i < |v.closed| ==>
      v.closed[i] == ClosedSegment(v.dir[i].seqNo, MaxIndex(Scan(c, v.dir[i].bytes).records))
  {
    hide Scan, MaxIndex;
    assert forall i :: 0 <= i < |v.dir| - 1 ==> v.dir[..|v.dir| - 1][i] == v.dir[i];
  }

  /** However many of the removable segments a crash leaves behind, the survivors replay to
      the same entries and the same purge point. */
  lemma PurgeKeepsMeaning(c: Codec, v: WalView, logId: LogId, i: nat)
    requires c.Valid() && c.Fits(Purge(logId)) && Quiescent(c, v) && PurgeSafe(c, v, logId)
    requires i <= RemovableCount(Marked(c, v, logId).closed, logId.index)
    ensures var w := Marked(c, v, logId);
            && i < |v.dir| && i < |w.dir|
            && SameLog(Fold(DirRecords(c, w.dir)), Fold(DirRecords(c, Partly(c, v, logId, i))))
            && DirRecords(c, w.dir) == DirRecords(c, w.dir[..i]) + DirRecords(c, Partly(c, v, logId, i))
  {
    hide Tracked, DirRecords, FoldFrom, Marked, PurgeSafe, Removable, SameLog, EntriesUpTo;
    MarkedRecords(c, v, logId);
    DropCount(c, v, logId);
    MarkedFiles(c, v, logId, i);
    var w := Marked(c, v, logId);
    DirRecordsSplit(c, w.dir, i);
    DirRecordsSplit(c, v.dir, i);
    var dropped, before := DirRecords(c, w.dir[..i]), DirRecords(c, v.dir);
    var kept := DirRecords(c, v.dir[i..]);
    var tail := if Full(Written(c, v, Purge(logId))) then [CheckpointOf(v.state)] else [];
    assert Stream(c, v, Purge(logId)) == [Purge(logId)] + tail;
    assert before + Stream(c, v, Purge(logId)) == dropped + (kept + [Purge(logId)] + tail);
    assert DirRecords(c, w.dir) == dropped + (kept + [Purge(logId)] + tail);
    assert DirRecords(c, Partly(c, v, logId, i)) == kept + [Purge(logId)] + tail by {
      SuffixesAgree(dropped, DirRecords(c, w.dir[i..]), kept + [Purge(logId)] + tail);
    }
    assert EntriesUpTo(dropped, logId.index) by {
      DroppedEntries(c, v, logId, i);
    }
    DropIsInvisible(dropped, kept, logId, tail);
  }

  lemma SuffixesAgree<T>(a: seq<T>, x: seq<T>, y: seq<T>)
    requires a + x == a + y
    ensures x == y
  {
    assert x == (a + x)[|a|..] && y == (a + y)[|a|..];
  }

  lemma DroppedEntries(c: Codec, v: WalView, logId: LogId, i: nat)
    requires v.dir != [] && PurgeSafe(c, v, logId) && Quiescent(c, Marked(c, v, logId))
    requires i <= RemovableCount(Marked(c, v, logId).closed, logId.index)
    requires i < |Marked(c, v, logId).dir|
    ensures EntriesUpTo(DirRecords(c, Marked(c, v, logId).dir[..i]), logId.index)
  {
    hide Tracked, Issued, Scan, MaxIndex, Full, Written, DirRecords, EntriesUpTo;
    var w := Marked(c, v, logId);
    assert w.closed == Issued(c, v, Purge(logId)).closed;
    assert Tracked(c, w);
    TrackedClosed(c, w);
    CountMarksPrefix(w.closed, logId.index);
    var d := w.dir[..i];
    forall j | 0 <= j < |d|
      ensures Removable(ClosedSegment(d[j].seqNo, MaxIndex(Scan(c, d[j].bytes).records)), logId.index)
    {
      assert w.closed[j] == ClosedSegment(d[j].seqNo, MaxIndex(Scan(c, d[j].bytes).records));
    }
    RemovableEntries(c, d, logId.index);
  }

  lemma PartlyIsDurable(c: Codec, v: WalView, logId: LogId, i: nat)
    requires v.dir != [] && Quiescent(c, Marked(c, v, logId)) && i < |Marked(c, v, logId).dir|
    ensures var d := Partly(c, v, logId, i);
            && Durable(c, d) && d[|d| - 1].synced == |d[|d| - 1].bytes|
            && SafeRecords(c, d) == DirRecords(c, d)
  {
    hide Scan, DirRecords, Marked;
    var d := Partly(c, v, logId, i);
    var last := d[|d| - 1];
    assert last.bytes[..last.synced] == last.bytes;
    assert Crashed(d, last.synced) == d;
  }

  /** After a safe purge has unlinked everything removable the bookkeeping still describes
      the directory, and RAM and the replay agree on entries and purge point. */
  lemma PurgeIsTracked(c: Codec, v: WalView, logId: LogId)
    requires c.Valid() && c.Fits(Purge(logId)) && Quiescent(c, v) && PurgeSafe(c, v, logId)
    requires SameLog(v.state, Fold(DirRecords(c, v.dir)))
    ensures var w := Done(c, v, PurgeTo(logId));
            && Quiescent(c, w)
            && w.state == ApplyRecord(v.state, Purge(logId))
            && w.dir == Partly(c, v, logId, RemovableCount(Marked(c, v, logId).closed, logId.index))
            && SameLog(w.state, Fold(DirRecords(c, w.dir)))
  {
    hide DirRecords, FoldFrom, Durable, ApplyRecord, Scan, MaxIndex, FrameRecord, Removable, Marked, PurgeSafe, Appended;
    TrackedHasDir(c, v);
    MarkedRecords(c, v, logId);
    var m := Marked(c, v, logId);
    DoneIsReclaimed(c, v, logId);
    TrackedClosed(c, m);
    assert RemovablePrefix(m.closed, logId.index) by { SafeIsPrefix(c, v, logId); }
    var n := RemovableCount(m.closed, logId.index);
    UnlinkDropsPrefix(m.dir, m.closed, logId.index);
    SurvivingDropsPrefix(m.closed, logId.index);
    PurgeKeepsMeaning(c, v, logId, n);
    PartlyIsDurable(c, v, logId, n);
    var w := Reclaimed(m, logId.index);
    assert m.dir[..|m.dir| - 1][n..] == w.dir[..|w.dir| - 1];
    assert w.closed == ClosedOf(c, w.dir[..|w.dir| - 1]);
    MarkedReplay(c, v, logId);
  }

  lemma SafeIsPrefix(c: Codec, v: WalView, logId: LogId)
    requires v.dir != [] && PurgeSafe(c, v, logId)
    ensures RemovablePrefix(Marked(c, v, logId).closed, logId.index)
  {
    hide Issued;
  }

  lemma DoneIsReclaimed(c: Codec, v: WalView, logId: LogId)
    requires v.dir != []
    ensures Done(c, v, PurgeTo(logId)) == Reclaimed(Marked(c, v, logId), logId.index)
  {
    hide Issued;
    SingleIssue(c, v, Purge(logId));
  }

  lemma MarkedReplay(c: Codec, v: WalView, logId: LogId)
    requires c.Valid() && c.Fits(Purge(logId)) && Quiescent(c, v)
    requires SameLog(v.state, Fold(DirRecords(c, v.dir)))
    ensures v.dir != [] && SameLog(Marked(c, v, logId).state, Fold(DirRecords(c, Marked(c, v, logId).dir)))
  {
    hide DirRecords, Quiescent, Marked, Full, Written;
    QuiescentIsSafe(c, v);
    MarkedRecords(c, v, logId);
    var before := DirRecords(c, v.dir);
    FoldSnoc(EMPTY_VIEW, before, Purge(logId));
    if Full(Written(c, v, Purge(logId))) {
      assert before + Stream(c, v, Purge(logId)) == before + [Purge(logId)] + [CheckpointOf(v.state)];
      FoldSnoc(EMPTY_VIEW, before + [Purge(logId)], CheckpointOf(v.state));
    } else {
      assert before + Stream(c, v, Purge(logId)) == before + [Purge(logId)];
    }
  }

  /** Without the second guard: when the Purge record fills its segment and everything closed
      is removable, the record goes with its segment, and replay remembers the purge only if
      it had already been made. */
  lemma LostPurgeRecord(c: Codec, v: WalView, logId: LogId)
    requires c.Valid() && c.Fits(Purge(logId)) && Quiescent(c, v)
    requires SameLog(v.state, Fold(DirRecords(c, v.dir)))
    requires Full(Written(c, v, Purge(logId)))
    requires forall s :: s in Issued(c, v, Purge(logId)).closed ==> Removable(s, logId.index)
    ensures var w := Done(c, v, PurgeTo(logId));
            && DirRecords(c, w.dir) == [CheckpointOf(v.state)]
            && (Fold(DirRecords(c, w.dir)).lastPurged == w.state.lastPurged <==> v.state.lastPurged == Some(logId))
  {
    hide DirRecords, Tracked, Scan, MaxIndex, Removable, Marked, Issued, Full, Written;
    TrackedHasDir(c, v);
    MarkedRecords(c, v, logId);
    var m := Marked(c, v, logId);
    DoneIsReclaimed(c, v, logId);
    TrackedClosed(c, m);
    UnlinkDropsPrefix(m.dir, m.closed, logId.index);
    AllCounted(m.closed, logId.index);
    MarkedTail(c, v, logId);
    var d := m.dir[|m.closed|..];
    assert d == [m.dir[|m.dir| - 1]];
    LastRecords(c, [], d[0]);
    NoRecords(c);
    assert [] + d == d && [] + [CheckpointOf(v.state)] == [CheckpointOf(v.state)];
    SingleCheckpoint(v.state);
  }

  lemma NoRecords(c: Codec)
    ensures DirRecords(c, []) == []
  {
  }

  lemma SingleCheckpoint(s: LogView)
    ensures Fold([CheckpointOf(s)]).lastPurged == s.lastPurged
  {
    FoldOne(EMPTY_VIEW, CheckpointOf(s));
  }

  lemma MarkedTail(c: Codec, v: WalView, logId: LogId)
    requires c.Valid() && v.dir != [] && Full(Written(c, v, Purge(logId)))
    ensures var d := Marked(c, v, logId).dir;
            Scan(c, d[|d| - 1].bytes).records == [CheckpointOf(v.state)]
  {
    hide Scan, FrameRecord, Codec.Fits, Codec.Valid;
    var k := CheckpointOf(v.state);
    CheckpointFits(c, v.state);
    assert Scan(c, []) == Scanned([], 0, false) by { ScanStops(c, []); }
    ScanAppends(c, [], k);
    assert [] + FrameRecord(c, k) == FrameRecord(c, k);
  }
}
