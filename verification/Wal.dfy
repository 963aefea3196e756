/** The write-ahead log as the source runs it: fields updated by every call. */
module WalLog {
  import opened Prelude
  import opened RaftTypes
  import opened WalFrames
  import opened WalRecords
  import opened WalSpec

  /** Read one frame at an offset: None when the header or the payload is torn, the checksum
      does not match or the payload does not decode. */
  method ReadFrame(c: Codec, bytes: seq<byte>, offset: nat) returns (frame: Option<(nat, WalRecord)>)
    requires offset <= |bytes|
    ensures frame == FirstFrame(c, bytes[offset..])
  {
    ghost var rest := bytes[offset..];
    if offset + FRAME_HEADER > |bytes| {
      return None;
    }
    var length := FromLe(bytes[offset..offset + 4]);
    var crc := FromLe(bytes[offset + 4..offset + 8]);
    assert rest[0..4] == bytes[offset..offset + 4] && rest[4..8] == bytes[offset + 4..offset + 8];
    var start := offset + FRAME_HEADER;
    if start + length > |bytes| {
      return None;
    }
    var payload := bytes[start..start + length];
    assert rest[FRAME_HEADER..FRAME_HEADER + length] == payload;
    if c.crc(payload) != crc {
      return None;
    }
    var decoded := c.decode(payload);
    match decoded
    case None => return None;
    case Some(record) => return Some((FRAME_HEADER + length, record));
  }

  /** The scan loop over one segment's bytes, folding each good record as it goes. */
  method ScanSegment(c: Codec, bytes: seq<byte>, state: WalState)
    returns (good: nat, corrupt: bool, maxIndex: Option<u64>)
    modifies state
    ensures var s := Scan(c, bytes);
            && good == s.good && corrupt == s.corrupt
            && maxIndex == MaxIndex(s.records)
            && state.View() == FoldFrom(old(state.View()), s.records)
  {
    hide FirstFrame, ApplyRecord, Scan;
    good, corrupt, maxIndex := 0, false, None;
    var running := true;
    ghost var done: seq<WalRecord> := [];
    assert bytes[0..] == bytes;
    while running
      invariant good <= |bytes|
      invariant maxIndex == MaxIndex(done)
      invariant state.View() == FoldFrom(old(state.View()), done)
      invariant running ==> Scan(c, bytes).records == done + Scan(c, bytes[good..]).records
      invariant running ==> Scan(c, bytes).good == good + Scan(c, bytes[good..]).good
      invariant !running ==> Scan(c, bytes) == Scanned(done, good, corrupt)
      decreases |bytes| - good, running
    {
      var frame := ReadFrame(c, bytes, good);
      match frame {
        case None =>
          ScanStops(c, bytes[good..]);
          corrupt := good != |bytes|;
          running := false;
        case Some((length, record)) =>
          if record.EntryRecord? {
            var index := record.entry.logId.index;
            maxIndex := Some(if maxIndex.None? || maxIndex.value < index then index else maxIndex.value);
          }
          state.Apply(record);
          FoldSnoc(old(state.View()), done, record);
          ScanSteps(c, bytes[good..], length, record, done);
          assert (done + [record])[..|done|] == done;
          assert bytes[good..][length..] == bytes[good + length..];
          done := done + [record];
          good := good + length;
      }
    }
  }

  /** The scan over the segments, ended by the first bad one; `good` is its good offset. */
  method ScanDir(c: Codec, listing: Dir, state: WalState)
    returns (scanned: seq<ClosedSegment>, corrupt: bool, good: nat)
    requires state.View() == EMPTY_VIEW
    modifies state
    ensures corrupt == (FirstBad(c, listing) < |listing|)
    ensures |scanned| == if corrupt then FirstBad(c, listing) + 1 else |listing|
    ensures corrupt ==> good == Scan(c, listing[|scanned| - 1].bytes).good
    ensures scanned == ClosedOf(c, listing[..|scanned|])
    ensures state.View() == Fold(DirRecords(c, listing[..|scanned|]))
  {
    hide Scan, FoldFrom;
    scanned, corrupt, good := [], false, 0;
    EmptyFold();
    while |scanned| < |listing| && !corrupt
      invariant |scanned| <= |listing|
      invariant state.View() == Fold(DirRecords(c, listing[..|scanned|]))
      invariant scanned == ClosedOf(c, listing[..|scanned|])
      invariant forall j :: 0 <= j < |scanned| - 1 ==> Clean(c, listing[j].bytes)
      invariant |scanned| > 0 ==> corrupt == !Clean(c, listing[|scanned| - 1].bytes)
      invariant corrupt ==> |scanned| > 0 && good == Scan(c, listing[|scanned| - 1].bytes).good
    {
      var i := |scanned|;
      var maxIndex;
      good, corrupt, maxIndex := ScanSegment(c, listing[i].bytes, state);
      assert listing[..i + 1][..i] == listing[..i];
      FoldConcat(EMPTY_VIEW, DirRecords(c, listing[..i]), Scan(c, listing[i].bytes).records);
      scanned := scanned + [ClosedSegment(listing[i].seqNo, maxIndex)];
    }
    FirstBadIs(c, listing, if corrupt then |scanned| - 1 else |listing|);
  }

  lemma EmptyDirectory(c: Codec)
    ensures FirstBad(c, []) == 0 && DirRecords(c, []) == [] && Fold([]) == EMPTY_VIEW
  {
  }

  lemma EmptyFold()
    ensures Fold([]) == EMPTY_VIEW
  {
  }

  class Wal {
    const codec: Codec
    const state: WalState
    var dir: Dir
    var segment: Segment
    var closed: seq<ClosedSegment>
    /** Every state the directory has been through since it was opened. */
    ghost var visited: seq<Dir>

    function View(): WalView
      reads this, state
    {
      WalView(dir, segment, closed, state.View())
    }

    /** Open a listed directory, recovering the longest clean record prefix. */
    constructor Open(c: Codec, listing: Dir)
      requires Ascending(listing)
      ensures codec == c && View() == Opened(c, listing)
      ensures fresh(state) && visited == [dir]
    {
      hide Scan, FoldFrom, DirRecords, FirstBad, MaxIndex;
      var st := new WalState();
      var scanned, corrupt, good := ScanDir(c, listing, st);
      var i := |scanned|;
      var kept := listing;
      if corrupt {
        kept := listing[..i - 1] + [SegFile(listing[i - 1].seqNo, listing[i - 1].bytes[..good], good)];
        TruncatedDirRecords(c, listing, i - 1);
        TruncationIsClean(c, listing[i - 1].bytes);
      } else {
        assert listing[..i] == listing;
      }
      assert kept == CleanPrefix(c, listing);
      assert scanned == ClosedOf(c, kept);
      assert st.View() == Fold(DirRecords(c, kept));

      // The highest segment becomes the active one, unless it was dropped above.
      var active := Segment(0, 0, None);
      if i == |listing| > 0 {
        active := Segment(listing[i - 1].seqNo, |kept[i - 1].bytes|, scanned[i - 1].maxIndex);
        scanned := scanned[..i - 1];
        assert scanned == ClosedOf(c, kept[..i - 1]);
      } else if kept != [] && kept[0].seqNo == 0 {
        active := Segment(0, |kept[0].bytes|, scanned[0].maxIndex);
        scanned := scanned[1..];
      } else {
        kept := [SegFile(0, [], 0)] + kept;
      }
      codec, state, dir, segment, closed := c, st, kept, active, scanned;
      visited := [kept];
      new;
      EmptyDirectory(c);
      assert View() == Opened(c, listing);
    }

    method WriteFrame(record: WalRecord)
      requires dir != []
      modifies this`dir, this`segment, this`visited
      ensures View() == Written(codec, old(View()), record)
      ensures visited == old(visited) + [dir]
    {
      hide WriteActive;
      var framed := FrameRecord(codec, record);
      dir := WriteActive(dir, framed);
      visited := visited + [dir];
      segment := segment.(bytes := segment.bytes + |framed|);
      if record.EntryRecord? {
        var index := record.entry.logId.index;
        var m := segment.maxIndex;
        segment := segment.(maxIndex := Some(if m.None? || m.value < index then index else m.value));
      }
    }

    /** Append one record. Not yet durable: callers sync before they acknowledge. */
    method Append(record: WalRecord)
      requires codec.Valid() && dir != []
      requires record.Checkpoint? ==> segment.bytes == 0
      modifies this
      ensures View() == Appended(codec, old(View()), record)
      ensures visited == old(visited) + AppendVisits(codec, old(View()), record)
      decreases if record.Checkpoint? then 0 else 2
    {
      hide Rotated, NextSegment, SyncActive;
      assert record.Checkpoint? ==> !Full(Written(codec, View(), record));
      WriteFrame(record);
      if segment.bytes >= SEGMENT_MAX_BYTES {
        Rotate();
      }
    }

    method Sync()
      requires dir != []
      modifies this`dir, this`visited
      ensures dir == SyncActive(old(dir)) && visited == old(visited) + [dir]
    {
      dir := SyncActive(dir);
      visited := visited + [dir];
    }

    /** Close the current segment, on disk in full, and create the next. */
    method StartSegment()
      requires dir != []
      modifies this
      ensures View() == NextSegment(old(View()))
      ensures visited == old(visited) + [SyncActive(old(dir)), NextSegment(old(View())).dir]
    {
      hide SyncActive;
      Sync();
      closed := closed + [ClosedSegment(segment.seqNo, segment.maxIndex)];
      dir := dir + [SegFile(segment.seqNo + 1, [], 0)];
      visited := visited + [dir];
      segment := Segment(segment.seqNo + 1, 0, None);
    }

    /** Start the next segment and head it with a checkpoint. The nested append cannot rotate
        again, because a checkpoint frame is smaller than a segment. */
    method Rotate()
      requires codec.Valid() && dir != []
      modifies this
      ensures View() == Rotated(codec, old(View()))
      ensures visited == old(visited) +
                         [SyncActive(old(dir)), NextSegment(old(View())).dir, Rotated(codec, old(View())).dir]
      decreases 1
    {
      hide SyncActive, WriteActive;
      StartSegment();
      var checkpoint := Checkpoint(state.lastPurged, state.committed);
      assert !Full(Written(codec, View(), checkpoint));
      Append(checkpoint);
    }

    /** Append a record, then fold it into RAM. */
    method Issue(record: WalRecord)
      requires codec.Valid() && dir != [] && !record.Checkpoint?
      modifies this, state
      ensures View() == Issued(codec, old(View()), record)
      ensures visited == old(visited) + AppendVisits(codec, old(View()), record)
    {
      hide Appended, ApplyRecord, AppendVisits;
      Append(record);
      state.Apply(record);
    }

    method AppendAll(entries: seq<Entry>)
      requires codec.Valid() && dir != []
      modifies this, state
      ensures View() == Done(codec, old(View()), AppendEntries(entries))
      ensures visited == old(visited) + Visits(codec, old(View()), AppendEntries(entries))
    {
      hide Issued, AppendVisits, SyncActive;
      ghost var v0 := View();
      ghost var rs := EntryRecords(entries);
      for i := 0 to |entries|
        invariant View() == IssuedAll(codec, v0, rs[..i])
        invariant visited == old(visited) + IssueVisits(codec, v0, rs[..i])
      {
        assert rs[..i + 1][..i] == rs[..i];
        Issue(EntryRecord(entries[i]));
      }
      assert rs[..|entries|] == rs;
      Sync();
    }

    method TruncateTo(index: u64)
      requires codec.Valid() && dir != []
      modifies this, state
      ensures View() == Done(codec, old(View()), Truncate(index))
      ensures visited == old(visited) + Visits(codec, old(View()), Truncate(index))
    {
      hide Issued, AppendVisits, SyncActive;
      SingleIssue(codec, View(), TruncateFrom(index));
      Issue(TruncateFrom(index));
      Sync();
    }

    method Purge(logId: LogId)
      requires codec.Valid() && dir != []
      modifies this, state
      ensures View() == Done(codec, old(View()), PurgeTo(logId))
      ensures visited == old(visited) + Visits(codec, old(View()), PurgeTo(logId))
    {
      hide Issued, AppendVisits, SyncActive, Reclaimed, UnlinkVisits;
      SingleIssue(codec, View(), WalFrames.Purge(logId));
      Issue(WalFrames.Purge(logId));
      Sync();
      Reclaim(logId.index);
    }

    /** Unlink closed segments wholly at or below the purge point. */
    method Reclaim(index: u64)
      modifies this`dir, this`closed, this`visited
      ensures View() == Reclaimed(old(View()), index)
      ensures visited == old(visited) + UnlinkVisits(old(dir), old(closed), index)
    {
      hide Remove, Surviving, Unlinked, UnlinkVisits;
      ghost var d0 := dir;
      NothingReclaimed(d0, index);
      assert closed[..0] == [];
      var retained: seq<ClosedSegment> := [];
      for i := 0 to |closed|
        invariant closed == old(closed)
        invariant retained == Surviving(closed[..i], index)
        invariant dir == Unlinked(d0, closed[..i], index)
        invariant visited == old(visited) + UnlinkVisits(d0, closed[..i], index)
      {
        ReclaimSteps(d0, closed, i, index);
        var s := closed[i];
        if s.maxIndex.None? || s.maxIndex.value <= index {
          dir := Remove(dir, s.seqNo);
          visited := visited + [dir];
        } else {
          retained := retained + [s];
        }
      }
      assert closed[..|closed|] == closed;
      closed := retained;
    }

    method SaveCommittedPointer(pointer: Option<LogId>)
      requires codec.Valid() && dir != []
      modifies this, state
      ensures View() == Done(codec, old(View()), SaveCommitted(pointer))
      ensures visited == old(visited) + Visits(codec, old(View()), SaveCommitted(pointer))
    {
      hide Issued, AppendVisits, SyncActive;
      SingleIssue(codec, View(), Committed(pointer));
      Issue(Committed(pointer));
      Sync();
    }
  }

  lemma {:induction false} FirstBadIs(c: Codec, d: Dir, n: nat)
    requires n <= |d|
    requires forall i :: 0 <= i < n ==> Clean(c, d[i].bytes)
    requires n < |d| ==> !Clean(c, d[n].bytes)
    ensures FirstBad(c, d) == n
  {
    hide Clean;
    if d != [] && n < |d| - 1 {
      FirstBadIs(c, d[..|d| - 1], n);
    } else if d != [] {
      FirstBadIs(c, d[..|d| - 1], |d| - 1);
    }
  }

  /** Truncating a bad segment at its good offset loses none of the records scanned. */
  lemma TruncatedDirRecords(c: Codec, d: Dir, n: nat)
    requires n < |d|
    ensures var good := Scan(c, d[n].bytes).good;
            DirRecords(c, d[..n] + [SegFile(d[n].seqNo, d[n].bytes[..good], good)]) == DirRecords(c, d[..n + 1])
  {
    var good := Scan(c, d[n].bytes).good;
    var t := d[..n] + [SegFile(d[n].seqNo, d[n].bytes[..good], good)];
    TruncationIsClean(c, d[n].bytes);
    assert t[..n] == d[..n] && d[..n + 1][..n] == d[..n];
  }
}
