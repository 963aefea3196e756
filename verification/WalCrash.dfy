/**
 Crash refinement: over every run of calls, some of them cut short by a crash at any byte of
 the unsynced tail, the recovered log is the fold of a prefix of the issued records that
 contains every record of every returned call.
 */
module WalCrash {
  import opened Prelude
  import opened RaftTypes
  import opened WalFrames
  import opened WalRecords
  import opened WalSpec

  /** A crash keeps an arbitrary part of the active segment, never less than was synced. */
  function Crashed(d: Dir, cut: nat): Dir
    requires d != [] && cut <= |d[|d| - 1].bytes|
  {
    d[..|d| - 1] + [d[|d| - 1].(bytes := d[|d| - 1].bytes[..cut], synced := cut)]
  }

  predicate CanCut(d: Dir, cut: nat) {
    d != [] && d[|d| - 1].synced <= cut <= |d[|d| - 1].bytes|
  }

  /** What no crash can take away. */
  function SafeRecords(c: Codec, d: Dir): seq<WalRecord> {
    if d != [] && d[|d| - 1].synced <= |d[|d| - 1].bytes| then
      DirRecords(c, Crashed(d, d[|d| - 1].synced))
    else []
  }

  lemma LastRecords(c: Codec, front: Dir, f: SegFile)
    ensures DirRecords(c, front + [f]) == DirRecords(c, front) + Scan(c, f.bytes).records
  {
    assert (front + [f])[..|front|] == front;
  }

  // ---- one crash ----

  /** Recovery of a directory whose last segment alone may be torn. */
  lemma RecoveredTail(c: Codec, front: Dir, f: SegFile)
    requires forall i :: 0 <= i < |front| ==> Clean(c, front[i].bytes)
    requires f.synced == |f.bytes|
    ensures var good := Scan(c, f.bytes).good;
            && FirstBad(c, front + [f]) >= |front|
            && CleanPrefix(c, front + [f]) == front + [SegFile(f.seqNo, f.bytes[..good], good)]
  {
    hide Scan;
    var d := front + [f];
    FirstBadAtTail(c, d);
    assert f.bytes[..|f.bytes|] == f.bytes;
  }

  lemma OpenedTail(c: Codec, front: Dir, f: SegFile)
    requires Durable(c, front + [f]) && f.synced == |f.bytes|
    ensures var w := WalView(front + [f], Segment(f.seqNo, |f.bytes|, MaxIndex(Scan(c, f.bytes).records)),
                             ClosedOf(c, front), Fold(DirRecords(c, front + [f])));
            Quiescent(c, w) && InSync(c, w)
  {
    hide Scan, DirRecords, MaxIndex, FoldFrom;
    assert (front + [f])[..|front|] == front;
  }

  /** The records of the cut tail lie between the synced ones and the written ones. */
  lemma CutRecords(c: Codec, last: SegFile, cut: nat)
    requires Clean(c, last.bytes) && last.synced <= cut <= |last.bytes| && Clean(c, last.bytes[..last.synced])
    ensures IsPrefix(Scan(c, last.bytes[..cut]).records, Scan(c, last.bytes).records)
    ensures IsPrefix(Scan(c, last.bytes[..last.synced]).records, Scan(c, last.bytes[..cut]).records)
  {
    hide Scan;
    CutScansToPrefix(c, last.bytes, cut);
    var safe, rest := last.bytes[..last.synced], last.bytes[last.synced..cut];
    assert last.bytes[..cut] == safe + rest;
    ScanExtends(c, safe, rest);
  }

  /** Whatever the cut, recovery finds every safe record and nothing that was not written,
      and comes up with RAM equal to the replay of the disk. */
  lemma CrashRecovers(c: Codec, d: Dir, cut: nat)
    requires Durable(c, d) && CanCut(d, cut)
    ensures var w := Opened(c, Crashed(d, cut));
            && Quiescent(c, w) && InSync(c, w)
            && IsPrefix(SafeRecords(c, d), DirRecords(c, w.dir))
            && IsPrefix(DirRecords(c, w.dir), DirRecords(c, d))
  {
    hide Scan, DirRecords, FirstBad, MaxIndex, FoldFrom, CleanPrefix, ClosedOf, Quiescent, InSync;
    var front, last := d[..|d| - 1], d[|d| - 1];
    var cutTail := last.(bytes := last.bytes[..cut], synced := cut);
    var s := Scan(c, cutTail.bytes);
    var tail := SegFile(last.seqNo, last.bytes[..s.good], s.good);
    assert cutTail.bytes[..s.good] == tail.bytes;
    RecoveredTail(c, front, cutTail);
    TruncationIsClean(c, cutTail.bytes);
    assert tail.bytes[..s.good] == tail.bytes;
    assert Durable(c, front + [tail]);
    OpenedTail(c, front, tail);
    var w := Opened(c, Crashed(d, cut));
    assert w.dir == front + [tail] && w.dir[..|front|] == front;

    CutRecords(c, last, cut);
    var head := DirRecords(c, front);
    LastRecords(c, front, tail);
    LastRecords(c, front, last);
    LastRecords(c, front, last.(bytes := last.bytes[..last.synced], synced := last.synced));
    assert d == front + [last];
    PrefixUnder(head, s.records, Scan(c, last.bytes).records);
    PrefixUnder(head, Scan(c, last.bytes[..last.synced]).records, s.records);
  }

  lemma PrefixUnder<T>(a: seq<T>, b: seq<T>, d: seq<T>)
    requires IsPrefix(b, d)
    ensures IsPrefix(a + b, a + d)
  {
  }

  lemma FirstBadAtTail(c: Codec, d: Dir)
    requires d != [] && TailDamageOnly(c, d)
    ensures FirstBad(c, d) == if Clean(c, d[|d| - 1].bytes) then |d| else |d| - 1
  {
    var n := FirstBad(c, d);
    if n < |d| - 1 {
      assert false;
    }
  }

  // ---- what one append does to the directory ----

  /** The records one append puts on disk: itself, and a checkpoint when it fills the segment. */
  function Stream(c: Codec, v: WalView, r: WalRecord): seq<WalRecord>
    requires v.dir != []
  {
    [r] + if Full(Written(c, v, r)) then [CheckpointOf(v.state)] else []
  }

  lemma WriteActiveIsDurable(c: Codec, d: Dir, f: seq<byte>, r: WalRecord)
    requires Durable(c, d)
    requires var bytes := d[|d| - 1].bytes;
             Clean(c, bytes + f) && Scan(c, bytes + f).records == Scan(c, bytes).records + [r]
    ensures var w := WriteActive(d, f);
            && Durable(c, w) && |w| == |d| && w[..|d| - 1] == d[..|d| - 1]
            && DirRecords(c, w) == DirRecords(c, d) + [r]
            && SafeRecords(c, w) == SafeRecords(c, d)
  {
    hide Scan;
    var front, last := d[..|d| - 1], d[|d| - 1];
    var w := WriteActive(d, f);
    assert w[..|d| - 1] == front;
    assert (last.bytes + f)[..last.synced] == last.bytes[..last.synced];
    var safe := last.(bytes := last.bytes[..last.synced]);
    assert Crashed(w, last.synced) == front + [safe] == Crashed(d, last.synced);
  }

  lemma WrittenIsTracked(c: Codec, v: WalView, r: WalRecord)
    requires c.Valid() && c.Fits(r) && Tracked(c, v)
    ensures var w := Written(c, v, r);
            && Tracked(c, w) && w.state == v.state
            && DirRecords(c, w.dir) == DirRecords(c, v.dir) + [r]
            && SafeRecords(c, w.dir) == SafeRecords(c, v.dir)
  {
    hide Scan, FrameRecord, Codec.Fits, Codec.Valid, Durable, DirRecords, SafeRecords;
    var last, f := v.dir[|v.dir| - 1], FrameRecord(c, r);
    ScanAppends(c, last.bytes, r) by {
      assert Clean(c, last.bytes) by { LastIsClean(c, v.dir); }
    }
    WriteActiveIsDurable(c, v.dir, f, r);
    var records := Scan(c, last.bytes).records;
    assert (records + [r])[..|records|] == records;
  }

  lemma LastIsClean(c: Codec, d: Dir)
    requires Durable(c, d)
    ensures d != [] && Clean(c, d[|d| - 1].bytes)
  {
  }

  lemma NextIsTracked(c: Codec, v: WalView)
    requires Tracked(c, v)
    ensures var w := NextSegment(v);
            && Tracked(c, w) && w.state == v.state && Durable(c, SyncActive(v.dir))
            && DirRecords(c, w.dir) == DirRecords(c, v.dir) == DirRecords(c, SyncActive(v.dir))
            && SafeRecords(c, w.dir) == DirRecords(c, v.dir) == SafeRecords(c, SyncActive(v.dir))
  {
    SyncIsDurable(c, v.dir);
    var s := SyncActive(v.dir);
    var w := NextSegment(v);
    assert w.dir[..|v.dir|] == s;
    assert Scan(c, []) == Scanned([], 0, false);
    assert MaxIndex([]) == None;
    assert ClosedOf(c, s) == ClosedOf(c, v.dir[..|v.dir| - 1]) + [ClosedSegment(v.segment.seqNo, v.segment.maxIndex)];
    LastRecords(c, s, SegFile(v.segment.seqNo + 1, [], 0));
    assert Crashed(w.dir, 0) == w.dir;
  }

  lemma SyncIsDurable(c: Codec, d: Dir)
    requires Durable(c, d)
    ensures var s := SyncActive(d);
            && Durable(c, s) && |s| == |d| && s[|d| - 1].synced == |s[|d| - 1].bytes|
            && DirRecords(c, s) == DirRecords(c, d) == SafeRecords(c, s)
            && IsPrefix(SafeRecords(c, d), DirRecords(c, d))
  {
    hide Scan;
    var s := SyncActive(d);
    var last := d[|d| - 1];
    assert s[..|d| - 1] == d[..|d| - 1];
    assert last.bytes[..|last.bytes|] == last.bytes;
    CutScansToPrefix(c, last.bytes, last.synced);
    PrefixUnder(DirRecords(c, d[..|d| - 1]), Scan(c, last.bytes[..last.synced]).records, Scan(c, last.bytes).records);
  }

  /** A directory caught somewhere between base and base + more. */
  ghost predicate Between(c: Codec, d: Dir, base: seq<WalRecord>, more: seq<WalRecord>) {
    && Durable(c, d)
    && IsPrefix(base, SafeRecords(c, d))
    && IsPrefix(DirRecords(c, d), more)
  }

  lemma CheckpointFits(c: Codec, s: LogView)
    requires c.Valid()
    ensures c.Fits(CheckpointOf(s))
  {
    assert FRAME_HEADER + |c.encode(Checkpoint(s.lastPurged, s.committed))| < SEGMENT_MAX_BYTES;
  }

  lemma AppendIsTracked(c: Codec, v: WalView, r: WalRecord, base: seq<WalRecord>)
    requires c.Valid() && c.Fits(r) && Tracked(c, v)
    requires IsPrefix(base, SafeRecords(c, v.dir))
    ensures var w := Appended(c, v, r);
            && Tracked(c, w)
            && DirRecords(c, w.dir) == DirRecords(c, v.dir) + Stream(c, v, r)
            && IsPrefix(base, SafeRecords(c, w.dir))
            && forall d :: d in AppendVisits(c, v, r) ==> Between(c, d, base, DirRecords(c, w.dir))
  {
    hide DirRecords, Durable, SafeRecords, CheckpointOf, Written, NextSegment, SyncActive, Codec.Fits, Codec.Valid;
    var w := Written(c, v, r);
    WrittenIsTracked(c, v, r);
    if Full(w) {
      NextIsTracked(c, w);
      SyncIsDurable(c, w.dir);
      CheckpointFits(c, v.state);
      WrittenIsTracked(c, NextSegment(w), CheckpointOf(v.state));
      assert DirRecords(c, Appended(c, v, r).dir) == DirRecords(c, v.dir) + Stream(c, v, r);
    }
  }

  // ---- a whole call ----

  ghost predicate AllFit(c: Codec, rs: seq<WalRecord>) {
    forall r :: r in rs ==> c.Fits(r)
  }

  lemma {:induction false} IssueIsTracked(c: Codec, v: WalView, rs: seq<WalRecord>, base: seq<WalRecord>)
    requires c.Valid() && AllFit(c, rs) && Tracked(c, v)
    requires IsPrefix(base, SafeRecords(c, v.dir))
    ensures var w := IssuedAll(c, v, rs);
            && Tracked(c, w)
            && w.state == FoldFrom(v.state, rs)
            && IsPrefix(DirRecords(c, v.dir), DirRecords(c, w.dir))
            && IsPrefix(base, SafeRecords(c, w.dir))
            && forall d :: d in IssueVisits(c, v, rs) ==> Between(c, d, base, DirRecords(c, w.dir))
  {
    hide DirRecords, SafeRecords, Durable, Appended, AppendVisits, ApplyRecord, Stream;
    if rs != [] {
      var front, r := rs[..|rs| - 1], rs[|rs| - 1];
      IssueIsTracked(c, v, front, base);
      var u := IssuedAll(c, v, front);
      AppendIsTracked(c, u, r, base);
      var w := IssuedAll(c, v, rs);
      assert w.dir == Appended(c, u, r).dir;
      forall d | d in IssueVisits(c, v, rs)
        ensures Between(c, d, base, DirRecords(c, w.dir))
      {
        assert d in IssueVisits(c, v, front) || d in AppendVisits(c, u, r);
      }
    }
  }

  // ---- RAM equals replay, and checkpoints are neutral ----

  /** The hypothesis on callers: a known commit pointer is never reset to None. */
  ghost predicate NeverResets(s: LogView, rs: seq<WalRecord>) {
    forall i :: 0 <= i < |rs| ==> !ResetsCommitted(FoldFrom(s, rs[..i]), rs[i])
  }

  ghost predicate NoCheckpoints(rs: seq<WalRecord>) {
    forall r :: r in rs ==> !r.Checkpoint?
  }

  /** RAM equals the replay of all segments, and every checkpoint on disk is neutral. */
  ghost predicate Exact(c: Codec, v: WalView) {
    InSync(c, v) && Honest(DirRecords(c, v.dir))
  }

  /** One append keeps RAM equal to replay exactly when it does not both fill the segment
      and reset the commit pointer. */
  lemma AppendKeepsSync(c: Codec, v: WalView, r: WalRecord)
    requires c.Valid() && c.Fits(r) && Tracked(c, v) && InSync(c, v)
    ensures InSync(c, Issued(c, v, r)) <==>
            !(v.segment.bytes + |FrameRecord(c, r)| >= SEGMENT_MAX_BYTES && ResetsCommitted(v.state, r))
  {
    hide DirRecords, Durable, ApplyRecord, FrameRecord, Scan;
    var base := SafeRecords(c, v.dir);
    AppendIsTracked(c, v, r, base);
    var w := Issued(c, v, r);
    var before := DirRecords(c, v.dir);
    FoldSnoc(EMPTY_VIEW, before, r);
    if Full(Written(c, v, r)) {
      assert DirRecords(c, w.dir) == (before + [r]) + [CheckpointOf(v.state)];
      FoldSnoc(EMPTY_VIEW, before + [r], CheckpointOf(v.state));
      StaleCheckpointIsNeutral(v.state, r);
    }
  }

  lemma AppendStaysExact(c: Codec, v: WalView, r: WalRecord)
    requires c.Valid() && c.Fits(r) && Tracked(c, v) && Exact(c, v)
    requires !r.Checkpoint? && !ResetsCommitted(v.state, r)
    ensures var w := Issued(c, v, r);
            && Exact(c, w)
            && Plain(DirRecords(c, w.dir)) == Plain(DirRecords(c, v.dir)) + [r]
  {
    hide DirRecords, Durable, ApplyRecord, FrameRecord, Scan, Honest;
    AppendKeepsSync(c, v, r);
    AppendIsTracked(c, v, r, SafeRecords(c, v.dir));
    var before := DirRecords(c, v.dir);
    HonestSnoc(before, r);
    FoldSnoc(EMPTY_VIEW, before, r);
    PlainConcat(before, Stream(c, v, r));
    PlainOf1(r);
    if Full(Written(c, v, r)) {
      var k := CheckpointOf(v.state);
      assert before + Stream(c, v, r) == before + [r] + [k];
      StaleCheckpointIsNeutral(v.state, r);
      HonestSnoc(before + [r], k);
      PlainOf2(r, k);
    } else {
      assert before + Stream(c, v, r) == before + [r];
    }
  }

  lemma PlainOf1(r: WalRecord)
    requires !r.Checkpoint?
    ensures Plain([r]) == [r]
  {
    assert [r][..0] == [];
  }

  lemma PlainOf2(r: WalRecord, k: WalRecord)
    requires !r.Checkpoint? && k.Checkpoint?
    ensures Plain([r, k]) == Plain([r] + [k]) == [r]
  {
    assert [r, k][..1] == [r];
    PlainOf1(r);
  }

  lemma NeverResetsFront(s: LogView, rs: seq<WalRecord>)
    requires rs != [] && NeverResets(s, rs)
    ensures NeverResets(s, rs[..|rs| - 1])
    ensures !ResetsCommitted(FoldFrom(s, rs[..|rs| - 1]), rs[|rs| - 1])
  {
    hide FoldFrom, ResetsCommitted;
    var front := rs[..|rs| - 1];
    forall i | 0 <= i < |front|
      ensures !ResetsCommitted(FoldFrom(s, front[..i]), front[i])
    {
      assert front[..i] == rs[..i] && front[i] == rs[i];
    }
  }

  lemma {:induction false} IssueStaysExact(c: Codec, v: WalView, rs: seq<WalRecord>)
    requires c.Valid() && AllFit(c, rs) && Tracked(c, v) && Exact(c, v)
    requires NoCheckpoints(rs) && NeverResets(v.state, rs)
    ensures var w := IssuedAll(c, v, rs);
            && Tracked(c, w) && Exact(c, w)
            && Plain(DirRecords(c, w.dir)) == Plain(DirRecords(c, v.dir)) + rs
  {
    hide DirRecords, Durable, ApplyRecord, Issued, Plain, SafeRecords, Exact, NeverResets;
    IssueIsTracked(c, v, rs, SafeRecords(c, v.dir));
    if rs == [] {
      assert Plain(DirRecords(c, v.dir)) + rs == Plain(DirRecords(c, v.dir));
    } else {
      var front, r := rs[..|rs| - 1], rs[|rs| - 1];
      NeverResetsFront(v.state, rs);
      IssueStaysExact(c, v, front);
      IssueIsTracked(c, v, front, SafeRecords(c, v.dir));
      AppendStaysExact(c, IssuedAll(c, v, front), r);
      assert rs == front + [r];
    }
  }

  // ---- whole runs ----

  /** A run is a sequence of calls, any of them cut short by a crash and a reopen. The crash
      strikes at the at-th directory state of the call and leaves cut bytes of the active
      segment. */
  datatype Step =
    | Call(op: Op)
    | Crash(op: Op, at: nat, cut: nat)

  function Reopened(c: Codec, visits: seq<Dir>, at: nat, cut: nat): WalView
    requires at < |visits| && CanCut(visits[at], cut)
  {
    Opened(c, Crashed(visits[at], cut))
  }

  ghost predicate CrashPossible(c: Codec, v: WalView, op: Op, at: nat, cut: nat)
    requires v.dir != []
  {
    at < |Visits(c, v, op)| && CanCut(Visits(c, v, op)[at], cut)
  }

  function AfterCrash(c: Codec, v: WalView, op: Op, at: nat, cut: nat): WalView
    requires v.dir != []
  {
    var visits := Visits(c, v, op);
    if at < |visits| && CanCut(visits[at], cut) then Reopened(c, visits, at, cut) else v
  }

  function Next(c: Codec, v: WalView, step: Step): WalView
    requires v.dir != []
  {
    if step.Call? then Done(c, v, step.op) else AfterCrash(c, v, step.op, step.at, step.cut)
  }

  /** No closed segment lies wholly at or below the purge point. */
  ghost predicate UnlinksNothing(c: Codec, v: WalView, op: Op)
    requires v.dir != []
  {
    op.PurgeTo? ==>
      forall s :: s in IssuedAll(c, v, OpRecords(op)).closed ==> !Removable(s, op.logId.index)
  }

  /** The hypotheses on one call: its frames fit their length field, it does not reset
      `committed`, and it reclaims no segment. */
  ghost predicate Admissible(c: Codec, v: WalView, op: Op)
    requires v.dir != []
  {
    AllFit(c, OpRecords(op)) && NeverResets(v.state, OpRecords(op)) && UnlinksNothing(c, v, op)
  }

  lemma {:induction false} NothingUnlinked(d: Dir, closed: seq<ClosedSegment>, index: u64)
    requires forall s :: s in closed ==> !Removable(s, index)
    ensures Unlinked(d, closed, index) == d && Surviving(closed, index) == closed
    ensures UnlinkVisits(d, closed, index) == []
  {
    if closed != [] {
      var front, last := closed[..|closed| - 1], closed[|closed| - 1];
      NothingUnlinked(d, front, index);
      assert closed == front + [last];
    }
  }

  lemma OpRecordsPlain(op: Op)
    ensures NoCheckpoints(OpRecords(op))
  {
  }

  lemma SyncIsTracked(c: Codec, v: WalView)
    requires Tracked(c, v)
    ensures var w := Synced(v);
            && Quiescent(c, w) && w.state == v.state
            && DirRecords(c, w.dir) == DirRecords(c, v.dir) == SafeRecords(c, w.dir)
  {
    hide Scan, DirRecords, SafeRecords;
    SyncIsDurable(c, v.dir);
    assert SyncActive(v.dir)[..|v.dir| - 1] == v.dir[..|v.dir| - 1];
  }

  /** A call that returns: all of its records are on disk, safe from any later crash. */
  lemma CallIsExact(c: Codec, v: WalView, op: Op)
    requires c.Valid() && Quiescent(c, v) && Exact(c, v) && Admissible(c, v, op)
    ensures var w := Done(c, v, op);
            && Quiescent(c, w) && Exact(c, w)
            && Plain(DirRecords(c, w.dir)) == Plain(DirRecords(c, v.dir)) + OpRecords(op)
            && SafeRecords(c, w.dir) == DirRecords(c, w.dir)
  {
    hide Tracked, DirRecords, SafeRecords, OpRecords, IssuedAll, Synced, Honest, Plain, NeverResets, AllFit;
    var rs := OpRecords(op);
    OpRecordsPlain(op);
    assert Tracked(c, v);
    TrackedHasDir(c, v);
    IssueStaysExact(c, v, rs);
    var u := IssuedAll(c, v, rs);
    SyncIsTracked(c, u);
    if op.PurgeTo? {
      SyncedClosed(u);
      NothingUnlinked(Synced(u).dir, u.closed, op.logId.index);
      assert Done(c, v, op) == Synced(u);
    }
  }

  lemma TrackedHasDir(c: Codec, v: WalView)
    requires Tracked(c, v)
    ensures v.dir != []
  {
  }

  lemma SyncedClosed(v: WalView)
    requires v.dir != []
    ensures Synced(v).closed == v.closed
  {
  }

  /** Every directory state a call passes through, whether it returns or not. */
  lemma VisitsAreBetween(c: Codec, v: WalView, op: Op)
    requires c.Valid() && Quiescent(c, v) && AllFit(c, OpRecords(op)) && UnlinksNothing(c, v, op)
    ensures var all := DirRecords(c, IssuedAll(c, v, OpRecords(op)).dir);
            forall d :: d in Visits(c, v, op) ==> Between(c, d, DirRecords(c, v.dir), all)
  {
    hide DirRecords, SafeRecords, OpRecords, IssuedAll, IssueVisits, AllFit, Synced, Between, Tracked;
    var rs := OpRecords(op);
    QuiescentIsSafe(c, v);
    var base := DirRecords(c, v.dir);
    IssueIsTracked(c, v, rs, base);
    var u := IssuedAll(c, v, rs);
    TrackedHasDir(c, u);
    SyncedBetween(c, u, base);
    if op.PurgeTo? {
      SyncedClosed(u);
      NothingUnlinked(Synced(u).dir, u.closed, op.logId.index);
    }
  }

  lemma QuiescentIsSafe(c: Codec, v: WalView)
    requires Quiescent(c, v)
    ensures v.dir != [] && Tracked(c, v) && SafeRecords(c, v.dir) == DirRecords(c, v.dir)
  {
    var last := v.dir[|v.dir| - 1];
    assert last.bytes[..last.synced] == last.bytes;
    assert Crashed(v.dir, last.synced) == v.dir;
  }

  lemma SyncedBetween(c: Codec, u: WalView, base: seq<WalRecord>)
    requires Tracked(c, u) && IsPrefix(base, SafeRecords(c, u.dir))
    ensures Between(c, Synced(u).dir, base, DirRecords(c, u.dir))
  {
    SyncIsDurable(c, u.dir);
  }

  /** A call cut short: recovery keeps everything acknowledged before it, and of its own
      records some prefix. */
  lemma CrashIsExact(c: Codec, v: WalView, op: Op, at: nat, cut: nat) returns (n: nat)
    requires c.Valid() && Quiescent(c, v) && Exact(c, v) && Admissible(c, v, op)
    requires CrashPossible(c, v, op, at, cut)
    ensures n <= |OpRecords(op)|
    ensures var w := AfterCrash(c, v, op, at, cut);
            && Quiescent(c, w) && Exact(c, w)
            && Plain(DirRecords(c, w.dir)) == Plain(DirRecords(c, v.dir)) + OpRecords(op)[..n]
  {
    hide DirRecords, SafeRecords, OpRecords, IssuedAll, Visits, Opened, Honest, Plain, Durable, NeverResets, AllFit, Tracked;
    TrackedHasDir(c, v);
    var d := Visits(c, v, op)[at];
    assert d in Visits(c, v, op);
    VisitsAreBetween(c, v, op);
    CrashRecovers(c, d, cut);
    var w := Opened(c, Crashed(d, cut));
    assert w == AfterCrash(c, v, op, at, cut);
    OpRecordsPlain(op);
    IssueStaysExact(c, v, OpRecords(op));
    var all := DirRecords(c, IssuedAll(c, v, OpRecords(op)).dir);
    var base, got := DirRecords(c, v.dir), DirRecords(c, w.dir);
    PrefixChain(base, SafeRecords(c, d), got);
    PrefixChain(got, DirRecords(c, d), all);
    HonestPrefix(got, all);
    PlainPrefix(base, got);
    PlainPrefix(got, all);
    n := |Plain(got)| - |Plain(base)|;
    assert Plain(got) == Plain(base) + OpRecords(op)[..n];
  }

  lemma PrefixChain<T>(a: seq<T>, b: seq<T>, d: seq<T>)
    requires IsPrefix(a, b) && IsPrefix(b, d)
    ensures IsPrefix(a, d)
  {
  }

  function Run(c: Codec, steps: seq<Step>): (v: WalView) {
    if steps == [] then Recovered(c, [])
    else
      var v := Run(c, steps[..|steps| - 1]);
      if v.dir == [] then v else Next(c, v, steps[|steps| - 1])
  }

  /** Every step of the run meets the hypotheses and every crash is one the disk allows. */
  ghost predicate LegalRun(c: Codec, steps: seq<Step>) {
    steps == [] ||
    (var front, step := steps[..|steps| - 1], steps[|steps| - 1];
     var v := Run(c, front);
     && LegalRun(c, front)
     && v.dir != []
     && Admissible(c, v, step.op)
     && (step.Crash? ==> CrashPossible(c, v, step.op, step.at, step.cut)))
  }

  /** `kept` holds every record of every call that returned, in order, and of each call cut
      short by a crash some prefix of its records. */
  ghost predicate Explains(steps: seq<Step>, kept: seq<WalRecord>)
    decreases |steps|
  {
    if steps == [] then kept == []
    else
      var front, step := steps[..|steps| - 1], steps[|steps| - 1];
      exists n: nat | n <= |kept| ::
        && Explains(front, kept[..n])
        && IsPrefix(kept[n..], OpRecords(step.op))
        && (step.Call? ==> kept[n..] == OpRecords(step.op))
  }

  /** Over every legal run: RAM is the replay of the disk, and both are the plain fold of
      records the callers issued, with nothing acknowledged missing. */
  lemma {:induction false} RunRefinesLog(c: Codec, steps: seq<Step>) returns (kept: seq<WalRecord>)
    requires c.Valid() && LegalRun(c, steps)
    ensures var v := Run(c, steps);
            && Quiescent(c, v) && Exact(c, v)
            && kept == Plain(DirRecords(c, v.dir))
            && Explains(steps, kept)
            && v.state == Fold(kept)
  {
    hide Quiescent, DirRecords, OpRecords, Visits, Honest, Plain, Admissible, FoldFrom, Done, AfterCrash, CrashPossible;
    var v := Run(c, steps);
    if steps == [] {
      FreshLog(c);
    } else {
      var front, step := steps[..|steps| - 1], steps[|steps| - 1];
      var before := RunRefinesLog(c, front);
      var u := Run(c, front);
      var n := |OpRecords(step.op)|;
      match step {
        case Call(op) =>
          CallIsExact(c, u, op);
          assert OpRecords(op)[..n] == OpRecords(op);
        case Crash(op, at, cut) =>
          n := CrashIsExact(c, u, op, at, cut);
      }
      kept := before + OpRecords(step.op)[..n];
      assert kept[..|before|] == before && kept[|before|..] == OpRecords(step.op)[..n];
    }
    kept := Plain(DirRecords(c, v.dir));
    HonestFold(DirRecords(c, v.dir));
  }

  lemma FreshLog(c: Codec)
    ensures var v := Recovered(c, []);
            Quiescent(c, v) && Exact(c, v) && Plain(DirRecords(c, v.dir)) == []
  {
    var v := Recovered(c, []);
    assert v.dir[..0] == [];
    assert Scan(c, []) == Scanned([], 0, false);
    assert DirRecords(c, v.dir) == [];
    assert MaxIndex([]) == None;
  }

  // ---- damage a crash cannot do ----

  /** When a segment other than the last is damaged, recovery appends to segment 0 from then
      on; that is the end of the log only when segment 0 is itself the damaged one. */
  lemma MiddleDamageMisplacesActive(c: Codec, d: Dir)
    requires Ascending(d) && FirstBad(c, d) < |d| - 1
    ensures var w := Opened(c, d);
            && w.dir != [] && w.segment.seqNo == 0
            && (w.segment.seqNo == w.dir[|w.dir| - 1].seqNo <==> FirstBad(c, d) == 0 && d[0].seqNo == 0)
  {
    hide Scan, DirRecords, FoldFrom, MaxIndex;
  }

  // ---- a damaged payload ----

  /**
   The last segment with one payload altered: recovery replays everything before it, cuts the
   file there, and the next reopen finds no damage.
   */
  lemma DamageIsCutOff(c: Codec, d: Dir, last: SegFile, ps: seq<seq<byte>>, p: seq<byte>, q: seq<byte>, tail: seq<byte>)
    returns (rs: seq<WalRecord>)
    requires (forall i :: 0 <= i < |d| ==> Clean(c, d[i].bytes)) && forall i :: 0 <= i < |ps| ==> Readable(c, ps[i])
    requires |p| == |q| < U32_LIMIT && c.crc(p) != c.crc(q)
    requires last.bytes == Framed(c, ps) + (Frame(c, p)[..FRAME_HEADER] + q + tail)
    ensures |rs| == |ps| && forall i :: 0 <= i < |ps| ==> c.decode(ps[i]) == Some(rs[i])
    ensures var v := Opened(c, d + [last]);
            && |v.dir| == |d| + 1 && v.dir[|d|].bytes == Framed(c, ps) && v.dir[..|d|] == d
            && v.state == Fold(DirRecords(c, d) + rs)
            && FirstBad(c, v.dir) == |v.dir|
  {
    hide Scan, Framed, Frame, FoldFrom, MaxIndex, Readable;
    DamagedPayloadStopsTheScan(c, ps, p, q, tail);
    rs := Scan(c, last.bytes).records;
    var all := d + [last];
    assert all[..|d|] == d;
    FirstBadIsLast(c, d, last);
    TruncationIsClean(c, last.bytes);
    var cut := SegFile(last.seqNo, last.bytes[..Scan(c, last.bytes).good], Scan(c, last.bytes).good);
    assert (d + [cut])[..|d|] == d;
    assert last.bytes[..|Framed(c, ps)|] == Framed(c, ps);
  }

  lemma FirstBadIsLast(c: Codec, d: Dir, last: SegFile)
    requires (forall i :: 0 <= i < |d| ==> Clean(c, d[i].bytes)) && !Clean(c, last.bytes)
    ensures FirstBad(c, d + [last]) == |d|
  {
    var all := d + [last];
    assert all[|d|] == last && forall i :: 0 <= i < |d| ==> all[i] == d[i];
  }
}
