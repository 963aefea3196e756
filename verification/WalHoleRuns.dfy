/**
 Concrete runs of the log under the concrete record format: a purge that resurrects an entry,
 and a replay whose commit pointer is ahead of the one in RAM.
 */
module WalHoleRuns {
  import opened Prelude
  import opened RaftTypes
  import opened WalFrames
  import opened WalRecords
  import opened WalSpec
  import opened WalCrash
  import opened WalReclaim
  import opened WalReclaimRuns
  import opened WalSegments
  import opened WalHoles
  import opened WalWire

  // ---- a run, step by step ----

  /** Where a run has got to: the closed segments, the active one with its bytes, RAM, and the
      highest saved pointer. */
  datatype Shape = Shape(closed: seq<seq<WalRecord>>, active: seq<WalRecord>, bytes: nat, state: LogView, high: Option<LogId>)

  const START := Shape([], [], 0, EMPTY_VIEW, None)

  function SegmentsOf(sh: Shape): (segs: seq<seq<WalRecord>>)
    ensures segs != []
  {
    sh.closed + [sh.active]
  }

  /** A legal run and its shape. */
  ghost predicate Reached(steps: seq<Step>, sh: Shape) {
    var c := WireCodec();
    && ReclaimingRun(c, steps) && At(c, Run(c, steps), SegmentsOf(sh), sh.bytes, sh.state)
    && RunHighest(steps) == sh.high
  }

  /** Bytes of a framed record. */
  function FrameSize(r: WalRecord): nat {
    match r
    case EntryRecord(e) => 34 + (match e.payload case Blank => 0 case Normal(p) => |p| case Membership(p) => |p|)
    case TruncateFrom(_) => 17
    case Purge(_) => 33
    case Committed(_) => 34
    case Checkpoint(_, _) => 59
  }

  lemma FrameSizeIs(r: WalRecord)
    ensures |FrameRecord(WireCodec(), r)| == FrameSize(r)
    ensures FrameSize(r) < U32_LIMIT ==> WireCodec().Fits(r)
  {
    WireSizes(r);
  }

  /** One record appended, with a rotation when the segment is full. */
  function After(sh: Shape, r: WalRecord): Shape {
    var active, bytes, state, high := sh.active + [r], sh.bytes + FrameSize(r), ApplyRecord(sh.state, r), Raised(sh.high, r);
    if bytes < SEGMENT_MAX_BYTES then Shape(sh.closed, active, bytes, state, high)
    else
      var k := CheckpointOf(sh.state);
      Shape(sh.closed + [active], [k], FrameSize(k), state, high)
  }

  /** The call that issues this one record. */
  function CallOf(r: WalRecord): Op
    requires !r.Checkpoint?
  {
    match r
    case EntryRecord(e) => AppendEntries([e])
    case TruncateFrom(index) => Truncate(index)
    case Purge(logId) => PurgeTo(logId)
    case Committed(p) => SaveCommitted(p)
  }

  lemma CallOfIs(r: WalRecord)
    requires !r.Checkpoint?
    ensures OpRecords(CallOf(r)) == [r] && (CallOf(r).PurgeTo? <==> r.Purge?)
  {
  }

  /** A record a caller may issue now, other than a purge. */
  ghost predicate Issuable(sh: Shape, r: WalRecord) {
    !r.Checkpoint? && !r.Purge? && FrameSize(r) < U32_LIMIT && (r.Committed? ==> PointerLe(sh.high, r.pointer))
  }

  lemma RunGrows(c: Codec, steps: seq<Step>, step: Step)
    requires ReclaimingRun(c, steps) && Run(c, steps).dir != []
    requires Allowed(c, Run(c, steps), step.op, RunHighest(steps))
    requires step.Crash? ==> CrashPossible(c, Run(c, steps), step.op, step.at, step.cut)
    ensures ReclaimingRun(c, steps + [step]) && Run(c, steps + [step]) == Next(c, Run(c, steps), step)
    ensures RunHighest(steps + [step]) == Highest(RunHighest(steps), OpRecords(step.op))
  {
    hide Next, Allowed, CrashPossible, Highest, OpRecords;
    assert (steps + [step])[..|steps|] == steps;
  }

  lemma OneRecordAllowed(c: Codec, v: WalView, op: Op, r: WalRecord, high: Option<LogId>)
    requires OpRecords(op) == [r] && c.Fits(r) && !op.PurgeTo? && v.dir != []
    requires r.Committed? ==> PointerLe(high, r.pointer)
    ensures Allowed(c, v, op, high) && Highest(high, OpRecords(op)) == Raised(high, r)
  {
    hide OpRecords, PointerLe;
    assert [r][..0] == [];
    assert Monotone(high, []) && Highest(high, []) == high;
    assert Monotone(high, [r]);
    assert AllFit(c, [r]);
  }

  lemma StartReached()
    ensures Reached([], START)
  {
    StartsAt(WireCodec());
    var empty: seq<seq<WalRecord>> := [];
    assert empty + [[]] == [[]];
  }

  lemma AddedSegments(sh: Shape, r: WalRecord)
    ensures AddTo(SegmentsOf(sh), r) == sh.closed + [sh.active + [r]]
    ensures SegmentsOf(After(sh, r)) ==
            AddTo(SegmentsOf(sh), r) + if sh.bytes + FrameSize(r) < SEGMENT_MAX_BYTES then [] else [[CheckpointOf(sh.state)]]
  {
  }

  /** A returned call of one record. */
  lemma CallReaches(steps: seq<Step>, r: WalRecord, sh: Shape) returns (next: Shape)
    requires Reached(steps, sh) && Issuable(sh, r)
    ensures next == After(sh, r) && Reached(steps + [Call(CallOf(r))], next)
  {
    hide ReclaimingRun, Run, Done, FrameRecord, Codec.Fits, Codec.Valid, OpRecords, ApplyRecord, Allowed, PointerLe, Quiescent,
         WireCodec, AddTo, SegmentsOf, CheckpointOf, Segments;
    var c, op := WireCodec(), CallOf(r);
    var v := Run(c, steps);
    WireCodecIsValid();
    FrameSizeIs(r);
    FrameSizeIs(CheckpointOf(sh.state));
    CallOfIs(r);
    OneRecordAllowed(c, v, op, r, sh.high);
    RunGrows(c, steps, Call(op));
    CallSegments(c, v, op, r, SegmentsOf(sh), sh.bytes, sh.state);
    AddedSegments(sh, r);
    next := After(sh, r);
    assert AddTo(SegmentsOf(sh), r) + [] == AddTo(SegmentsOf(sh), r);
  }

  // ---- purges in such a run ----

  /** The first n closed segments go and no other. */
  ghost predicate FirstGo(segs: seq<seq<WalRecord>>, index: u64, n: nat) {
    n < |segs| && forall i :: 0 <= i < |segs| - 1 ==> (Goes(segs[i], index) <==> i < n)
  }

  lemma RoomForPurge(c: Codec, v: WalView, logId: LogId)
    requires v.dir != [] && v.segment.bytes + |FrameRecord(c, Purge(logId))| < SEGMENT_MAX_BYTES
    ensures !Full(Written(c, v, Purge(logId))) && Issued(c, v, Purge(logId)).closed == v.closed
  {
    hide FrameRecord;
  }

  lemma FirstGoIsPrefix(c: Codec, v: WalView, logId: LogId, n: nat)
    requires Tracked(c, v) && FirstGo(Segments(c, v.dir), logId.index, n)
    ensures RemovablePrefix(v.closed, logId.index) && RemovableCount(v.closed, logId.index) == n
  {
    hide Scan, MaxIndex, Durable;
    TrackedClosed(c, v);
    assert forall i :: 0 <= i < |v.closed| ==> (Removable(v.closed[i], logId.index) <==> i < n);
    CountMarksPrefix(v.closed, logId.index);
    var k := RemovableCount(v.closed, logId.index);
    assert k < |v.closed| ==> !Removable(v.closed[k], logId.index);
    assert n < |v.closed| ==> !Removable(v.closed[n], logId.index);
  }

  /** A returned purge with room for its record, by which the first n closed segments go. */
  lemma PurgeReaches(steps: seq<Step>, logId: LogId, n: nat, sh: Shape) returns (next: Shape)
    requires Reached(steps, sh) && FirstGo(SegmentsOf(sh), logId.index, n)
    requires sh.bytes + FrameSize(Purge(logId)) < SEGMENT_MAX_BYTES
    ensures n <= |sh.closed|
    ensures next == Shape(sh.closed[n..], sh.active + [Purge(logId)], sh.bytes + 33,
                          ApplyRecord(sh.state, Purge(logId)), sh.high)
    ensures Reached(steps + [Call(PurgeTo(logId))], next)
  {
    hide ReclaimingRun, Run, Done, FrameRecord, Codec.Fits, Codec.Valid, ApplyRecord, PointerLe, Tracked, DirRecords, FoldFrom,
         RemovablePrefix, Marked, Issued, Goes, Segments, Full, Written, SameLog, WireCodec, AddTo;
    var c := WireCodec();
    WireCodecIsValid();
    FrameSizeIs(Purge(logId));
    var v := Run(c, steps);
    var _ := ReclaimingRunRefinesLog(c, steps);
    FirstGoIsPrefix(c, v, logId, n);
    RoomForPurge(c, v, logId);
    assert PurgeSafe(c, v, logId);
    PurgeHighest(sh.high, logId);
    assert AllFit(c, [Purge(logId)]) && Monotone(sh.high, [Purge(logId)]) by { assert [Purge(logId)][..0] == []; }
    RunGrows(c, steps, Call(PurgeTo(logId)));
    PurgeIsTracked(c, v, logId);
    PurgedSegments(c, v, logId, n);
    AddedSegments(sh, Purge(logId));
    next := Shape(sh.closed[n..], sh.active + [Purge(logId)], sh.bytes + 33, ApplyRecord(sh.state, Purge(logId)), sh.high);
    assert SegmentsOf(next) == (sh.closed + [sh.active + [Purge(logId)]])[n..];
  }

  lemma PurgedSegments(c: Codec, v: WalView, logId: LogId, n: nat)
    requires c.Valid() && c.Fits(Purge(logId)) && Quiescent(c, v) && v.dir != []
    requires v.segment.bytes + |FrameRecord(c, Purge(logId))| < SEGMENT_MAX_BYTES
    requires RemovablePrefix(v.closed, logId.index) && RemovableCount(v.closed, logId.index) == n < |v.dir|
    ensures var w := Done(c, v, PurgeTo(logId));
            && w.dir != []
            && Segments(c, w.dir) == AddTo(Segments(c, v.dir), Purge(logId))[n..]
            && w.segment.bytes == v.segment.bytes + |FrameRecord(c, Purge(logId))|
  {
    hide FrameRecord, Codec.Fits, Codec.Valid, Tracked, Segments, Issued, Scan, RemovablePrefix, RemovableCount, Unlinked, Surviving;
    IssuedSegments(c, v, Purge(logId));
    RoomForPurge(c, v, logId);
    MarkedRecords(c, v, logId);
    DoneIsReclaimed(c, v, logId);
    var m := Marked(c, v, logId);
    TrackedClosed(c, m);
    UnlinkDropsPrefix(m.dir, m.closed, logId.index);
    SyncedSegments(c, Issued(c, v, Purge(logId)).dir);
    assert AddTo(Segments(c, v.dir), Purge(logId)) + [] == AddTo(Segments(c, v.dir), Purge(logId));
    SegmentsFrom(c, m.dir, n);
  }

  lemma SegmentsFrom(c: Codec, d: Dir, n: nat)
    requires n <= |d|
    ensures Segments(c, d[n..]) == Segments(c, d)[n..]
  {
    hide Scan;
  }

  // ---- a hole ----

  function Zeros(n: nat): (b: seq<byte>)
    ensures |b| == n
  {
    seq(n, i => 0)
  }

  /** Index i of a term; the big one alone is larger than a segment. */
  function Small(term: u64, i: u64): Entry {
    Entry(LogId(term, 1, i), Blank)
  }

  function Sized(term: u64, i: u64, n: nat): Entry {
    Entry(LogId(term, 1, i), Normal(Zeros(n)))
  }

  const FIRST := EntryRecord(Small(1, 1))
  const SECOND := EntryRecord(Sized(1, 2, SEGMENT_MAX_BYTES))
  const AGAIN := EntryRecord(Sized(2, 1, SEGMENT_MAX_BYTES))
  const NO_POINTERS := Checkpoint(None, None)

  /** Two entries of term 1, the second filling segment 0; then term 2 truncates both and
      fills segment 1 with its own first entry. */
  function HoleCalls(): seq<Step> {
    [Call(CallOf(FIRST)), Call(CallOf(SECOND)), Call(CallOf(TruncateFrom(1))), Call(CallOf(AGAIN))]
  }

  lemma HoleReached() returns (sh: Shape)
    ensures Reached(HoleCalls(), sh)
    ensures SegmentsOf(sh) == [[FIRST, SECOND], [NO_POINTERS, TruncateFrom(1), AGAIN], [NO_POINTERS]] && sh.bytes == 59
    ensures sh.state.entries == map[1 := AGAIN.entry] && sh.state.lastPurged == None
  {
    hide Reached, Zeros;
    StartReached();
    var steps := HoleCalls();
    sh := CallReaches([], FIRST, START);
    assert steps[..1] == [] + [steps[0]] && steps[..2] == steps[..1] + [steps[1]] && steps[..3] == steps[..2] + [steps[2]];
    assert sh.active == [FIRST] && [FIRST] + [SECOND] == [FIRST, SECOND];
    sh := CallReaches(steps[..1], SECOND, sh);
    assert sh.closed == [[FIRST, SECOND]] && sh.active == [NO_POINTERS];
    sh := CallReaches(steps[..2], TruncateFrom(1), sh);
    assert sh.active + [AGAIN] == [NO_POINTERS, TruncateFrom(1), AGAIN];
    sh := CallReaches(steps[..3], AGAIN, sh);
    assert steps == steps[..3] + [steps[3]];
  }

  lemma MaxIndexSnoc(rs: seq<WalRecord>, r: WalRecord)
    ensures MaxIndex(rs + [r]) == RaiseMax(MaxIndex(rs), r)
  {
    assert (rs + [r])[..|rs|] == rs;
  }

  lemma MaxIndexNone()
    ensures MaxIndex([]) == None
  {
  }

  /** The tags of three segments at a purge. */
  lemma ThreeTagged(a: seq<WalRecord>, b: seq<WalRecord>, d: seq<WalRecord>, index: u64)
    ensures Tags([a, b, d], index) == TagSegment(a, !Goes(a, index)) + TagSegment(b, !Goes(b, index)) + TagSegment(d, true)
  {
    hide Goes, TagSegment;
    var segs := [a, b, d];
    assert TagsBelow(segs, index, 0) == [];
    assert TagsBelow(segs, index, 1) == [] + TagSegment(a, !Goes(a, index));
    assert TagsBelow(segs, index, 2) == TagsBelow(segs, index, 1) + TagSegment(b, !Goes(b, index));
    assert TagsBelow(segs, index, 3) == TagsBelow(segs, index, 2) + TagSegment(d, true);
  }

  /** The hole: segment 1 goes with its truncation, segment 0 stays with the truncated entry. */
  lemma HoleRevives(logId: LogId)
    requires logId.index == 1
    ensures Resurrected(Tags([[FIRST, SECOND], [NO_POINTERS, TruncateFrom(1), AGAIN], [NO_POINTERS, Purge(logId)]], 1), 2)
  {
    hide TagSegment, Zeros;
    var a, b, d := [FIRST, SECOND], [NO_POINTERS, TruncateFrom(1), AGAIN], [NO_POINTERS, Purge(logId)];
    MaxIndexNone();
    MaxIndexSnoc([], FIRST);
    MaxIndexSnoc([FIRST], SECOND);
    MaxIndexSnoc([], NO_POINTERS);
    MaxIndexSnoc([NO_POINTERS], TruncateFrom(1));
    MaxIndexSnoc([NO_POINTERS, TruncateFrom(1)], AGAIN);
    var empty: seq<WalRecord> := [];
    assert empty + [FIRST] == [FIRST] && [FIRST] + [SECOND] == a && empty + [NO_POINTERS] == [NO_POINTERS];
    assert [NO_POINTERS] + [TruncateFrom(1)] == [NO_POINTERS, TruncateFrom(1)];
    assert [NO_POINTERS, TruncateFrom(1)] + [AGAIN] == b;
    assert !Goes(a, 1) && Goes(b, 1);
    ThreeTagged(a, b, d, 1);
    TagSegmentIs(a, true);
    TagSegmentIs(b, false);
    TagSegmentIs(d, true);
    var ts := Tags([a, b, d], 1);
    assert |ts| == 7;
    assert ts[1] == Tagged(SECOND, true) && ts[3] == Tagged(TruncateFrom(1), false);
    assert ts[5] == Tagged(NO_POINTERS, true) && ts[6] == Tagged(Purge(logId), true);
    assert !ts[2].kept && !ts[4].kept;
    assert Revives(ts, 2, 1, 3);
  }

  /**
   A run of five calls after which RAM is empty and the disk is not: purging at index 1 unlinks
   the segment that held the truncation, and the truncated entry 2 is back on reopening.
   */
  lemma HolesResurrect()
    ensures var c, steps := WireCodec(), HoleCalls() + [Call(PurgeTo(LogId(2, 1, 1)))];
            var v := Run(c, steps);
            && c.Valid() && v.state.entries == map[]
            && 2 in Fold(DirRecords(c, v.dir)).entries && Opened(c, v.dir).state == Fold(DirRecords(c, v.dir))
  {
    hide WireCodec, Codec.Valid, Codec.Fits, FrameRecord, FoldFrom, DirRecords, Resurrected, Quiescent, Zeros, HoleCalls,
         ReclaimingRun, Run, Segments, Done, Opened, SameLog, Tags, Marked;
    var c, logId := WireCodec(), LogId(2, 1, 1);
    var sh := HoleReached();
    WireCodecIsValid();
    FrameSizeIs(Purge(logId));
    var _ := ReclaimingRunRefinesLog(c, HoleCalls());
    var v := Run(c, HoleCalls());
    RunOneMore(c, HoleCalls(), Call(PurgeTo(logId)));
    MarkedSegments(c, v, logId);
    var g := [[FIRST, SECOND], [NO_POINTERS, TruncateFrom(1), AGAIN], [NO_POINTERS, Purge(logId)]];
    assert [NO_POINTERS] + [Purge(logId)] == g[2];
    assert AddTo(SegmentsOf(sh), Purge(logId)) == g && g + [] == g;
    HoleRevives(logId);
    RevivedByPurge(c, v, logId, 2);
    PurgedState(c, v, logId);
  }

  lemma RunOneMore(c: Codec, steps: seq<Step>, step: Step)
    requires Run(c, steps).dir != []
    ensures Run(c, steps + [step]) == Next(c, Run(c, steps), step)
  {
    hide Next;
    assert (steps + [step])[..|steps|] == steps;
  }

  lemma PurgedState(c: Codec, v: WalView, logId: LogId)
    requires v.dir != []
    ensures Done(c, v, PurgeTo(logId)).state == ApplyRecord(v.state, Purge(logId))
  {
    hide Appended;
    DoneIsReclaimed(c, v, logId);
  }

  /** A resurrected index above the purge point: gone from RAM, back on reopening. */
  lemma RevivedByPurge(c: Codec, v: WalView, logId: LogId, k: u64)
    requires c.Valid() && c.Fits(Purge(logId)) && Quiescent(c, v) && v.dir != []
    requires SameLog(v.state, Fold(DirRecords(c, v.dir))) && k !in v.state.entries
    requires Resurrected(Tags(Segments(c, Marked(c, v, logId).dir), logId.index), k)
    ensures var w := Done(c, v, PurgeTo(logId));
            && k !in w.state.entries && k in Fold(DirRecords(c, w.dir)).entries
            && Opened(c, w.dir).state == Fold(DirRecords(c, w.dir))
  {
    hide FoldFrom, DirRecords, Tags, Resurrected, Tracked, Marked, Whole, Kept, EndsWell, Opened, Unlinked, Surviving;
    var m := Marked(c, v, logId);
    var ts := Tags(Segments(c, m.dir), logId.index);
    PurgeTagsEndWell(c, v, logId, k);
    IndexIsExact(ts, k);
    MarkedRecords(c, v, logId);
    MarkedReplay(c, v, logId);
    DoneIsReclaimed(c, v, logId);
    TrackedTags(c, m, logId.index);
    LeftReopens(c, m, logId.index);
  }

  /** Reopening what an unlink loop left replays it. */
  lemma LeftReopens(c: Codec, v: WalView, index: u64)
    requires Tracked(c, v)
    ensures var d := Unlinked(v.dir, v.closed, index); Opened(c, d).state == Fold(DirRecords(c, d))
  {
    hide Scan, Goes, MaxIndex, DirRecords, FoldFrom, LeftBelow;
    TrackedClosed(c, v);
    UnlinkLeaves(c, v.dir, v.closed, index);
    var d := Unlinked(v.dir, v.closed, index);
    LeftMembers(c, v.dir, index, |v.closed|);
    LeftOfLast(c, v.dir, index);
    forall i | 0 <= i < |d|
      ensures Clean(c, d[i].bytes)
    {
      assert d[i] in v.dir;
    }
    CleanReopens(c, d);
  }

  lemma CleanReopens(c: Codec, d: Dir)
    requires d != [] && forall i :: 0 <= i < |d| ==> Clean(c, d[i].bytes)
    ensures FirstBad(c, d) == |d| && Opened(c, d).dir == d && Opened(c, d).state == Fold(DirRecords(c, d))
  {
    hide Scan, DirRecords, FoldFrom, MaxIndex;
  }

  // ---- a replay ahead of RAM ----

  function Flat(segs: seq<seq<WalRecord>>): seq<WalRecord> {
    if segs == [] then [] else Flat(segs[..|segs| - 1]) + segs[|segs| - 1]
  }

  lemma {:induction false} DirIsFlat(c: Codec, d: Dir)
    ensures DirRecords(c, d) == Flat(Segments(c, d))
  {
    hide Scan;
    if d != [] {
      var front := d[..|d| - 1];
      DirIsFlat(c, front);
      assert Segments(c, d)[..|front|] == Segments(c, front);
    }
  }

  lemma SyncedVisit(c: Codec, v: WalView, op: Op, r: WalRecord)
    requires v.dir != [] && OpRecords(op) == [r] && !op.PurgeTo?
    requires v.segment.bytes + |FrameRecord(c, r)| < SEGMENT_MAX_BYTES
    ensures |Visits(c, v, op)| == 2 && Visits(c, v, op)[1] == Done(c, v, op).dir
  {
    hide FrameRecord, OpRecords, IssueVisits, IssuedAll;
    SingleIssue(c, v, r);
  }

  lemma ReopenedAt(c: Codec, w: WalView, cut: nat)
    requires Quiescent(c, w) && cut == w.segment.bytes
    ensures w.dir != [] && CanCut(w.dir, cut)
    ensures var u := Opened(c, Crashed(w.dir, cut));
            && Quiescent(c, u) && u.dir == w.dir && u.segment.bytes == cut && u.state == Fold(DirRecords(c, w.dir))
  {
    hide Scan, MaxIndex, DirRecords, FoldFrom;
    var last := w.dir[|w.dir| - 1];
    assert last.bytes[..cut] == last.bytes;
    assert Crashed(w.dir, cut) == w.dir;
    CrashRecovers(c, w.dir, cut);
    CleanReopens(c, w.dir);
  }

  /** A crash after the call's sync and before it returned: nothing is lost, RAM is the replay. */
  lemma CrashReaches(steps: seq<Step>, r: WalRecord, sh: Shape) returns (next: Shape)
    requires Reached(steps, sh) && Issuable(sh, r) && sh.bytes + FrameSize(r) < SEGMENT_MAX_BYTES
    ensures next == After(sh, r).(state := Fold(Flat(sh.closed + [sh.active + [r]])))
    ensures Reached(steps + [Crash(CallOf(r), 1, next.bytes)], next)
  {
    hide ReclaimingRun, Run, FrameRecord, Codec.Fits, Codec.Valid, OpRecords, ApplyRecord, Allowed, PointerLe, Quiescent, Done,
         Visits, Opened, DirRecords, FoldFrom, Segments, WireCodec, AddTo;
    var c, op := WireCodec(), CallOf(r);
    var v := Run(c, steps);
    WireCodecIsValid();
    FrameSizeIs(r);
    CallOfIs(r);
    OneRecordAllowed(c, v, op, r, sh.high);
    CallSegments(c, v, op, r, SegmentsOf(sh), sh.bytes, sh.state);
    var w, after := Done(c, v, op), sh.bytes + FrameSize(r);
    SyncedVisit(c, v, op, r);
    ReopenedAt(c, w, after);
    RunGrows(c, steps, Crash(op, 1, after));
    DirIsFlat(c, w.dir);
    AddedSegments(sh, r);
    next := After(sh, r).(state := Fold(Flat(sh.closed + [sh.active + [r]])));
  }

  function Id(i: u64): LogId {
    LogId(1, 1, i)
  }

  const SAVE_1 := Committed(Some(Id(1)))
  const SAVE_2 := Committed(Some(Id(2)))
  const FITTING := EntryRecord(Sized(1, 2, SEGMENT_MAX_BYTES - 136))
  const THIRD := EntryRecord(Sized(1, 3, SEGMENT_MAX_BYTES))
  const FOURTH := EntryRecord(Small(1, 4))
  const STALE := Checkpoint(None, Some(Id(1)))
  const FRESH := Checkpoint(None, Some(Id(2)))

  /** The second saved pointer fills segment 0, so segment 1 opens with the first one; entry 3
      fills segment 1, and segment 2 opens with the second. */
  function AheadCalls(): seq<Step> {
    [Call(CallOf(FIRST)), Call(CallOf(SAVE_1)), Call(CallOf(FITTING)), Call(CallOf(SAVE_2)), Call(CallOf(THIRD))]
  }

  lemma AheadReached() returns (sh: Shape)
    ensures Reached(AheadCalls(), sh)
    ensures sh == Shape([[FIRST, SAVE_1, FITTING, SAVE_2], [STALE, THIRD]], [FRESH], 59, sh.state, Some(Id(2)))
  {
    hide Reached, Zeros;
    StartReached();
    var steps := AheadCalls();
    sh := CallReaches([], FIRST, START);
    assert steps[..1] == [] + [steps[0]] && steps[..2] == steps[..1] + [steps[1]] && steps[..3] == steps[..2] + [steps[2]];
    assert steps[..4] == steps[..3] + [steps[3]] && steps == steps[..4] + [steps[4]];
    sh := CallReaches(steps[..1], SAVE_1, sh);
    sh := CallReaches(steps[..2], FITTING, sh);
    assert sh.active + [SAVE_2] == [FIRST, SAVE_1, FITTING, SAVE_2];
    sh := CallReaches(steps[..3], SAVE_2, sh);
    assert sh.closed == [[FIRST, SAVE_1, FITTING, SAVE_2]] && [STALE] + [THIRD] == [STALE, THIRD] && sh.active == [STALE];
    sh := CallReaches(steps[..4], THIRD, sh);
  }

  /** Purging at index 2 takes segment 0, purging at index 3 then takes segment 1. */
  lemma AheadGoes()
    ensures FirstGo([[FIRST, SAVE_1, FITTING, SAVE_2], [STALE, THIRD], [FRESH]], 2, 1)
    ensures FirstGo([[STALE, THIRD], [FRESH, Purge(Id(2)), FOURTH]], 3, 1)
  {
    hide Zeros;
    MaxIndexNone();
    var empty: seq<WalRecord> := [];
    MaxIndexSnoc([], FIRST);
    MaxIndexSnoc([FIRST], SAVE_1);
    MaxIndexSnoc([FIRST, SAVE_1], FITTING);
    MaxIndexSnoc([FIRST, SAVE_1, FITTING], SAVE_2);
    MaxIndexSnoc([], STALE);
    MaxIndexSnoc([STALE], THIRD);
    assert empty + [FIRST] == [FIRST] && [FIRST] + [SAVE_1] == [FIRST, SAVE_1];
    assert [FIRST, SAVE_1] + [FITTING] == [FIRST, SAVE_1, FITTING];
    assert [FIRST, SAVE_1, FITTING] + [SAVE_2] == [FIRST, SAVE_1, FITTING, SAVE_2];
    assert empty + [STALE] == [STALE] && [STALE] + [THIRD] == [STALE, THIRD];
  }

  function AheadSteps(): seq<Step> {
    AheadCalls() + [Call(PurgeTo(Id(2)))] + [Crash(CallOf(FOURTH), 1, 126)] + [Call(PurgeTo(Id(3)))]
  }

  lemma AheadEnds() returns (sh: Shape)
    ensures Reached(AheadSteps(), sh) && sh.state.committed == Some(Id(1))
    ensures SegmentsOf(sh) == [[FRESH, Purge(Id(2)), FOURTH, Purge(Id(3))]]
  {
    hide Reached, Zeros, FirstGo, AheadCalls, FoldFrom;
    AheadGoes();
    ReplayedPointers();
    sh := AheadReached();
    assert SegmentsOf(sh) == [[FIRST, SAVE_1, FITTING, SAVE_2], [STALE, THIRD], [FRESH]];
    sh := PurgeReaches(AheadCalls(), Id(2), 1, sh);
    assert sh.closed == [[STALE, THIRD]] && sh.active == [FRESH, Purge(Id(2))];
    sh := CrashReaches(AheadCalls() + [Call(PurgeTo(Id(2)))], FOURTH, sh);
    assert [FRESH, Purge(Id(2))] + [FOURTH] == [FRESH, Purge(Id(2)), FOURTH];
    assert [FRESH, Purge(Id(2)), FOURTH] + [Purge(Id(3))] == [FRESH, Purge(Id(2)), FOURTH, Purge(Id(3))];
    assert SegmentsOf(sh) == [[STALE, THIRD], [FRESH, Purge(Id(2)), FOURTH]];
    sh := PurgeReaches(AheadCalls() + [Call(PurgeTo(Id(2)))] + [Crash(CallOf(FOURTH), 1, 126)], Id(3), 1, sh);
  }

  lemma FirstCommittedSnoc(rs: seq<WalRecord>, r: WalRecord)
    ensures FirstCommitted(rs + [r]) ==
            if FirstCommitted(rs).None? && r.Checkpoint? then r.committed else FirstCommitted(rs)
  {
    assert (rs + [r])[..|rs|] == rs;
  }

  /** Without saved pointers a replay takes its first checkpoint's pointer. */
  lemma HeadDecides(k: WalRecord, rest: seq<WalRecord>)
    requires k.Checkpoint? && k.committed.Some? && !SavesPointer([k] + rest)
    ensures Fold([k] + rest).committed == k.committed
  {
    hide FoldFrom;
    var empty: seq<WalRecord> := [];
    FoldCommitted([k] + rest);
    FirstCommittedSnoc([], k);
    assert empty + [k] == [k];
    FirstCommittedKept([k], rest);
  }

  /** The stale pointer while segment 1 is there, the newer one once it is gone. */
  lemma ReplayedPointers()
    ensures Fold(Flat([[STALE, THIRD], [FRESH, Purge(Id(2)), FOURTH]])).committed == Some(Id(1))
    ensures Fold(Flat([[FRESH, Purge(Id(2)), FOURTH, Purge(Id(3))]])).committed == Some(Id(2))
  {
    hide FoldFrom, Zeros;
    var a, b, rest := [STALE, THIRD], [FRESH, Purge(Id(2)), FOURTH], [FRESH, Purge(Id(2)), FOURTH, Purge(Id(3))];
    assert [a, b][..1] == [a] && [a][..0] == [] && [rest][..0] == [];
    assert Flat([a]) == [] + a;
    assert Flat([a, b]) == a + b == [STALE] + [THIRD, FRESH, Purge(Id(2)), FOURTH];
    assert Flat([rest]) == [] + rest == [FRESH] + [Purge(Id(2)), FOURTH, Purge(Id(3))];
    HeadDecides(STALE, [THIRD, FRESH, Purge(Id(2)), FOURTH]);
    HeadDecides(FRESH, [Purge(Id(2)), FOURTH, Purge(Id(3))]);
  }

  lemma {:induction false} FirstCommittedKept(a: seq<WalRecord>, b: seq<WalRecord>)
    requires FirstCommitted(a).Some?
    ensures FirstCommitted(a + b) == FirstCommitted(a)
    decreases |b|
  {
    if b == [] {
      assert a + b == a;
    } else {
      FirstCommittedKept(a, b[..|b| - 1]);
      assert (a + b)[..|a + b| - 1] == a + b[..|b| - 1];
    }
  }

  /**
   A legal run, with every purge safe and saved pointers monotone, after which the replay is
   ahead of RAM: a reopen takes the stale pointer of segment 1, and once that segment is
   unlinked the disk holds the newer one only.
   */
  lemma ReplayRunsAhead()
    ensures var c, v := WireCodec(), Run(WireCodec(), AheadSteps());
            && c.Valid() && ReclaimingRun(c, AheadSteps())
            && v.state.committed == Some(Id(1)) && Fold(DirRecords(c, v.dir)).committed == Some(Id(2))
            && !PointerLe(Fold(DirRecords(c, v.dir)).committed, v.state.committed)
  {
    hide WireCodec, Codec.Valid, ReclaimingRun, Run, DirRecords, FoldFrom, Quiescent, Segments, AheadSteps;
    var sh := AheadEnds();
    WireCodecIsValid();
    DirIsFlat(WireCodec(), Run(WireCodec(), AheadSteps()).dir);
    ReplayedPointers();
  }
}
