/**
 The write-ahead log as a value: a directory of segment files, the active segment, the
 closed ones and the RAM view, with every operation as a function from one value to the
 next. Each operation also lists the directory states it passes through, because a crash
 may strike at any of them.
 */
module WalSpec {
  import opened Prelude
  import opened RaftTypes
  import opened WalFrames
  import opened WalRecords

  /** A segment file: its number, its bytes, and how many of them have reached the disk. */
  datatype SegFile = SegFile(seqNo: nat, bytes: seq<byte>, synced: nat)
  /** The directory, in segment order. */
  type Dir = seq<SegFile>

  datatype Segment = Segment(seqNo: nat, bytes: nat, maxIndex: Option<u64>)
  datatype ClosedSegment = ClosedSegment(seqNo: nat, maxIndex: Option<u64>)
  datatype WalView = WalView(dir: Dir, segment: Segment, closed: seq<ClosedSegment>, state: LogView)

  // ---- file operations ----

  function WriteActive(d: Dir, b: seq<byte>): Dir
    requires d != []
  {
    var last := d[|d| - 1];
    d[..|d| - 1] + [last.(bytes := last.bytes + b)]
  }

  function SyncActive(d: Dir): Dir
    requires d != []
  {
    var last := d[|d| - 1];
    d[..|d| - 1] + [last.(synced := |last.bytes|)]
  }

  function Remove(d: Dir, seqNo: nat): Dir {
    if d == [] then []
    else Remove(d[..|d| - 1], seqNo) + if d[|d| - 1].seqNo == seqNo then [] else [d[|d| - 1]]
  }

  // ---- append and rotate ----

  function Written(c: Codec, v: WalView, r: WalRecord): WalView
    requires v.dir != []
  {
    var f := FrameRecord(c, r);
    v.(dir := WriteActive(v.dir, f),
       segment := v.segment.(bytes := v.segment.bytes + |f|,
                             maxIndex := RaiseMax(v.segment.maxIndex, r)))
  }

  /** The current segment closed and the next one created, still empty. */
  function NextSegment(v: WalView): WalView
    requires v.dir != []
  {
    WalView(
      SyncActive(v.dir) + [SegFile(v.segment.seqNo + 1, [], 0)],
      Segment(v.segment.seqNo + 1, 0, None),
      v.closed + [ClosedSegment(v.segment.seqNo, v.segment.maxIndex)],
      v.state)
  }

  function Rotated(c: Codec, v: WalView): WalView
    requires v.dir != []
  {
    Written(c, NextSegment(v), CheckpointOf(v.state))
  }

  predicate Full(v: WalView) {
    v.segment.bytes >= SEGMENT_MAX_BYTES
  }

  function Appended(c: Codec, v: WalView, r: WalRecord): (w: WalView)
    requires v.dir != []
    ensures w.dir != []
    ensures w.state == v.state
  {
    var w := Written(c, v, r);
    if Full(w) then Rotated(c, w) else w
  }

  /** Append first, fold into RAM second. */
  function Issued(c: Codec, v: WalView, r: WalRecord): (w: WalView)
    requires v.dir != []
    ensures w.dir != []
  {
    var w := Appended(c, v, r);
    w.(state := ApplyRecord(w.state, r))
  }

  function IssuedAll(c: Codec, v: WalView, rs: seq<WalRecord>): (w: WalView)
    requires v.dir != []
    ensures w.dir != []
  {
    if rs == [] then v else Issued(c, IssuedAll(c, v, rs[..|rs| - 1]), rs[|rs| - 1])
  }

  function Synced(v: WalView): (w: WalView)
    requires v.dir != []
    ensures w.dir != []
  {
    v.(dir := SyncActive(v.dir))
  }

  // ---- purge-time reclamation ----

  predicate Removable(s: ClosedSegment, index: u64) {
    s.maxIndex.None? || s.maxIndex.value <= index
  }

  function Surviving(closed: seq<ClosedSegment>, index: u64): seq<ClosedSegment> {
    if closed == [] then []
    else
      var last := closed[|closed| - 1];
      Surviving(closed[..|closed| - 1], index) + if Removable(last, index) then [] else [last]
  }

  function Unlinked(d: Dir, closed: seq<ClosedSegment>, index: u64): Dir {
    if closed == [] then d
    else
      var last := closed[|closed| - 1];
      var before := Unlinked(d, closed[..|closed| - 1], index);
      if Removable(last, index) then Remove(before, last.seqNo) else before
  }

  lemma NothingReclaimed(d: Dir, index: u64)
    ensures Surviving([], index) == [] && Unlinked(d, [], index) == d && UnlinkVisits(d, [], index) == []
  {
  }

  /** One turn of the reclamation loop. */
  lemma ReclaimSteps(d: Dir, closed: seq<ClosedSegment>, i: nat, index: u64)
    requires i < |closed|
    ensures var front, next, s := closed[..i], closed[..i + 1], closed[i];
            && Surviving(next, index) == Surviving(front, index) + (if Removable(s, index) then [] else [s])
            && Unlinked(d, next, index) ==
               (if Removable(s, index) then Remove(Unlinked(d, front, index), s.seqNo) else Unlinked(d, front, index))
            && UnlinkVisits(d, next, index) ==
               UnlinkVisits(d, front, index) + (if Removable(s, index) then [Unlinked(d, next, index)] else [])
  {
    assert closed[..i + 1][..i] == closed[..i];
  }

  function Reclaimed(v: WalView, index: u64): WalView {
    v.(dir := Unlinked(v.dir, v.closed, index), closed := Surviving(v.closed, index))
  }

  // ---- the four mutations ----

  datatype Op =
    | AppendEntries(entries: seq<Entry>)
    | Truncate(index: u64)
    | PurgeTo(logId: LogId)
    | SaveCommitted(pointer: Option<LogId>)

  function EntryRecords(entries: seq<Entry>): (rs: seq<WalRecord>)
    ensures |rs| == |entries|
    ensures forall i :: 0 <= i < |rs| ==> rs[i] == EntryRecord(entries[i])
  {
    seq(|entries|, i requires 0 <= i < |entries| => EntryRecord(entries[i]))
  }

  function OpRecords(op: Op): seq<WalRecord> {
    match op
    case AppendEntries(entries) => EntryRecords(entries)
    case Truncate(index) => [TruncateFrom(index)]
    case PurgeTo(logId) => [Purge(logId)]
    case SaveCommitted(p) => [Committed(p)]
  }

  function Done(c: Codec, v: WalView, op: Op): WalView
    requires v.dir != []
  {
    var w := Synced(IssuedAll(c, v, OpRecords(op)));
    if op.PurgeTo? then Reclaimed(w, op.logId.index) else w
  }

  // ---- the directory states an operation passes through ----

  function AppendVisits(c: Codec, v: WalView, r: WalRecord): seq<Dir>
    requires v.dir != []
  {
    var w := Written(c, v, r);
    if Full(w) then [w.dir, SyncActive(w.dir), NextSegment(w).dir, Rotated(c, w).dir] else [w.dir]
  }

  function IssueVisits(c: Codec, v: WalView, rs: seq<WalRecord>): seq<Dir>
    requires v.dir != []
  {
    if rs == [] then []
    else
      var front := rs[..|rs| - 1];
      IssueVisits(c, v, front) + AppendVisits(c, IssuedAll(c, v, front), rs[|rs| - 1])
  }

  function UnlinkVisits(d: Dir, closed: seq<ClosedSegment>, index: u64): seq<Dir> {
    if closed == [] then []
    else
      var front := closed[..|closed| - 1];
      UnlinkVisits(d, front, index) +
      if Removable(closed[|closed| - 1], index) then [Unlinked(d, closed, index)] else []
  }

  function Visits(c: Codec, v: WalView, op: Op): seq<Dir>
    requires v.dir != []
  {
    var w := IssuedAll(c, v, OpRecords(op));
    IssueVisits(c, v, OpRecords(op)) + [Synced(w).dir] +
    if op.PurgeTo? then UnlinkVisits(Synced(w).dir, w.closed, op.logId.index) else []
  }

  lemma SingleIssue(c: Codec, v: WalView, r: WalRecord)
    requires v.dir != []
    ensures IssuedAll(c, v, [r]) == Issued(c, v, r)
    ensures IssueVisits(c, v, [r]) == AppendVisits(c, v, r)
  {
    assert [r][..0] == [];
  }

  // ---- recovery ----

  function DirRecords(c: Codec, d: Dir): seq<WalRecord> {
    if d == [] then [] else DirRecords(c, d[..|d| - 1]) + Scan(c, d[|d| - 1].bytes).records
  }

  /** The first segment with a bad frame; |d| when there is none. */
  function FirstBad(c: Codec, d: Dir): (n: nat)
    ensures n <= |d|
    ensures forall i :: 0 <= i < n ==> Clean(c, d[i].bytes)
    ensures n < |d| ==> !Clean(c, d[n].bytes)
  {
    if d == [] then 0
    else
      var n := FirstBad(c, d[..|d| - 1]);
      if n < |d| - 1 || !Clean(c, d[n].bytes) then n else |d|
  }

  /** The longest clean prefix: the bad segment cut at its last good offset, later ones gone. */
  function CleanPrefix(c: Codec, d: Dir): Dir {
    var n := FirstBad(c, d);
    if n == |d| then d
    else
      var good := Scan(c, d[n].bytes).good;
      d[..n] + [SegFile(d[n].seqNo, d[n].bytes[..good], good)]
  }

  function ClosedOf(c: Codec, d: Dir): (closed: seq<ClosedSegment>)
    ensures |closed| == |d|
    ensures forall i :: 0 <= i < |d| ==> closed[i] == ClosedSegment(d[i].seqNo, MaxIndex(Scan(c, d[i].bytes).records))
  {
    seq(|d|, i requires 0 <= i < |d| => ClosedSegment(d[i].seqNo, MaxIndex(Scan(c, d[i].bytes).records)))
  }

  /** What opening a directory gives when the damage, if any, is confined to its last segment. */
  function Recovered(c: Codec, d: Dir): WalView {
    if d == [] then
      WalView([SegFile(0, [], 0)], Segment(0, 0, None), [], EMPTY_VIEW)
    else
      var kept := CleanPrefix(c, d);
      var last := kept[|kept| - 1];
      WalView(
        kept,
        Segment(last.seqNo, |last.bytes|, MaxIndex(Scan(c, last.bytes).records)),
        ClosedOf(c, kept[..|kept| - 1]),
        Fold(DirRecords(c, kept)))
  }

  /** Damage further back: the later segments go, and segment 0 becomes the active one,
      created at the front when it no longer exists. */
  function Misplaced(c: Codec, d: Dir): WalView {
    var kept := CleanPrefix(c, d);
    var closed := ClosedOf(c, kept);
    var state := Fold(DirRecords(c, kept));
    if kept != [] && kept[0].seqNo == 0 then
      WalView(kept, Segment(0, |kept[0].bytes|, closed[0].maxIndex), closed[1..], state)
    else
      WalView([SegFile(0, [], 0)] + kept, Segment(0, 0, None), closed, state)
  }

  function Opened(c: Codec, d: Dir): WalView {
    if FirstBad(c, d) < |d| - 1 then Misplaced(c, d) else Recovered(c, d)
  }

  /** The damage a crash can do is confined to the last segment. */
  predicate TailDamageOnly(c: Codec, d: Dir) {
    forall i :: 0 <= i < |d| - 1 ==> Clean(c, d[i].bytes)
  }

  // ---- consistency ----

  ghost predicate Ascending(d: Dir) {
    forall i, j :: 0 <= i < j < |d| ==> d[i].seqNo < d[j].seqNo
  }

  /** Every segment but the active one is on disk in full; the active one is clean up to
      whatever has been synced. */
  ghost predicate Durable(c: Codec, d: Dir) {
    && d != []
    && Ascending(d)
    && (forall i :: 0 <= i < |d| ==> Clean(c, d[i].bytes))
    && (forall i :: 0 <= i < |d| - 1 ==> d[i].synced == |d[i].bytes|)
    && d[|d| - 1].synced <= |d[|d| - 1].bytes|
    && Clean(c, d[|d| - 1].bytes[..d[|d| - 1].synced])
  }

  /** The RAM bookkeeping describes the directory. */
  ghost predicate Tracked(c: Codec, v: WalView) {
    && v.dir != [] && Durable(c, v.dir)
    && var last := v.dir[|v.dir| - 1];
    && v.segment == Segment(last.seqNo, |last.bytes|, MaxIndex(Scan(c, last.bytes).records))
    && v.closed == ClosedOf(c, v.dir[..|v.dir| - 1])
  }

  /** Between calls everything written is also synced. */
  ghost predicate Quiescent(c: Codec, v: WalView) {
    Tracked(c, v) && v.dir[|v.dir| - 1].synced == |v.dir[|v.dir| - 1].bytes|
  }

  /** RAM is exactly the replay of the disk. */
  predicate InSync(c: Codec, v: WalView) {
    v.state == Fold(DirRecords(c, v.dir))
  }
}
