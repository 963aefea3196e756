/**
 Whole runs with reclamation: crashes may strike inside any call, part-way through the
 unlinks too, and the recovered entries and purge point are still the fold of what the
 callers issued, with a commit pointer never ahead of the highest one saved.
 */
module WalReclaimRuns {
  import opened Prelude
  import opened RaftTypes
  import opened WalFrames
  import opened WalRecords
  import opened WalSpec
  import opened WalCrash
  import opened WalReclaim

  // ---- commit pointers ----

  function Raised(high: Option<LogId>, r: WalRecord): Option<LogId> {
    if r.Committed? then r.pointer else high
  }

  /** The last commit pointer saved. */
  function Highest(high: Option<LogId>, rs: seq<WalRecord>): Option<LogId> {
    if rs == [] then high else Raised(Highest(high, rs[..|rs| - 1]), rs[|rs| - 1])
  }

  /** The hypothesis on callers: saved commit pointers never go back. */
  ghost predicate Monotone(high: Option<LogId>, rs: seq<WalRecord>) {
    rs == [] ||
    (var front, r := rs[..|rs| - 1], rs[|rs| - 1];
     Monotone(high, front) && (r.Committed? ==> PointerLe(Highest(high, front), r.pointer)))
  }

  predicate Bounded(r: WalRecord, high: Option<LogId>) {
    match r
    case Committed(p) => PointerLe(p, high)
    case Checkpoint(_, p) => PointerLe(p, high)
    case _ => true
  }

  ghost predicate AllBounded(rs: seq<WalRecord>, high: Option<LogId>) {
    forall r :: r in rs ==> Bounded(r, high)
  }

  lemma {:induction false} BoundedFold(rs: seq<WalRecord>, high: Option<LogId>)
    requires AllBounded(rs, high)
    ensures PointerLe(Fold(rs).committed, high)
  {
    if rs != [] {
      assert rs[|rs| - 1] in rs;
      BoundedFold(rs[..|rs| - 1], high);
    }
  }

  // ---- checkpoints never disturb the purge point ----

  ghost predicate PurgeHonest(rs: seq<WalRecord>, from: nat) {
    forall i :: from <= i < |rs| && rs[i].Checkpoint? && Fold(rs[..i]).lastPurged.None? ==> rs[i].lastPurged.None?
  }

  lemma PurgeHonestPrefix(a: seq<WalRecord>, b: seq<WalRecord>, from: nat)
    requires IsPrefix(a, b) && PurgeHonest(b, from)
    ensures PurgeHonest(a, from)
  {
    hide FoldFrom;
    forall i | from <= i < |a| && a[i].Checkpoint? && Fold(a[..i]).lastPurged.None?
      ensures a[i].lastPurged.None?
    {
      assert a[i] == b[i] && a[..i] == b[..i];
    }
  }

  lemma PurgeHonestSnoc(rs: seq<WalRecord>, r: WalRecord, from: nat)
    requires PurgeHonest(rs, from)
    requires r.Checkpoint? && Fold(rs).lastPurged.None? ==> r.lastPurged.None?
    ensures PurgeHonest(rs + [r], from)
  {
    hide FoldFrom;
    var t := rs + [r];
    forall i | from <= i < |t| && t[i].Checkpoint? && Fold(t[..i]).lastPurged.None?
      ensures t[i].lastPurged.None?
    {
      assert i < |rs| ==> t[..i] == rs[..i] && t[i] == rs[i];
      assert i == |rs| ==> t[..i] == rs;
    }
  }

  lemma CheckpointKeepsLog(s: LogView, k: WalRecord, t: LogView)
    requires k.Checkpoint? && (s.lastPurged.None? ==> k.lastPurged.None?) && SameLog(s, t)
    ensures SameLog(ApplyRecord(s, k), t)
  {
  }

  lemma SameLogReflexive(s: LogView)
    ensures SameLog(s, s)
  {
  }

  lemma SameLogStep(a: LogView, b: LogView, r: WalRecord)
    requires SameLog(a, b)
    ensures SameLog(ApplyRecord(a, r), ApplyRecord(b, r))
  {
  }

  lemma {:induction false} PurgeHonestFold(rs: seq<WalRecord>, from: nat)
    requires from <= |rs| && PurgeHonest(rs, from)
    ensures SameLog(Fold(rs), FoldFrom(Fold(rs[..from]), Plain(rs[from..])))
    decreases |rs|
  {
    hide SameLog, ApplyRecord;
    if from == |rs| {
      assert rs[..from] == rs && rs[from..] == [];
      SameLogReflexive(Fold(rs));
    } else {
      var front, last := rs[..|rs| - 1], rs[|rs| - 1];
      PurgeHonestPrefix(front, rs, from);
      PurgeHonestFold(front, from);
      assert front[..from] == rs[..from] && rs[from..][..|rs| - from - 1] == front[from..];
      var start, plain := Fold(rs[..from]), Plain(front[from..]);
      if last.Checkpoint? {
        assert Plain(rs[from..]) == plain;
        CheckpointKeepsLog(Fold(front), last, FoldFrom(start, plain));
      } else {
        FoldSnoc(start, plain, last);
        SameLogStep(Fold(front), FoldFrom(start, plain), last);
      }
    }
  }

  lemma {:induction false} SameLogFold(a: LogView, b: LogView, rs: seq<WalRecord>)
    requires SameLog(a, b)
    ensures SameLog(FoldFrom(a, rs), FoldFrom(b, rs))
  {
    if rs != [] {
      SameLogFold(a, b, rs[..|rs| - 1]);
    }
  }

  // ---- issuing records ----

  /** RAM and replay agree on entries and purge point; no commit pointer in RAM or on disk is
      above `high`. */
  ghost predicate Healthy(c: Codec, v: WalView, high: Option<LogId>) {
    && SameLog(v.state, Fold(DirRecords(c, v.dir)))
    && AllBounded(DirRecords(c, v.dir), high)
    && PointerLe(v.state.committed, high)
  }

  lemma PointerLeTransitive(a: Option<LogId>, b: Option<LogId>, d: Option<LogId>)
    requires PointerLe(a, b) && PointerLe(b, d)
    ensures PointerLe(a, d)
  {
  }

  lemma BoundsRise(rs: seq<WalRecord>, high: Option<LogId>, higher: Option<LogId>)
    requires AllBounded(rs, high) && PointerLe(high, higher)
    ensures AllBounded(rs, higher)
  {
    hide PointerLe;
    forall r | r in rs
      ensures Bounded(r, higher)
    {
      if r.Committed? {
        PointerLeTransitive(r.pointer, high, higher);
      } else if r.Checkpoint? {
        PointerLeTransitive(r.committed, high, higher);
      }
    }
  }

  lemma PointerLeReflexive(a: Option<LogId>)
    ensures PointerLe(a, a)
  {
  }

  lemma StepHealthy(before: seq<WalRecord>, ram: LogView, r: WalRecord, tail: seq<WalRecord>, high: Option<LogId>)
    requires SameLog(ram, Fold(before)) && AllBounded(before, high) && PointerLe(ram.committed, high)
    requires !r.Checkpoint? && (r.Committed? ==> PointerLe(high, r.pointer))
    requires tail == [] || tail == [CheckpointOf(ram)]
    ensures SameLog(ApplyRecord(ram, r), Fold(before + [r] + tail))
    ensures AllBounded(before + [r] + tail, Raised(high, r))
    ensures PointerLe(ApplyRecord(ram, r).committed, Raised(high, r))
  {
    hide PointerLe, FoldFrom;
    var higher := Raised(high, r);
    PointerLeReflexive(higher);
    BoundsRise(before, high, higher);
    PointerLeTransitive(ram.committed, high, higher);
    assert Bounded(r, higher) && Bounded(CheckpointOf(ram), higher);
    FoldSnoc(EMPTY_VIEW, before, r);
    if tail == [] {
      assert before + [r] + tail == before + [r];
    } else {
      FoldSnoc(EMPTY_VIEW, before + [r], CheckpointOf(ram));
    }
  }

  lemma StepHonest(before: seq<WalRecord>, ram: LogView, r: WalRecord, tail: seq<WalRecord>, from: nat)
    requires SameLog(ram, Fold(before)) && !r.Checkpoint?
    requires tail == [] || tail == [CheckpointOf(ram)]
    requires from <= |before| && PurgeHonest(before, from)
    ensures PurgeHonest(before + [r] + tail, from)
    ensures Plain((before + [r] + tail)[from..]) == Plain(before[from..]) + [r]
  {
    hide PurgeHonest, Plain;
    FoldSnoc(EMPTY_VIEW, before, r);
    PurgeHonestSnoc(before, r, from);
    PlainOf1(r);
    PlainConcat(before[from..], [r] + tail);
    assert (before + [r] + tail)[from..] == before[from..] + ([r] + tail);
    if tail == [] {
      assert before + [r] + tail == before + [r] && [r] + tail == [r];
    } else {
      PurgeHonestSnoc(before + [r], CheckpointOf(ram), from);
      PlainOf2(r, CheckpointOf(ram));
    }
  }

  lemma IssueOneHealthy(c: Codec, v: WalView, r: WalRecord, high: Option<LogId>, from: nat)
    requires c.Valid() && c.Fits(r) && Tracked(c, v) && Healthy(c, v, high) && !r.Checkpoint?
    requires r.Committed? ==> PointerLe(high, r.pointer)
    requires from <= |DirRecords(c, v.dir)| && PurgeHonest(DirRecords(c, v.dir), from)
    ensures var w := Issued(c, v, r);
            && Tracked(c, w) && Healthy(c, w, Raised(high, r))
            && from <= |DirRecords(c, w.dir)| && PurgeHonest(DirRecords(c, w.dir), from)
            && Plain(DirRecords(c, w.dir)[from..]) == Plain(DirRecords(c, v.dir)[from..]) + [r]
  {
    hide DirRecords, Tracked, Written, Full, Appended, PurgeHonest, Codec.Valid, Codec.Fits, FoldFrom, SameLog,
         AllBounded, PointerLe, CheckpointOf, Plain;
    TrackedHasDir(c, v);
    IssuedIsTracked(c, v, r);
    var before, tail := DirRecords(c, v.dir), Stream(c, v, r)[1..];
    assert before + Stream(c, v, r) == before + [r] + tail;
    StepHealthy(before, v.state, r, tail, high);
    StepHonest(before, v.state, r, tail, from);
  }

  lemma {:induction false} IssueHealthy(c: Codec, v: WalView, rs: seq<WalRecord>, high: Option<LogId>, from: nat)
    requires c.Valid() && AllFit(c, rs) && Tracked(c, v) && Healthy(c, v, high)
    requires NoCheckpoints(rs) && Monotone(high, rs)
    requires from <= |DirRecords(c, v.dir)| && PurgeHonest(DirRecords(c, v.dir), from)
    ensures v.dir != []
    ensures var w := IssuedAll(c, v, rs);
            && Tracked(c, w) && Healthy(c, w, Highest(high, rs))
            && from <= |DirRecords(c, w.dir)| && PurgeHonest(DirRecords(c, w.dir), from)
            && Plain(DirRecords(c, w.dir)[from..]) == Plain(DirRecords(c, v.dir)[from..]) + rs
  {
    hide DirRecords, Tracked, Issued, PurgeHonest, Healthy, Plain, PointerLe;
    TrackedHasDir(c, v);
    if rs == [] {
      var p := Plain(DirRecords(c, v.dir)[from..]);
      assert p + rs == p;
    } else {
      var front, r := rs[..|rs| - 1], rs[|rs| - 1];
      IssueHealthy(c, v, front, high, from);
      IssueOneHealthy(c, IssuedAll(c, v, front), r, Highest(high, front), from);
      assert rs == front + [r];
    }
  }

  // ---- calls ----

  /** The hypotheses on one call when segments may be reclaimed. */
  ghost predicate Allowed(c: Codec, v: WalView, op: Op, high: Option<LogId>)
    requires v.dir != []
  {
    && AllFit(c, OpRecords(op))
    && Monotone(high, OpRecords(op))
    && (op.PurgeTo? ==> PurgeSafe(c, v, op.logId))
  }

  /** A call that returns keeps RAM, replay and the commit bound in step. */
  lemma CallIsHealthy(c: Codec, v: WalView, op: Op, high: Option<LogId>)
    requires c.Valid() && Quiescent(c, v) && Healthy(c, v, high) && Allowed(c, v, op, high)
    ensures var w := Done(c, v, op);
            && Quiescent(c, w) && Healthy(c, w, Highest(high, OpRecords(op)))
            && w.state == FoldFrom(v.state, OpRecords(op))
  {
    hide DirRecords, Tracked, IssuedAll, Synced, PointerLe, PurgeHonest, Plain, FoldFrom, Monotone, AllBounded, PurgeSafe, AllFit, Issued;
    var rs := OpRecords(op);
    OpRecordsPlain(op);
    QuiescentIsSafe(c, v);
    var all := DirRecords(c, v.dir);
    assert PurgeHonest(all, |all|) by { NothingBeyond(all); }
    IssueHealthy(c, v, rs, high, |all|);
    IssueIsTracked(c, v, rs, all);
    var u := IssuedAll(c, v, rs);
    TrackedHasDir(c, u);
    SyncIsTracked(c, u);
    if op.PurgeTo? {
      PurgeIsHealthy(c, v, op.logId, high, Highest(high, rs));
    } else {
      assert Done(c, v, op) == Synced(u);
    }
  }

  lemma NothingBeyond(rs: seq<WalRecord>)
    ensures PurgeHonest(rs, |rs|)
  {
  }

  lemma PurgeIsHealthy(c: Codec, v: WalView, logId: LogId, high: Option<LogId>, top: Option<LogId>)
    requires c.Valid() && Quiescent(c, v) && Healthy(c, v, high) && AllFit(c, [Purge(logId)])
    requires v.dir != [] && PurgeSafe(c, v, logId)
    requires Healthy(c, IssuedAll(c, v, [Purge(logId)]), top)
    ensures var w := Done(c, v, PurgeTo(logId));
            && Quiescent(c, w) && Healthy(c, w, top)
            && w.state == FoldFrom(v.state, [Purge(logId)])
  {
    hide DirRecords, Quiescent, IssuedAll, Synced, PointerLe, FoldFrom, PurgeSafe, Issued, Done;
    assert Purge(logId) in [Purge(logId)];
    SingleIssue(c, v, Purge(logId));
    FoldOne(v.state, Purge(logId));
    PurgeIsTracked(c, v, logId);
    PurgeKeepsMeaning(c, v, logId, RemovableCount(Marked(c, v, logId).closed, logId.index));
    IssuedSynced(c, v, logId);
  }

  lemma IssuedSynced(c: Codec, v: WalView, logId: LogId)
    requires c.Valid() && Quiescent(c, v) && c.Fits(Purge(logId))
    ensures v.dir != []
    ensures DirRecords(c, Marked(c, v, logId).dir) == DirRecords(c, Issued(c, v, Purge(logId)).dir)
    ensures Issued(c, v, Purge(logId)).state == ApplyRecord(v.state, Purge(logId))
  {
    hide DirRecords, Tracked, Appended;
    TrackedHasDir(c, v);
    IssuedIsTracked(c, v, Purge(logId));
    SyncIsTracked(c, Issued(c, v, Purge(logId)));
  }

  // ---- the commit pointer of a replay ----

  /** The commit pointer of the first checkpoint that carries one. */
  function FirstCommitted(rs: seq<WalRecord>): Option<LogId> {
    if rs == [] then None
    else
      var front, last := FirstCommitted(rs[..|rs| - 1]), rs[|rs| - 1];
      if front.None? && last.Checkpoint? then last.committed else front
  }

  ghost predicate SavesPointer(rs: seq<WalRecord>) {
    exists r :: r in rs && r.Committed?
  }

  lemma {:induction false} FoldCommitted(rs: seq<WalRecord>)
    requires !SavesPointer(rs)
    ensures Fold(rs).committed == FirstCommitted(rs)
  {
    if rs != [] {
      assert forall r :: r in rs[..|rs| - 1] ==> r in rs;
      FoldCommitted(rs[..|rs| - 1]);
    }
  }

  /** Behind a saved pointer the replay does not remember what came before. */
  lemma {:induction false} SavedPointerDecides(s: LogView, t: LogView, rs: seq<WalRecord>)
    requires SavesPointer(rs)
    ensures FoldFrom(s, rs).committed == FoldFrom(t, rs).committed
  {
    var front, last := rs[..|rs| - 1], rs[|rs| - 1];
    if !last.Committed? {
      assert rs == front + [last];
      SavedPointerDecides(s, t, front);
    }
  }

  /**
   A safe purge. The replay of the survivors is not ahead of RAM exactly when, with a saved
   pointer among them, it was not ahead before the purge, and otherwise when the first surviving
   checkpoint that carries a pointer is not ahead of RAM.
   */
  lemma PointerAfterPurgeIsExact(c: Codec, v: WalView, logId: LogId)
    requires c.Valid() && c.Fits(Purge(logId)) && Quiescent(c, v) && PurgeSafe(c, v, logId)
    requires SameLog(v.state, Fold(DirRecords(c, v.dir)))
    ensures var w := Done(c, v, PurgeTo(logId));
            var survivors := DirRecords(c, w.dir);
            && w.state.committed == v.state.committed
            && (PointerLe(Fold(survivors).committed, v.state.committed) <==>
                  if SavesPointer(survivors) then PointerLe(Fold(DirRecords(c, v.dir)).committed, v.state.committed)
                  else PointerLe(FirstCommitted(survivors), v.state.committed))
  {
    hide DirRecords, Tracked, PointerLe, PurgeSafe, Issued, FoldFrom, Marked, Full, Written, SavesPointer, Done;
    TrackedHasDir(c, v);
    PurgeIsTracked(c, v, logId);
    var m, w := Marked(c, v, logId), Done(c, v, PurgeTo(logId));
    var n := RemovableCount(m.closed, logId.index);
    PurgeKeepsMeaning(c, v, logId, n);
    MarkedRecords(c, v, logId);
    var gone, survivors := DirRecords(c, m.dir[..n]), DirRecords(c, w.dir);
    PointerAcrossPurge(c, v, logId);
    if SavesPointer(survivors) {
      FoldConcat(EMPTY_VIEW, gone, survivors);
      SavedPointerDecides(Fold(gone), EMPTY_VIEW, survivors);
      UnknownIsBehind(v.state.committed);
      PointerLeReflexive(v.state.committed);
    } else {
      FoldCommitted(survivors);
    }
  }

  lemma UnknownIsBehind(p: Option<LogId>)
    ensures PointerLe(None, p)
  {
  }

  /** Writing the Purge record leaves the replayed pointer alone, unless there was none: a
      rotation then writes the one in RAM. */
  lemma PointerAcrossPurge(c: Codec, v: WalView, logId: LogId)
    requires c.Valid() && c.Fits(Purge(logId)) && Quiescent(c, v)
    ensures v.dir != []
    ensures var before, after := Fold(DirRecords(c, v.dir)).committed, Fold(DirRecords(c, Marked(c, v, logId).dir)).committed;
            after == before || (before.None? && after == v.state.committed)
  {
    hide DirRecords, Tracked, Marked, Full, Written;
    TrackedHasDir(c, v);
    MarkedRecords(c, v, logId);
    var before := DirRecords(c, v.dir);
    FoldSnoc(EMPTY_VIEW, before, Purge(logId));
    if Full(Written(c, v, Purge(logId))) {
      assert before + Stream(c, v, Purge(logId)) == before + [Purge(logId)] + [CheckpointOf(v.state)];
      FoldSnoc(EMPTY_VIEW, before + [Purge(logId)], CheckpointOf(v.state));
    } else {
      assert before + Stream(c, v, Purge(logId)) == before + [Purge(logId)];
    }
  }

  /** The first purge after a reopen: a saved pointer that survives keeps the replay in step. */
  lemma ReopenedPurgeIsExact(c: Codec, v: WalView, logId: LogId)
    requires c.Valid() && c.Fits(Purge(logId)) && Quiescent(c, v) && InSync(c, v) && PurgeSafe(c, v, logId)
    ensures var w := Done(c, v, PurgeTo(logId));
            var survivors := DirRecords(c, w.dir);
            && w.state.committed == v.state.committed
            && (PointerLe(Fold(survivors).committed, w.state.committed) <==>
                  SavesPointer(survivors) || PointerLe(FirstCommitted(survivors), v.state.committed))
  {
    hide DirRecords, Quiescent, PointerLe, PurgeSafe, FoldFrom, SavesPointer, Done;
    PointerAfterPurgeIsExact(c, v, logId) by { SameLogReflexive(v.state); }
    PointerLeReflexive(v.state.committed);
  }

  // ---- crashes, part-way through the unlinks too ----

  /** The records a reopen finds, relative to what was on disk when the call started. */
  lemma RecoveredPrefix(c: Codec, v: WalView, rs: seq<WalRecord>, high: Option<LogId>, got: seq<WalRecord>) returns (n: nat)
    requires c.Valid() && Quiescent(c, v) && Healthy(c, v, high)
    requires AllFit(c, rs) && NoCheckpoints(rs) && Monotone(high, rs)
    requires v.dir != [] && IsPrefix(DirRecords(c, v.dir), got) && IsPrefix(got, DirRecords(c, IssuedAll(c, v, rs).dir))
    ensures n <= |rs| && SameLog(Fold(got), FoldFrom(v.state, rs[..n]))
    ensures AllBounded(got, Highest(high, rs))
  {
    hide DirRecords, Tracked, IssuedAll, PointerLe, Plain, FoldFrom, Monotone, PurgeHonest, AllFit;
    var base := DirRecords(c, v.dir);
    var all := DirRecords(c, IssuedAll(c, v, rs).dir);
    NothingBeyond(base);
    IssueHealthy(c, v, rs, high, |base|);
    assert base[|base|..] == [] && Plain(base[|base|..]) == [] by { assert Plain([]) == [] by { PlainOfPlain([]); } }
    assert [] + rs == rs;
    assert Plain(all[|base|..]) == rs;
    PurgeHonestPrefix(got, all, |base|);
    PurgeHonestFold(got, |base|);
    PlainPrefix(got[|base|..], all[|base|..]);
    var plain := Plain(got[|base|..]);
    n := |plain|;
    assert plain == rs[..n] && got[..|base|] == base;
    SameLogFold(v.state, Fold(base), plain);
  }

  /** Between a purge's Purge record and the end of its unlinks. */
  lemma UnlinkVisit(c: Codec, v: WalView, logId: LogId, d: Dir)
    requires c.Valid() && c.Fits(Purge(logId)) && Quiescent(c, v) && v.dir != [] && PurgeSafe(c, v, logId)
    requires d in UnlinkVisits(Marked(c, v, logId).dir, Marked(c, v, logId).closed, logId.index)
    ensures Durable(c, d) && SafeRecords(c, d) == DirRecords(c, d)
    ensures SameLog(Fold(DirRecords(c, Marked(c, v, logId).dir)), Fold(DirRecords(c, d)))
    ensures forall r :: r in DirRecords(c, d) ==> r in DirRecords(c, Marked(c, v, logId).dir)
  {
    hide DirRecords, Durable, PurgeSafe, Marked, SameLog, FoldFrom, SafeRecords;
    MarkedRecords(c, v, logId);
    var m := Marked(c, v, logId);
    TrackedClosed(c, m);
    SafeIsPrefix(c, v, logId);
    UnlinkVisitsArePrefixes(m.dir, m.closed, logId.index, d);
    var i :| 0 < i <= RemovableCount(m.closed, logId.index) && d == m.dir[i..];
    PurgeKeepsMeaning(c, v, logId, i);
    PartlyIsDurable(c, v, logId, i);
  }

  lemma CrashInUnlinks(c: Codec, v: WalView, logId: LogId, high: Option<LogId>, d: Dir, cut: nat)
    requires c.Valid() && c.Fits(Purge(logId)) && Quiescent(c, v) && v.dir != [] && PurgeSafe(c, v, logId)
    requires Healthy(c, v, high) && Healthy(c, Issued(c, v, Purge(logId)), high)
    requires d in UnlinkVisits(Marked(c, v, logId).dir, Marked(c, v, logId).closed, logId.index) && CanCut(d, cut)
    ensures var w := Opened(c, Crashed(d, cut));
            && Quiescent(c, w) && Healthy(c, w, high)
            && SameLog(w.state, FoldFrom(v.state, [Purge(logId)]))
  {
    hide DirRecords, Quiescent, Durable, PurgeSafe, Marked, SafeRecords, Opened, FoldFrom, Issued, PointerLe, ApplyRecord;
    UnlinkVisit(c, v, logId, d);
    CrashRecovers(c, d, cut);
    var w := Opened(c, Crashed(d, cut));
    assert DirRecords(c, w.dir) == DirRecords(c, d) by {
      PrefixesMeet(DirRecords(c, w.dir), DirRecords(c, d));
    }
    IssuedSynced(c, v, logId);
    MarkedReplay(c, v, logId);
    MarkedRecords(c, v, logId);
    FoldOne(v.state, Purge(logId));
    BoundedFold(DirRecords(c, w.dir), high);
  }

  lemma PrefixesMeet<T>(a: seq<T>, b: seq<T>)
    requires IsPrefix(a, b) && IsPrefix(b, a)
    ensures a == b
  {
  }

  /** A call cut short anywhere: the reopened log is what the acknowledged calls and some
      prefix of this one amount to. */
  lemma CrashIsHealthy(c: Codec, v: WalView, op: Op, high: Option<LogId>, at: nat, cut: nat) returns (n: nat)
    requires c.Valid() && Quiescent(c, v) && Healthy(c, v, high) && Allowed(c, v, op, high)
    requires CrashPossible(c, v, op, at, cut)
    ensures n <= |OpRecords(op)|
    ensures var w := AfterCrash(c, v, op, at, cut);
            && Quiescent(c, w) && Healthy(c, w, Highest(high, OpRecords(op)))
            && SameLog(w.state, FoldFrom(v.state, OpRecords(op)[..n]))
  {
    hide DirRecords, Durable, IssuedAll, Synced, PointerLe, PurgeHonest, Plain, FoldFrom, Monotone, PurgeSafe,
         AllFit, Issued, Opened, SafeRecords, UnlinkVisits, IssueVisits, AllBounded, Tracked, SameLog;
    TrackedHasDir(c, v);
    var rs := OpRecords(op);
    OpRecordsPlain(op);
    var d := Visits(c, v, op)[at];
    var w := Opened(c, Crashed(d, cut));
    assert w == AfterCrash(c, v, op, at, cut);
    QuiescentIsSafe(c, v);
    var base := DirRecords(c, v.dir);
    IssueIsTracked(c, v, rs, base);
    var u := IssuedAll(c, v, rs);
    var all := DirRecords(c, u.dir);
    if d in IssueVisits(c, v, rs) || d == Synced(u).dir {
      TrackedHasDir(c, u);
      SyncedBetween(c, u, base);
      assert Between(c, d, base, all);
      CrashRecovers(c, d, cut);
      PrefixChain(base, SafeRecords(c, d), DirRecords(c, w.dir));
      PrefixChain(DirRecords(c, w.dir), DirRecords(c, d), all);
      n := RecoveredPrefix(c, v, rs, high, DirRecords(c, w.dir));
      ReopenedHealthy(c, w, Highest(high, rs));
    } else {
      assert op.PurgeTo?;
      var logId := op.logId;
      n := 1;
      assert rs == [Purge(logId)] && rs[..1] == rs;
      SingleIssue(c, v, Purge(logId));
      PurgeHighest(high, logId);
      NothingBeyond(base);
      IssueHealthy(c, v, rs, high, |base|);
      assert c.Fits(Purge(logId)) by { FitsFirst(c, rs); }
      assert d in UnlinkVisits(Synced(u).dir, u.closed, logId.index);
      TrackedHasDir(c, u);
      SyncedClosed(u);
      assert Marked(c, v, logId) == Synced(u);
      CrashInUnlinks(c, v, logId, high, d, cut);
    }
  }

  lemma FitsFirst(c: Codec, rs: seq<WalRecord>)
    requires AllFit(c, rs) && rs != []
    ensures c.Fits(rs[0])
  {
  }

  lemma PurgeHighest(high: Option<LogId>, logId: LogId)
    ensures Highest(high, [Purge(logId)]) == high
  {
    assert [Purge(logId)][..0] == [];
  }

  lemma ReopenedHealthy(c: Codec, w: WalView, high: Option<LogId>)
    requires InSync(c, w) && AllBounded(DirRecords(c, w.dir), high)
    ensures Healthy(c, w, high)
  {
    BoundedFold(DirRecords(c, w.dir), high);
  }

  // ---- runs ----

  /** The last commit pointer the run tried to save. */
  function RunHighest(steps: seq<Step>): Option<LogId> {
    if steps == [] then None
    else Highest(RunHighest(steps[..|steps| - 1]), OpRecords(steps[|steps| - 1].op))
  }

  ghost predicate ReclaimingRun(c: Codec, steps: seq<Step>) {
    steps == [] ||
    (var front, step := steps[..|steps| - 1], steps[|steps| - 1];
     var v := Run(c, front);
     && ReclaimingRun(c, front)
     && v.dir != []
     && Allowed(c, v, step.op, RunHighest(front))
     && (step.Crash? ==> CrashPossible(c, v, step.op, step.at, step.cut)))
  }

  /** Over every run in which purges may reclaim segments: RAM and the replay of the
      surviving segments have the entries and the purge point of the issued records, with
      nothing acknowledged missing, and neither commit pointer exceeds the highest saved. */
  lemma {:induction false} ReclaimingRunRefinesLog(c: Codec, steps: seq<Step>) returns (kept: seq<WalRecord>)
    requires c.Valid() && ReclaimingRun(c, steps)
    ensures var v := Run(c, steps);
            && Quiescent(c, v)
            && Explains(steps, kept)
            && SameLog(v.state, Fold(kept))
            && SameLog(Fold(DirRecords(c, v.dir)), Fold(kept))
            && PointerLe(v.state.committed, RunHighest(steps))
            && PointerLe(Fold(DirRecords(c, v.dir)).committed, RunHighest(steps))
            && Healthy(c, v, RunHighest(steps))
  {
    hide Quiescent, DirRecords, OpRecords, Visits, Allowed, FoldFrom, Done, AfterCrash, CrashPossible, PointerLe, Plain;
    var v := Run(c, steps);
    if steps == [] {
      FreshLog(c);
      kept := [];
      FreshHealthy(c);
    } else {
      var front, step := steps[..|steps| - 1], steps[|steps| - 1];
      var before := ReclaimingRunRefinesLog(c, front);
      var u := Run(c, front);
      var n := |OpRecords(step.op)|;
      match step {
        case Call(op) =>
          CallIsHealthy(c, u, op, RunHighest(front));
          assert OpRecords(op)[..n] == OpRecords(op);
        case Crash(op, at, cut) =>
          n := CrashIsHealthy(c, u, op, RunHighest(front), at, cut);
      }
      kept := before + OpRecords(step.op)[..n];
      assert kept[..|before|] == before && kept[|before|..] == OpRecords(step.op)[..n];
      SameLogFold(u.state, Fold(before), OpRecords(step.op)[..n]);
      FoldConcat(EMPTY_VIEW, before, OpRecords(step.op)[..n]);
    }
    BoundedFold(DirRecords(c, v.dir), RunHighest(steps));
  }

  lemma FreshHealthy(c: Codec)
    ensures Healthy(c, Recovered(c, []), None) && Fold([]) == EMPTY_VIEW
  {
    var v := Recovered(c, []);
    assert v.dir[..0] == [];
    assert Scan(c, []) == Scanned([], 0, false);
    assert DirRecords(c, v.dir) == [];
  }

  // ---- one life of the process ----

  ghost predicate AllReturn(steps: seq<Step>) {
    forall s :: s in steps ==> s.Call?
  }

  lemma {:induction false} RamHoldsHighest(s: LogView, rs: seq<WalRecord>)
    requires NoCheckpoints(rs)
    ensures FoldFrom(s, rs).committed == Highest(s.committed, rs)
  {
    if rs != [] {
      assert rs[|rs| - 1] in rs;
      assert forall r :: r in rs[..|rs| - 1] ==> r in rs;
      RamHoldsHighest(s, rs[..|rs| - 1]);
    }
  }

  lemma {:induction false} RamIsHighest(c: Codec, steps: seq<Step>)
    requires c.Valid() && ReclaimingRun(c, steps) && AllReturn(steps)
    ensures Run(c, steps).state.committed == RunHighest(steps)
  {
    hide Quiescent, DirRecords, OpRecords, Visits, Allowed, FoldFrom, Done, AfterCrash, CrashPossible, PointerLe, Plain, SameLog;
    if steps == [] {
      assert Run(c, steps).state == EMPTY_VIEW;
    } else {
      var front, step := steps[..|steps| - 1], steps[|steps| - 1];
      assert step in steps;
      assert forall s :: s in front ==> s in steps;
      RamIsHighest(c, front);
      var _ := ReclaimingRunRefinesLog(c, front);
      var u := Run(c, front);
      CallIsHealthy(c, u, step.op, RunHighest(front));
      OpRecordsPlain(step.op);
      RamHoldsHighest(u.state, OpRecords(step.op));
    }
  }

  /** As long as the process lives, over every run of returned calls with purges unlinking
      segments, the replay's commit pointer is never ahead of the one in RAM. */
  lemma PurgeNeverAdvancesCommitted(c: Codec, steps: seq<Step>)
    requires c.Valid() && ReclaimingRun(c, steps) && AllReturn(steps)
    ensures PointerLe(Fold(DirRecords(c, Run(c, steps).dir)).committed, Run(c, steps).state.committed)
  {
    hide Run, DirRecords, FoldFrom, ReclaimingRun, PointerLe;
    RamIsHighest(c, steps);
    var _ := ReclaimingRunRefinesLog(c, steps);
  }
}
