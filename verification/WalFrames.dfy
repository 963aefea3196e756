/**
 The on-disk form of the write-ahead log: records framed as
 [u32 length][u32 checksum][payload], and the scan that reads them back.
 The payload codec and the checksum are abstract.
 */
module WalFrames {
  import opened Prelude
  import opened RaftTypes

  const SEGMENT_MAX_BYTES: nat := 8 * 1024 * 1024
  const FRAME_HEADER: nat := 8

  datatype WalRecord =
    | EntryRecord(entry: Entry)
    | TruncateFrom(index: u64)
    | Purge(logId: LogId)
    | Committed(pointer: Option<LogId>)
    | Checkpoint(lastPurged: Option<LogId>, committed: Option<LogId>)

  datatype Codec = Codec(
    encode: WalRecord -> seq<byte>,
    decode: seq<byte> -> Option<WalRecord>,
    crc: seq<byte> -> u32)
  {
    /** Decoding inverts encoding, and a checkpoint frame is smaller than a segment. */
    ghost predicate Valid() {
      && (forall r :: decode(encode(r)) == Some(r))
      && (forall p, c :: FRAME_HEADER + |encode(Checkpoint(p, c))| < SEGMENT_MAX_BYTES)
    }

    /** The u32 length field can carry this record's payload. */
    predicate Fits(r: WalRecord) {
      |encode(r)| < U32_LIMIT
    }
  }

  // ---- little-endian integers ----

  function ToLe(n: nat, width: nat): (b: seq<byte>)
    ensures |b| == width
    decreases width
  {
    if width == 0 then [] else [n % 256] + ToLe(n / 256, width - 1)
  }

  function FromLe(b: seq<byte>): nat {
    if b == [] then 0 else b[0] as int + 256 * FromLe(b[1..])
  }

  function Pow256(width: nat): nat {
    if width == 0 then 1 else 256 * Pow256(width - 1)
  }

  lemma {:induction false} LeRoundTrip(n: nat, width: nat)
    requires n < Pow256(width)
    ensures FromLe(ToLe(n, width)) == n
    decreases width
  {
    if width > 0 {
      LeRoundTrip(n / 256, width - 1);
      assert ToLe(n, width)[1..] == ToLe(n / 256, width - 1);
    }
  }

  lemma U32IsFourBytes()
    ensures Pow256(4) == U32_LIMIT
  {
    assert Pow256(1) == 256 && Pow256(2) == 65536 && Pow256(3) == 16777216;
  }

  /** A cast to u32 keeps the low 32 bits. */
  function U32Bytes(n: nat): (b: seq<byte>)
    ensures |b| == 4
  {
    ToLe(n % U32_LIMIT, 4)
  }

  lemma U32RoundTrip(n: u32)
    ensures FromLe(U32Bytes(n)) == n
  {
    hide ToLe, FromLe, Pow256;
    U32IsFourBytes();
    LeRoundTrip(n, 4);
  }

  // ---- frames ----

  function Frame(c: Codec, payload: seq<byte>): (f: seq<byte>)
    ensures |f| == FRAME_HEADER + |payload|
  {
    U32Bytes(|payload|) + U32Bytes(c.crc(payload)) + payload
  }

  function FrameRecord(c: Codec, r: WalRecord): (f: seq<byte>)
    ensures |f| == FRAME_HEADER + |c.encode(r)|
  {
    Frame(c, c.encode(r))
  }

  function FrameAll(c: Codec, rs: seq<WalRecord>): seq<byte> {
    if rs == [] then [] else FrameAll(c, rs[..|rs| - 1]) + FrameRecord(c, rs[|rs| - 1])
  }

  // ---- the recovery scan, as a function ----

  datatype Scanned = Scanned(records: seq<WalRecord>, good: nat, corrupt: bool)

  /** The length of the first frame of b and its record, when that frame is whole and sound. */
  function FirstFrame(c: Codec, b: seq<byte>): (f: Option<(nat, WalRecord)>)
    ensures f.Some? ==> FRAME_HEADER <= f.value.0 <= |b|
  {
    if FRAME_HEADER > |b| then None
    else
      var len := FromLe(b[0..4]);
      var end := FRAME_HEADER + len;
      if end > |b| then None
      else
        var payload := b[FRAME_HEADER..end];
        if c.crc(payload) != FromLe(b[4..8]) then None
        else
          match c.decode(payload)
          case None => None
          case Some(r) => Some((end, r))
  }

  function Scan(c: Codec, b: seq<byte>): (s: Scanned)
    ensures s.good <= |b|
    ensures s.corrupt <==> s.good != |b|
    decreases |b|
  {
    match FirstFrame(c, b)
    case None => Scanned([], 0, b != [])
    case Some((n, r)) =>
      var rest := Scan(c, b[n..]);
      Scanned([r] + rest.records, n + rest.good, rest.corrupt)
  }

  lemma ScanStops(c: Codec, b: seq<byte>)
    requires FirstFrame(c, b).None?
    ensures Scan(c, b) == Scanned([], 0, b != [])
  {
  }

  lemma ScanSteps(c: Codec, b: seq<byte>, n: nat, r: WalRecord, done: seq<WalRecord>)
    requires FirstFrame(c, b) == Some((n, r))
    ensures n <= |b| && Scan(c, b).good == n + Scan(c, b[n..]).good
    ensures done + Scan(c, b).records == (done + [r]) + Scan(c, b[n..]).records
  {
  }

  /** The bytes hold whole, sound frames and nothing else. */
  predicate Clean(c: Codec, b: seq<byte>) {
    !Scan(c, b).corrupt
  }

  /** The first frame of a concatenation is the first frame of its left part. */
  lemma FirstFrameExtends(c: Codec, a: seq<byte>, b: seq<byte>)
    requires FirstFrame(c, a).Some?
    ensures FirstFrame(c, a + b) == FirstFrame(c, a)
  {
    var end := FRAME_HEADER + FromLe(a[0..4]);
    assert (a + b)[0..4] == a[0..4] && (a + b)[4..8] == a[4..8];
    assert (a + b)[FRAME_HEADER..end] == a[FRAME_HEADER..end];
  }

  lemma FirstFrameOfRecord(c: Codec, r: WalRecord)
    requires c.Valid() && c.Fits(r)
    ensures FirstFrame(c, FrameRecord(c, r)) == Some((|FrameRecord(c, r)|, r))
  {
    var p := c.encode(r);
    var f := FrameRecord(c, r);
    var length, sum := U32Bytes(|p|), U32Bytes(c.crc(p));
    assert f == length + sum + p;
    U32RoundTrip(|p|);
    U32RoundTrip(c.crc(p));
    assert f[0..4] == length && f[4..8] == sum;
    assert f[FRAME_HEADER..FRAME_HEADER + |p|] == p;
  }

  /** Behind a clean stretch of bytes the scan goes on as if it started afresh. */
  lemma {:induction false} ScanExtends(c: Codec, a: seq<byte>, b: seq<byte>)
    requires Clean(c, a)
    ensures var s := Scan(c, b);
            Scan(c, a + b) == Scanned(Scan(c, a).records + s.records, |a| + s.good, s.corrupt)
    decreases |a|
  {
    hide FirstFrame;
    if a == [] {
      assert a + b == b;
    } else {
      var n := FirstFrame(c, a).value.0;
      FirstFrameExtends(c, a, b);
      assert (a + b)[n..] == a[n..] + b;
      ScanExtends(c, a[n..], b);
    }
  }

  lemma ScanAppends(c: Codec, b: seq<byte>, r: WalRecord)
    requires c.Valid() && c.Fits(r) && Clean(c, b)
    ensures Clean(c, b + FrameRecord(c, r))
    ensures Scan(c, b + FrameRecord(c, r)).records == Scan(c, b).records + [r]
  {
    hide FirstFrame, FrameRecord;
    var f := FrameRecord(c, r);
    FirstFrameOfRecord(c, r);
    assert f[|f|..] == [];
    ScanExtends(c, b, f);
  }

  /** Appended frames scan back to the records they were made from. */
  lemma {:induction false} ScanInvertsFraming(c: Codec, rs: seq<WalRecord>)
    requires c.Valid() && forall r :: r in rs ==> c.Fits(r)
    ensures Scan(c, FrameAll(c, rs)) == Scanned(rs, |FrameAll(c, rs)|, false)
  {
    hide FirstFrame, FrameRecord, Codec.Fits;
    if rs != [] {
      var front, last := rs[..|rs| - 1], rs[|rs| - 1];
      ScanInvertsFraming(c, front);
      ScanAppends(c, FrameAll(c, front), last);
      assert rs == front + [last];
    }
  }

  /** Recovery is idempotent: truncated at its good offset, ANY byte string scans to the
      same records with no corruption left. */
  lemma {:induction false} TruncationIsClean(c: Codec, b: seq<byte>)
    ensures var s := Scan(c, b);
            Scan(c, b[..s.good]) == Scanned(s.records, s.good, false)
    decreases |b|
  {
    hide FirstFrame;
    match FirstFrame(c, b)
    case None =>
    case Some((n, r)) =>
      TruncationIsClean(c, b[n..]);
      CutKeepsFrame(c, b, Scan(c, b).good);
  }

  /** However clean bytes are cut, the scan yields a prefix of their records, ended at a
      frame boundary. */
  lemma {:induction false} CutScansToPrefix(c: Codec, b: seq<byte>, cut: nat)
    requires Clean(c, b) && cut <= |b|
    ensures IsPrefix(Scan(c, b[..cut]).records, Scan(c, b).records)
    ensures var good := Scan(c, b[..cut]).good; good <= cut && Clean(c, b[..good]) && Clean(c, b[good..])
    decreases |b|
  {
    hide FirstFrame;
    if b != [] {
      var n := FirstFrame(c, b).value.0;
      if cut < n {
        CutInsideFrame(c, b, cut);
      } else {
        CutScansToPrefix(c, b[n..], cut - n);
        CutKeepsFrame(c, b, cut);
        var rest := Scan(c, b[n..][..cut - n]).good;
        CutKeepsFrame(c, b, n + rest);
        assert b[n + rest..] == b[n..][rest..];
      }
    }
  }

  lemma CutInsideFrame(c: Codec, b: seq<byte>, cut: nat)
    requires FirstFrame(c, b).Some? && cut < FirstFrame(c, b).value.0
    ensures FirstFrame(c, b[..cut]).None?
  {
    if FRAME_HEADER <= cut {
      assert b[..cut][0..4] == b[0..4];
    }
  }

  lemma CutKeepsFrame(c: Codec, b: seq<byte>, cut: nat)
    requires FirstFrame(c, b).Some? && FirstFrame(c, b).value.0 <= cut <= |b|
    ensures FirstFrame(c, b[..cut]) == FirstFrame(c, b)
    ensures b[..cut][FirstFrame(c, b).value.0..] == b[FirstFrame(c, b).value.0..][..cut - FirstFrame(c, b).value.0]
  {
    var t := b[..cut];
    var end := FRAME_HEADER + FromLe(b[0..4]);
    assert t[0..4] == b[0..4] && t[4..8] == b[4..8];
    assert t[FRAME_HEADER..end] == b[FRAME_HEADER..end];
  }

  /** The frames that end at or before the cut. */
  function WholeFrames(c: Codec, rs: seq<WalRecord>, cut: nat): (n: nat)
    ensures n <= |rs|
  {
    if rs == [] then 0
    else if |FrameAll(c, rs)| <= cut then |rs|
    else WholeFrames(c, rs[..|rs| - 1], cut)
  }

  lemma {:induction false} WholeFramesIsExact(c: Codec, rs: seq<WalRecord>, cut: nat, j: nat)
    requires j <= |rs|
    ensures j <= WholeFrames(c, rs, cut) <==> |FrameAll(c, rs[..j])| <= cut
    decreases |rs|
  {
    assert rs[..|rs|] == rs;
    if rs != [] {
      var front := rs[..|rs| - 1];
      if j < |rs| {
        assert front[..j] == rs[..j];
        WholeFramesIsExact(c, front, cut, j);
        FrameAllGrows(c, rs, j);
      }
    }
  }

  lemma {:induction false} FrameAllGrows(c: Codec, rs: seq<WalRecord>, j: nat)
    requires j <= |rs|
    ensures |FrameAll(c, rs[..j])| <= |FrameAll(c, rs)|
    ensures FrameAll(c, rs)[..|FrameAll(c, rs[..j])|] == FrameAll(c, rs[..j])
    decreases |rs|
  {
    if j == |rs| {
      assert rs[..j] == rs;
    } else {
      var front := rs[..|rs| - 1];
      FrameAllGrows(c, front, j);
      assert front[..j] == rs[..j];
    }
  }

  lemma NextFrame(c: Codec, rs: seq<WalRecord>, m: nat)
    requires m < |rs|
    ensures FrameAll(c, rs[..m + 1]) == FrameAll(c, rs[..m]) + FrameRecord(c, rs[m])
  {
    assert rs[..m + 1][..m] == rs[..m];
  }

  lemma TailOfCut(c: Codec, rs: seq<WalRecord>, m: nat, cut: nat)
    requires m < |rs|
    requires |FrameAll(c, rs[..m])| <= cut < |FrameAll(c, rs[..m + 1])| && cut <= |FrameAll(c, rs)|
    ensures var torn := cut - |FrameAll(c, rs[..m])|;
            && torn < |FrameRecord(c, rs[m])|
            && FrameAll(c, rs)[..cut][|FrameAll(c, rs[..m])|..] == FrameRecord(c, rs[m])[..torn]
  {
    hide FrameAll, FrameRecord;
    var all, next, head := FrameAll(c, rs), FrameAll(c, rs[..m + 1]), FrameAll(c, rs[..m]);
    NextFrame(c, rs, m);
    FrameAllGrows(c, rs, m + 1);
    assert all[..cut] == next[..cut];
    assert next[..cut][|head|..] == FrameRecord(c, rs[m])[..cut - |head|];
  }

  lemma TornTail(c: Codec, rs: seq<WalRecord>, m: nat, cut: nat)
    requires c.Valid() && (forall r :: r in rs ==> c.Fits(r)) && m < |rs|
    requires |FrameAll(c, rs[..m])| <= cut < |FrameAll(c, rs[..m + 1])| && cut <= |FrameAll(c, rs)|
    ensures FirstFrame(c, FrameAll(c, rs)[..cut][|FrameAll(c, rs[..m])|..]).None?
  {
    hide FrameAll, FrameRecord, FirstFrame;
    TailOfCut(c, rs, m, cut);
    FirstFrameOfRecord(c, rs[m]);
    CutInsideFrame(c, FrameRecord(c, rs[m]), cut - |FrameAll(c, rs[..m])|);
  }

  /** For any frame sequence and any byte cut, the scan returns exactly the frames wholly
      before the cut, with the good offset at their end. */
  lemma CutScansToWholeFrames(c: Codec, rs: seq<WalRecord>, cut: nat)
    requires c.Valid() && (forall r :: r in rs ==> c.Fits(r)) && cut <= |FrameAll(c, rs)|
    ensures var kept := rs[..WholeFrames(c, rs, cut)];
            Scan(c, FrameAll(c, rs)[..cut]) ==
            Scanned(kept, |FrameAll(c, kept)|, |FrameAll(c, kept)| != cut)
  {
    hide FrameAll, WholeFrames, FirstFrame;
    var all := FrameAll(c, rs);
    var m := WholeFrames(c, rs, cut);
    var kept := rs[..m];
    WholeFramesIsExact(c, rs, cut, m);
    FrameAllGrows(c, rs, m);
    ScanInvertsFraming(c, kept);
    var head := FrameAll(c, kept);
    var tail := all[..cut][|head|..];
    assert all[..cut] == head + tail;
    ScanExtends(c, head, tail);
    if m < |rs| {
      WholeFramesIsExact(c, rs, cut, m + 1);
      TornTail(c, rs, m, cut);
    } else {
      assert kept == rs;
      assert tail == [];
    }
  }

  // ---- what the scan accepts, by the writer's frames ----

  lemma {:induction false} LeInverse(b: seq<byte>)
    ensures FromLe(b) < Pow256(|b|) && ToLe(FromLe(b), |b|) == b
  {
    if b != [] {
      LeInverse(b[1..]);
      var low, high := b[0] as int, FromLe(b[1..]);
      assert (low + 256 * high) % 256 == low && (low + 256 * high) / 256 == high;
      assert b == [b[0]] + b[1..];
    }
  }

  lemma U32Inverse(b: seq<byte>)
    requires |b| == 4
    ensures FromLe(b) < U32_LIMIT && U32Bytes(FromLe(b)) == b
  {
    hide ToLe, FromLe, Pow256;
    U32IsFourBytes();
    LeInverse(b);
  }

  /** The layout on disk: length, checksum, payload, both numbers little-endian. */
  lemma FrameLayout(c: Codec, p: seq<byte>)
    requires |p| < U32_LIMIT
    ensures var f := Frame(c, p);
            && f[0] as int + 0x100 * f[1] as int + 0x1_0000 * f[2] as int + 0x100_0000 * f[3] as int == |p|
            && f[4] as int + 0x100 * f[5] as int + 0x1_0000 * f[6] as int + 0x100_0000 * f[7] as int == c.crc(p)
            && f[8..] == p
  {
    hide ToLe, FromLe;
    U32RoundTrip(|p|);
    U32RoundTrip(c.crc(p));
    FourBytes(U32Bytes(|p|));
    FourBytes(U32Bytes(c.crc(p)));
  }

  lemma FourBytes(b: seq<byte>)
    requires |b| == 4
    ensures FromLe(b) == b[0] as int + 0x100 * b[1] as int + 0x1_0000 * b[2] as int + 0x100_0000 * b[3] as int
  {
    assert b[1..][1..] == b[2..] && b[2..][1..] == b[3..] && b[3..][1..] == [];
    assert FromLe(b[3..]) == b[3] as int;
    assert FromLe(b[2..]) == b[2] as int + 256 * FromLe(b[3..]);
    assert FromLe(b[1..]) == b[1] as int + 256 * FromLe(b[2..]);
  }

  /** A payload the writer could have framed and the reader can decode. */
  predicate Readable(c: Codec, p: seq<byte>) {
    |p| < U32_LIMIT && c.decode(p).Some?
  }

  /** The frames of these payloads, one after the other. */
  function Framed(c: Codec, ps: seq<seq<byte>>): seq<byte> {
    if ps == [] then [] else Frame(c, ps[0]) + Framed(c, ps[1..])
  }

  lemma FrameIsFirst(c: Codec, p: seq<byte>, rest: seq<byte>)
    requires Readable(c, p)
    ensures FirstFrame(c, Frame(c, p) + rest) == Some((|Frame(c, p)|, c.decode(p).value))
    ensures (Frame(c, p) + rest)[|Frame(c, p)|..] == rest
  {
    hide ToLe, FromLe;
    var b := Frame(c, p) + rest;
    U32RoundTrip(|p|);
    U32RoundTrip(c.crc(p));
    assert b[0..4] == U32Bytes(|p|) && b[4..8] == U32Bytes(c.crc(p));
    assert b[FRAME_HEADER..FRAME_HEADER + |p|] == p;
  }

  lemma FirstIsFrame(c: Codec, b: seq<byte>) returns (p: seq<byte>)
    requires FirstFrame(c, b).Some?
    ensures Readable(c, p) && FirstFrame(c, b) == Some((|Frame(c, p)|, c.decode(p).value))
    ensures IsPrefix(Frame(c, p), b) && b == Frame(c, p) + b[|Frame(c, p)|..]
  {
    hide ToLe, FromLe;
    var end := FRAME_HEADER + FromLe(b[0..4]);
    p := b[FRAME_HEADER..end];
    U32Inverse(b[0..4]);
    U32Inverse(b[4..8]);
    assert Frame(c, p) == b[0..4] + b[4..8] + p == b[..end];
  }

  /**
   What recovery accepts, whatever the bytes: up to the good offset they are the frames of
   payloads that decode to the records, and behind it no frame of any decodable payload begins.
   */
  lemma {:induction false} ScanIsGreatest(c: Codec, b: seq<byte>) returns (ps: seq<seq<byte>>)
    ensures var s := Scan(c, b);
            && |ps| == |s.records| && b[..s.good] == Framed(c, ps)
            && (forall i :: 0 <= i < |ps| ==> Readable(c, ps[i]) && c.decode(ps[i]) == Some(s.records[i]))
            && (forall p :: Readable(c, p) ==> !IsPrefix(Frame(c, p), b[s.good..]))
    decreases |b|
  {
    hide FirstFrame, Frame;
    if FirstFrame(c, b).None? {
      ps := [];
      forall p | Readable(c, p)
        ensures !IsPrefix(Frame(c, p), b)
      {
        if IsPrefix(Frame(c, p), b) {
          assert b == Frame(c, p) + b[|Frame(c, p)|..];
          FrameIsFirst(c, p, b[|Frame(c, p)|..]);
        }
      }
    } else {
      var p := FirstIsFrame(c, b);
      var n := |Frame(c, p)|;
      var rest := ScanIsGreatest(c, b[n..]);
      ps := [p] + rest;
      assert ps[1..] == rest;
      var good := Scan(c, b[n..]).good;
      assert b[..n + good] == Frame(c, p) + b[n..][..good];
      assert b[n + good..] == b[n..][good..];
      assert forall i :: 0 < i < |ps| ==> ps[i] == rest[i - 1];
    }
  }

  /** Conversely, frames of decodable payloads with no such frame behind them are what is read. */
  lemma {:induction false} FramesAreRead(c: Codec, ps: seq<seq<byte>>, rest: seq<byte>)
    requires forall i :: 0 <= i < |ps| ==> Readable(c, ps[i])
    requires forall p :: Readable(c, p) ==> !IsPrefix(Frame(c, p), rest)
    ensures var s := Scan(c, Framed(c, ps) + rest);
            && s.good == |Framed(c, ps)| && |s.records| == |ps|
            && (forall i :: 0 <= i < |ps| ==> c.decode(ps[i]) == Some(s.records[i]))
            && (s.corrupt <==> rest != [])
    decreases |ps|
  {
    hide FirstFrame, Frame;
    if ps == [] {
      assert Framed(c, ps) + rest == rest;
      if FirstFrame(c, rest).Some? {
        var _ := FirstIsFrame(c, rest);
      }
    } else {
      var tail := Framed(c, ps[1..]) + rest;
      assert Framed(c, ps) + rest == Frame(c, ps[0]) + tail;
      FrameIsFirst(c, ps[0], tail);
      FramesAreRead(c, ps[1..], rest);
    }
  }

  /** A frame read off the header of one payload with other bytes behind it. */
  lemma HeaderTells(c: Codec, o: seq<byte>, p: seq<byte>, q: seq<byte>, tail: seq<byte>)
    requires |p| == |q| < U32_LIMIT && |o| < U32_LIMIT
    requires IsPrefix(Frame(c, o), Frame(c, p)[..FRAME_HEADER] + q + tail)
    ensures o == q && c.crc(o) == c.crc(p)
  {
    hide ToLe, FromLe;
    var rest := Frame(c, p)[..FRAME_HEADER] + q + tail;
    U32RoundTrip(|o|);
    U32RoundTrip(|p|);
    U32RoundTrip(c.crc(o));
    U32RoundTrip(c.crc(p));
    assert Frame(c, o)[..4] == rest[..4] == U32Bytes(|p|) && Frame(c, o)[..4] == U32Bytes(|o|);
    assert Frame(c, o)[4..8] == rest[4..8] == U32Bytes(c.crc(p)) && Frame(c, o)[4..8] == U32Bytes(c.crc(o));
    assert Frame(c, o)[8..] == o && rest[8..][..|q|] == q;
    assert Frame(c, o)[8..] == rest[8..][..|o|];
  }

  /**
   Damage in a payload: the header of one payload with other bytes behind it, as many but of
   another checksum. The scan keeps everything before that frame and nothing from it on, even
   when the altered bytes decode.
   */
  lemma DamagedPayloadStopsTheScan(c: Codec, ps: seq<seq<byte>>, p: seq<byte>, q: seq<byte>, tail: seq<byte>)
    requires forall i :: 0 <= i < |ps| ==> Readable(c, ps[i])
    requires |p| == |q| < U32_LIMIT && c.crc(p) != c.crc(q)
    ensures var s := Scan(c, Framed(c, ps) + (Frame(c, p)[..FRAME_HEADER] + q + tail));
            && s.good == |Framed(c, ps)| && |s.records| == |ps| && s.corrupt
            && forall i :: 0 <= i < |ps| ==> c.decode(ps[i]) == Some(s.records[i])
  {
    hide ToLe, FromLe, Framed, FirstFrame, Scan, Frame;
    var rest := Frame(c, p)[..FRAME_HEADER] + q + tail;
    forall o | Readable(c, o)
      ensures !IsPrefix(Frame(c, o), rest)
    {
      if IsPrefix(Frame(c, o), rest) {
        HeaderTells(c, o, p, q, tail);
      }
    }
    FramesAreRead(c, ps, rest);
  }
}
