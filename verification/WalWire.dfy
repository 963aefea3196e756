/**
 One concrete record format meeting everything assumed of a codec: the assumptions can hold
 together. It is not bincode's layout.
 */
module WalWire {
  import opened Prelude
  import opened RaftTypes
  import opened WalFrames

  function WriteWord(n: u64): (b: seq<byte>)
    ensures |b| == 8
  {
    ToLe(n, 8)
  }

  function ReadWord(b: seq<byte>): u64 {
    FromLe(b) % U64_LIMIT
  }

  lemma WordRoundTrip(n: u64)
    ensures ReadWord(WriteWord(n)) == n
  {
    hide ToLe, FromLe, Pow256;
    EightBytes();
    LeRoundTrip(n, 8);
  }

  lemma EightBytes()
    ensures Pow256(8) == U64_LIMIT
  {
    U32IsFourBytes();
    assert Pow256(5) == 256 * Pow256(4) && Pow256(6) == 256 * Pow256(5) && Pow256(7) == 256 * Pow256(6);
  }

  function WriteId(id: LogId): (b: seq<byte>)
    ensures |b| == 24
  {
    WriteWord(id.term) + WriteWord(id.node) + WriteWord(id.index)
  }

  function ReadId(b: seq<byte>): LogId
    requires |b| == 24
  {
    LogId(ReadWord(b[..8]), ReadWord(b[8..16]), ReadWord(b[16..]))
  }

  lemma IdRoundTrip(id: LogId)
    ensures ReadId(WriteId(id)) == id
  {
    hide WriteWord, ReadWord;
    var b := WriteId(id);
    assert b[..8] == WriteWord(id.term) && b[8..16] == WriteWord(id.node) && b[16..] == WriteWord(id.index);
    WordRoundTrip(id.term);
    WordRoundTrip(id.node);
    WordRoundTrip(id.index);
  }

  const NO_ID := LogId(0, 0, 0)

  function WritePointer(p: Option<LogId>): (b: seq<byte>)
    ensures |b| == 25
  {
    match p
    case None => [0] + WriteId(NO_ID)
    case Some(id) => [1] + WriteId(id)
  }

  function ReadPointer(b: seq<byte>): Option<LogId>
    requires |b| == 25
  {
    if b[0] == 0 then None else Some(ReadId(b[1..]))
  }

  lemma PointerRoundTrip(p: Option<LogId>)
    ensures ReadPointer(WritePointer(p)) == p
  {
    hide WriteId, ReadId;
    if p.Some? {
      assert WritePointer(p)[1..] == WriteId(p.value);
      IdRoundTrip(p.value);
    }
  }

  function WriteEntry(e: Entry): seq<byte> {
    match e.payload
    case Blank => [0] + WriteId(e.logId)
    case Normal(payload) => [1] + WriteId(e.logId) + payload
    case Membership(config) => [2] + WriteId(e.logId) + config
  }

  function ReadEntry(b: seq<byte>): Option<Entry> {
    if |b| < 25 then None
    else
      var id, rest := ReadId(b[1..25]), b[25..];
      if b[0] == 0 then Some(Entry(id, Blank))
      else if b[0] == 1 then Some(Entry(id, Normal(rest)))
      else if b[0] == 2 then Some(Entry(id, Membership(rest)))
      else None
  }

  lemma EntryRoundTrip(e: Entry)
    ensures ReadEntry(WriteEntry(e)) == Some(e)
  {
    hide WriteId, ReadId;
    var b := WriteEntry(e);
    assert b[1..25] == WriteId(e.logId);
    IdRoundTrip(e.logId);
    match e.payload
    case Blank =>
    case Normal(payload) => assert b[25..] == payload;
    case Membership(config) => assert b[25..] == config;
  }

  function Write(r: WalRecord): seq<byte> {
    match r
    case EntryRecord(e) => [0] + WriteEntry(e)
    case TruncateFrom(index) => [1] + WriteWord(index)
    case Purge(id) => [2] + WriteId(id)
    case Committed(p) => [3] + WritePointer(p)
    case Checkpoint(p, c) => [4] + WritePointer(p) + WritePointer(c)
  }

  function Read(b: seq<byte>): Option<WalRecord> {
    if b == [] then None
    else if b[0] == 0 then
      (match ReadEntry(b[1..])
       case Some(e) => Some(EntryRecord(e))
       case None => None)
    else if b[0] == 1 && |b| == 9 then Some(TruncateFrom(ReadWord(b[1..])))
    else if b[0] == 2 && |b| == 25 then Some(Purge(ReadId(b[1..])))
    else if b[0] == 3 && |b| == 26 then Some(Committed(ReadPointer(b[1..])))
    else if b[0] == 4 && |b| == 51 then Some(Checkpoint(ReadPointer(b[1..26]), ReadPointer(b[26..])))
    else None
  }

  lemma RecordRoundTrip(r: WalRecord)
    ensures Read(Write(r)) == Some(r)
  {
    hide WriteId, ReadId, WriteWord, ReadWord, WriteEntry, ReadEntry, WritePointer, ReadPointer;
    var b := Write(r);
    match r
    case EntryRecord(e) => assert b[1..] == WriteEntry(e); EntryRoundTrip(e);
    case TruncateFrom(index) => assert b[1..] == WriteWord(index); WordRoundTrip(index);
    case Purge(id) => assert b[1..] == WriteId(id); IdRoundTrip(id);
    case Committed(p) => assert b[1..] == WritePointer(p); PointerRoundTrip(p);
    case Checkpoint(p, c) =>
      assert b[1..26] == WritePointer(p) && b[26..] == WritePointer(c);
      PointerRoundTrip(p);
      PointerRoundTrip(c);
  }

  function WireCodec(): Codec {
    Codec(r => Write(r), b => Read(b), b => 0)
  }

  lemma WireCodecIsValid()
    ensures WireCodec().Valid()
  {
    hide Read, Write;
    var c := WireCodec();
    forall r
      ensures c.decode(c.encode(r)) == Some(r)
    {
      RecordRoundTrip(r);
    }
    forall p, q
      ensures FRAME_HEADER + |c.encode(Checkpoint(p, q))| < SEGMENT_MAX_BYTES
    {
      WireSizes(Checkpoint(p, q));
    }
  }

  /** The assumptions on the codec are satisfiable. */
  lemma CodecExists()
    ensures exists c: Codec :: c.Valid()
  {
    WireCodecIsValid();
  }

  lemma WireSizes(r: WalRecord)
    ensures |WireCodec().encode(r)| ==
            match r
            case EntryRecord(e) =>
              26 + (match e.payload case Blank => 0 case Normal(p) => |p| case Membership(p) => |p|)
            case TruncateFrom(_) => 9
            case Purge(_) => 25
            case Committed(_) => 26
            case Checkpoint(_, _) => 51
  {
  }
}
