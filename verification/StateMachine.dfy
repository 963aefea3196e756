/**
 The shard group's state machine: committed payloads applied to the document store, with
 snapshots built, installed and reloaded at boot.
 */
module ShardStateMachine {
  import opened Prelude
  import opened RaftTypes
  import opened Ranking
  import opened Documents
  import opened KeywordSpec
  import opened Replication
  import opened ShardSpecs
  import opened ShardStores
  import opened VectorIndices

  /**
   The wire formats of commands and document lists. Documents hold reals here; `wire` picks out
   the ones the formats can carry, whose numbers are machine floats.
   */
  datatype ShardCodec = ShardCodec(
    wire: FlightDocument -> bool,
    decodeCommand: Bytes -> Option<Command>,
    encodeDocs: seq<FlightDocument> -> Bytes,
    decodeDocs: Bytes -> Option<seq<FlightDocument>>)
  {
    /** Everything decoded can be encoded, and encoded documents decode to themselves. */
    ghost predicate Valid() {
      && (forall ds :: AllWire(ds) ==> decodeDocs(encodeDocs(ds)) == Some(ds))
      && (forall b :: AllWire(DocsIn(b)))
      && (forall b :: CommandIn(b).Batch? ==> AllWire(CommandIn(b).documents))
    }

    ghost predicate AllWire(ds: seq<FlightDocument>) {
      forall d :: d in ds ==> wire(d)
    }

    /** An undecodable payload is the empty command. */
    function CommandIn(payload: Bytes): (c: Command)
      ensures ValidCommand(c)
    {
      match decodeCommand(payload)
      case Some(c) => if ValidCommand(c) then c else Empty
      case None => Empty
    }

    function DocsIn(data: Bytes): seq<FlightDocument> {
      match decodeDocs(data)
      case Some(ds) => ds
      case None => []
    }
  }

  /** A snapshot lists the documents in some order. */
  ghost predicate DumpOf(codec: ShardCodec, m: Corpus, data: Bytes) {
    exists ds :: codec.AllWire(ds) && data == codec.encodeDocs(ds) && Upserted(map[], ds) == m
  }

  /** The shard application over the plain map of documents. */
  ghost function ShardApp(codec: ShardCodec): App<Corpus> {
    App(map[],
        (m: Corpus, payload: Bytes) => Applied(m, codec.CommandIn(payload)),
        (data: Bytes) => Upserted(map[], codec.DocsIn(data)),
        (m: Corpus, data: Bytes) => DumpOf(codec, m, data))
  }

  lemma ShardAppIsValid(codec: ShardCodec)
    requires codec.Valid()
    ensures ShardApp(codec).Valid()
  {
    hide Upserted;
  }

  // ---- stored documents stay encodable ----

  ghost predicate WireCorpus(codec: ShardCodec, m: Corpus) {
    forall k :: k in m ==> codec.wire(m[k])
  }

  lemma EmptyIsWire(codec: ShardCodec)
    ensures WireCorpus(codec, map[])
  {
  }

  lemma RestoredIsWire(codec: ShardCodec, data: Bytes)
    requires codec.Valid()
    ensures WireCorpus(codec, Upserted(map[], codec.DocsIn(data)))
  {
    hide Upserted;
    UpsertedStaysWire(codec, map[], codec.DocsIn(data));
  }

  lemma {:induction false} UpsertedStaysWire(codec: ShardCodec, m: Corpus, ds: seq<FlightDocument>)
    requires WireCorpus(codec, m) && codec.AllWire(ds)
    ensures WireCorpus(codec, Upserted(m, ds))
  {
    if ds != [] {
      UpsertedStaysWire(codec, m, ds[..|ds| - 1]);
    }
  }

  lemma AppliedStaysWire(codec: ShardCodec, m: Corpus, payload: Bytes)
    requires codec.Valid() && WireCorpus(codec, m)
    ensures WireCorpus(codec, Applied(m, codec.CommandIn(payload)))
  {
    hide Upserted;
    var c := codec.CommandIn(payload);
    if c.Batch? {
      UpsertedStaysWire(codec, m, c.documents);
    }
  }

  lemma DumpOfListing(codec: ShardCodec, m: Corpus, docs: seq<FlightDocument>)
    requires WireCorpus(codec, m) && Upserted(map[], docs) == m
    requires forall d :: d in docs <==> d.icao24 in m && m[d.icao24] == d
    ensures DumpOf(codec, m, codec.encodeDocs(docs))
  {
    hide Upserted;
    assert codec.AllWire(docs);
  }

  /** The reply to one entry. */
  function EntryReply(codec: ShardCodec, m: Corpus, e: Entry): nat {
    if e.payload.Normal? then Reply(m, codec.CommandIn(e.payload.payload)) else 0
  }

  class StateMachineStore {
    const codec: ShardCodec
    const durable: bool
    var app: ShardStore
    var lastApplied: Option<LogId>
    var membership: StoredMembership
    var built: nat
    var held: Option<Stored>
    var disk: map<nat, Stored>

    ghost predicate Valid()
      reads this, app, app.keyword, app.vector
    {
      app.Valid() && codec.Valid() && WireCorpus(codec, app.Live())
    }

    /** The replica this object implements. */
    ghost function View(): Replica<Corpus>
      requires Valid()
      reads this, app, app.keyword, app.vector
    {
      Replica(app.Live(), lastApplied, membership, built, held, durable, disk)
    }

    /** Boot: restore the newest snapshot file, if the store has a directory and it holds one. */
    constructor (codec: ShardCodec, tok: Tokenizer, embedder: Embedder, durable: bool, disk: map<nat, Stored>)
      requires codec.Valid()
      ensures this.codec == codec && this.durable == durable && app.tok == tok
      ensures Valid() && fresh(app) && fresh(app.keyword) && fresh(app.vector)
      ensures Booted(ShardApp(codec), durable, disk, View())
    {
      hide ShardStore.Valid, ShardStore.Live, Upserted, ShardCodec.Valid, WireCorpus;
      this.codec, this.durable, this.disk := codec, durable, disk;
      lastApplied, membership, built, held := None, NO_MEMBERSHIP, 0, None;
      app := new ShardStore(tok, embedder);
      new;
      EmptyIsWire(codec);
      if durable && disk != map[] {
        var i := LoadLatest(disk);
        RestoredIsWire(codec, disk[i].data);
        app.ReplaceAll(codec.DocsIn(disk[i].data));
        lastApplied, membership, held := disk[i].last, disk[i].membership, Some(disk[i]);
        assert Newest(disk, i);
      }
    }

    /** Apply committed entries in order. */
    method Apply(entries: seq<Entry>) returns (replies: seq<nat>)
      requires Valid()
      modifies this`lastApplied, this`membership, app, app.keyword, app.vector
      ensures Valid() && app.keyword == old(app.keyword) && app.vector == old(app.vector)
      ensures View() == ApplyEntries(ShardApp(codec), old(View()), entries)
      ensures |replies| == |entries|
      ensures forall i :: 0 <= i < |entries| ==>
                replies[i] == EntryReply(codec, ApplyEntries(ShardApp(codec), old(View()), entries[..i]).state, entries[i])
    {
      hide Valid, View, ShardApp, EntryReply, ApplyEntry;
      replies := [];
      assert entries[..0] == [];
      for i := 0 to |entries|
        invariant Valid() && app.keyword == old(app.keyword) && app.vector == old(app.vector)
        invariant View() == ApplyEntries(ShardApp(codec), old(View()), entries[..i])
        invariant |replies| == i
        invariant forall j :: 0 <= j < i ==>
                    replies[j] == EntryReply(codec, ApplyEntries(ShardApp(codec), old(View()), entries[..j]).state, entries[j])
      {
        assert entries[..i + 1][..i] == entries[..i];
        var reply := ApplyOne(entries[i]);
        replies := replies + [reply];
      }
      assert entries[..|entries|] == entries;
    }

    method ApplyOne(e: Entry) returns (reply: nat)
      requires Valid()
      modifies this`lastApplied, this`membership, app, app.keyword, app.vector
      ensures Valid() && app.keyword == old(app.keyword) && app.vector == old(app.vector)
      ensures View() == ApplyEntry(ShardApp(codec), old(View()), e)
      ensures reply == EntryReply(codec, old(View()).state, e)
    {
      hide ShardStore.Valid, ShardStore.Live, Applied, Reply, ShardCodec.Valid, WireCorpus;
      match e.payload {
        case Blank =>
          reply := 0;
        case Normal(payload) =>
          reply := ApplyPayloadTo(payload);
        case Membership(config) =>
          membership := StoredMembership(Some(e.logId), config);
          reply := 0;
      }
      lastApplied := Some(e.logId);
    }

    /** The shard application: index a batch, or evict a migrated virtual shard. */
    method ApplyPayloadTo(payload: Bytes) returns (reply: nat)
      requires Valid()
      modifies app, app.keyword, app.vector
      ensures Valid() && app.keyword == old(app.keyword) && app.vector == old(app.vector)
      ensures app.Live() == Applied(old(app.Live()), codec.CommandIn(payload))
      ensures reply == Reply(old(app.Live()), codec.CommandIn(payload))
    {
      hide ShardStore.Valid, ShardStore.Live, Upserted, Evicted, ShardCodec.Valid, WireCorpus;
      AppliedStaysWire(codec, app.Live(), payload);
      match codec.CommandIn(payload) {
        case Batch(documents) =>
          NothingUpserted(app.Live());
          assert documents[..0] == [];
          for i := 0 to |documents|
            invariant app.Valid() && app.keyword == old(app.keyword) && app.vector == old(app.vector)
            invariant app.Live() == Upserted(old(app.Live()), documents[..i])
          {
            UpsertedSnoc(old(app.Live()), documents, i);
            app.Insert(documents[i]);
          }
          assert documents[..|documents|] == documents;
          reply := |documents| % U32_LIMIT;
        case Evict(vshard, v) =>
          var removed := app.EvictVshard(vshard, v);
          reply := removed % U32_LIMIT;
        case Empty =>
          reply := 0;
      }
    }

    method BuildSnapshot() returns (st: Stored)
      requires Valid()
      modifies this`built, this`held, this`disk
      ensures Valid()
      ensures ShardApp(codec).dumps(old(View()).state, st.data)
      ensures st == Snapshot(old(View()), st.data) && View() == Built(old(View()), st.data)
    {
      hide ShardStore.Valid, ShardStore.Live, Upserted, ShardCodec.Valid, WireCorpus, DumpOf;
      var docs := app.Documents();
      DumpOfListing(codec, app.Live(), docs);
      built := built + 1;
      st := Stored(lastApplied, membership, built, codec.encodeDocs(docs));
      held := Some(st);
      Persist(st);
    }

    /** Rename the new file into place and remove every other one. */
    method Persist(st: Stored)
      modifies this`disk
      ensures disk == if durable then map[FileIndex(st) := st] else old(disk)
    {
      if durable {
        disk := disk[FileIndex(st) := st];
        disk := disk - (disk.Keys - {FileIndex(st)});
      }
    }

    method InstallSnapshot(st: Stored)
      requires Valid()
      modifies this`lastApplied, this`membership, this`held, this`disk, app
      ensures Valid() && fresh(app.keyword) && fresh(app.vector)
      ensures View() == Installed(ShardApp(codec), old(View()), st)
    {
      hide ShardStore.Valid, ShardStore.Live, Upserted, ShardCodec.Valid, WireCorpus;
      RestoredIsWire(codec, st.data);
      app.ReplaceAll(codec.DocsIn(st.data));
      lastApplied, membership, held := st.last, st.membership, Some(st);
      Persist(st);
    }
  }

  method LoadLatest(disk: map<nat, Stored>) returns (i: nat)
    requires disk != map[]
    ensures Newest(disk, i)
  {
    var todo := disk.Keys;
    var first :| first in todo;
    i := first;
    while todo != {}
      invariant todo <= disk.Keys && i in disk
      invariant forall j :: j in disk && j !in todo ==> j <= i
    {
      var j :| j in todo;
      if j > i {
        i := j;
      }
      todo := todo - {j};
    }
  }

  /**
   Keyword answers depend on the committed log alone: replicas that have applied the same log
   id answer every query alike, through whatever snapshots, restarts and slots they got there.
   */
  lemma ReplicasAnswerAlike(codec: ShardCodec, log: seq<Entry>, states: seq<Group<Corpus>>, actions: seq<Action>,
                            k: nat, i: nat, j: nat, tok: Tokenizer, p: Bm25, query: string, limit: nat)
    requires codec.Valid() && Increasing(log) && Run(ShardApp(codec), log, states, actions) && p.Valid()
    requires k < |states| && i < |states[k].replicas| && j < |states[k].replicas|
    requires states[k].replicas[i].lastApplied == states[k].replicas[j].lastApplied
    ensures SearchHits(tok, p, states[k].replicas[i].state, query, limit) ==
            SearchHits(tok, p, states[k].replicas[j].state, query, limit)
    ensures exists n: nat :: n <= |log| && LastId(log[..n]) == states[k].replicas[i].lastApplied &&
              states[k].replicas[i].state == StateAfter(ShardApp(codec), log[..n])
  {
    hide SearchHits, Run, Increasing, Honest, StateAfter, ShardApp, LastId;
    ShardAppIsValid(codec);
    RunIsSound(ShardApp(codec), log, states, actions);
    ReplicasConverge(ShardApp(codec), log, states[k].replicas[i], states[k].replicas[j]);
    var n: nat :| AtPrefix(ShardApp(codec), log, states[k].replicas[i], n);
  }

  // ---- the map as a fold of commands ----

  /** The decoded commands of the log's normal entries. */
  function Commands(codec: ShardCodec, log: seq<Entry>): (cs: seq<Command>)
    ensures forall c :: c in cs ==> ValidCommand(c)
  {
    if log == [] then []
    else
      var last := log[|log| - 1].payload;
      var front := Commands(codec, log[..|log| - 1]);
      if last.Normal? then front + [codec.CommandIn(last.payload)] else front
  }

  /** The state after a log is the fold of its batch and evict commands. */
  lemma {:induction false} StateIsFold(codec: ShardCodec, log: seq<Entry>)
    ensures StateAfter(ShardApp(codec), log) == AppliedAll(map[], Commands(codec, log))
  {
    hide Applied;
    if log != [] {
      var front, last := log[..|log| - 1], log[|log| - 1].payload;
      StateIsFold(codec, front);
      if last.Normal? {
        var cs := Commands(codec, log);
        assert cs[..|cs| - 1] == Commands(codec, front);
      }
    }
  }
}
