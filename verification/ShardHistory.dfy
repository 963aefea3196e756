/**
 What a shard's documents are, read off the positions of its log: for every aircraft the last
 batch entry that names it decides, unless its virtual shard was evicted afterwards.
 */
module ShardHistories {
  import opened Prelude
  import opened RaftTypes
  import opened Documents
  import opened KeywordSpec
  import opened Placement
  import opened Replication
  import opened ShardSpecs
  import opened ShardStateMachine

  /** The last document the list has for the aircraft. */
  ghost predicate LastFor(ds: seq<FlightDocument>, k: string, d: FlightDocument) {
    exists j :: 0 <= j < |ds| && ds[j] == d && d.icao24 == k && forall l :: j < l < |ds| ==> ds[l].icao24 != k
  }

  ghost predicate Names(ds: seq<FlightDocument>, k: string) {
    exists j :: 0 <= j < |ds| && ds[j].icao24 == k
  }

  lemma {:induction false} UpsertsDecide(m: Corpus, ds: seq<FlightDocument>, k: string, d: FlightDocument)
    ensures (k in Upserted(m, ds) && Upserted(m, ds)[k] == d) <==>
            LastFor(ds, k, d) || (!Names(ds, k) && k in m && m[k] == d)
    ensures k in Upserted(m, ds) <==> Names(ds, k) || k in m
    decreases |ds|
  {
    if ds != [] {
      var front, last := ds[..|ds| - 1], ds[|ds| - 1];
      UpsertsDecide(m, front, k, d);
      assert ds == front + [last];
      LastForSnoc(front, last, k, d);
    }
  }

  lemma LastForSnoc(front: seq<FlightDocument>, last: FlightDocument, k: string, d: FlightDocument)
    ensures LastFor(front + [last], k, d) <==> if last.icao24 == k then last == d else LastFor(front, k, d)
    ensures Names(front + [last], k) <==> last.icao24 == k || Names(front, k)
  {
    var ds := front + [last];
    assert ds[|front|] == last && forall j :: 0 <= j < |front| ==> ds[j] == front[j];
    if j :| 0 <= j < |front| && front[j] == d && d.icao24 == k && forall l :: j < l < |front| ==> front[l].icao24 != k {
      assert ds[j] == d;
      assert last.icao24 != k ==> LastFor(ds, k, d);
    }
    if j :| 0 <= j < |front| && front[j].icao24 == k {
      assert ds[j].icao24 == k;
    }
    if j :| 0 <= j < |ds| && ds[j].icao24 == k {
      assert j < |front| ==> front[j].icao24 == k;
    }
  }

  lemma LastIsNamed(ds: seq<FlightDocument>, k: string, d: FlightDocument)
    ensures LastFor(ds, k, d) ==> Names(ds, k)
  {
  }

  // ---- entries of the log ----

  /** The entry is a batch whose last document for the aircraft is this one. */
  ghost predicate Writes(codec: ShardCodec, e: Entry, k: string, d: FlightDocument) {
    && e.payload.Normal?
    && exists ds :: codec.decodeCommand(e.payload.payload) == Some(Batch(ds)) && LastFor(ds, k, d)
  }

  /** The entry is a batch naming the aircraft, or evicts its virtual shard. */
  ghost predicate Decides(codec: ShardCodec, e: Entry, k: string) {
    && e.payload.Normal?
    && match codec.decodeCommand(e.payload.payload)
       case Some(Batch(ds)) => Names(ds, k)
       case Some(Evict(vshard, v)) => 0 < v < U32_LIMIT && VshardFor(k, v) == vshard
       case _ => false
  }

  /** The map has this document under the aircraft. */
  predicate Stores(m: Corpus, k: string, d: FlightDocument) {
    k in m && m[k] == d
  }

  lemma PayloadApplies(codec: ShardCodec, m: Corpus, e: Entry)
    requires e.payload.Normal?
    ensures ApplyPayload(ShardApp(codec), m, e.payload) == Applied(m, codec.CommandIn(e.payload.payload))
  {
    hide Applied;
  }

  lemma EntryDecides(codec: ShardCodec, m: Corpus, e: Entry, k: string, d: FlightDocument)
    ensures var next := ApplyPayload(ShardApp(codec), m, e.payload);
            Stores(next, k, d) <==> Writes(codec, e, k, d) || (!Decides(codec, e, k) && Stores(m, k, d))
    ensures Writes(codec, e, k, d) ==> Decides(codec, e, k)
  {
    hide VshardFor, Upserted, ShardApp;
    if e.payload.Normal? {
      PayloadApplies(codec, m, e);
      match codec.decodeCommand(e.payload.payload)
      case Some(Batch(ds)) =>
        UpsertsDecide(m, ds, k, d);
        assert Writes(codec, e, k, d) <==> LastFor(ds, k, d);
        LastIsNamed(ds, k, d);
      case _ =>
    }
  }

  /** Entry i wrote the document and nothing later decided about the aircraft. */
  ghost predicate LastWrite(codec: ShardCodec, log: seq<Entry>, i: nat, k: string, d: FlightDocument) {
    i < |log| && Writes(codec, log[i], k, d) && forall j :: i < j < |log| ==> !Decides(codec, log[j], k)
  }

  lemma LastWriteSnoc(codec: ShardCodec, front: seq<Entry>, e: Entry, k: string, d: FlightDocument)
    requires Writes(codec, e, k, d) ==> Decides(codec, e, k)
    ensures (exists i: nat :: LastWrite(codec, front + [e], i, k, d)) <==>
            Writes(codec, e, k, d) || (!Decides(codec, e, k) && exists i: nat :: LastWrite(codec, front, i, k, d))
  {
    hide Writes, Decides;
    var log := front + [e];
    assert log[|front|] == e && forall j :: 0 <= j < |front| ==> log[j] == front[j];
    if Writes(codec, e, k, d) {
      assert LastWrite(codec, log, |front|, k, d);
    }
    if i: nat :| LastWrite(codec, front, i, k, d) {
      if !Decides(codec, e, k) {
        assert LastWrite(codec, log, i, k, d);
      }
    }
    if i: nat :| LastWrite(codec, log, i, k, d) {
      if i < |front| {
        assert LastWrite(codec, front, i, k, d);
        assert !Decides(codec, log[|front|], k);
      }
    }
  }

  /** The last entry that decides about the aircraft wrote this document. */
  ghost predicate LastWritten(codec: ShardCodec, log: seq<Entry>, k: string, d: FlightDocument) {
    exists i: nat :: LastWrite(codec, log, i, k, d)
  }

  /**
   After any log an aircraft has a document exactly when some entry wrote it and no later entry
   is a batch naming the aircraft or an eviction of its virtual shard.
   */
  lemma {:induction false} LogDecides(codec: ShardCodec, log: seq<Entry>, k: string, d: FlightDocument)
    ensures Stores(StateAfter(ShardApp(codec), log), k, d) <==> LastWritten(codec, log, k, d)
  {
    hide ShardApp, Writes, Decides;
    if log == [] {
      assert StateAfter(ShardApp(codec), log) == map[] by { StartsEmpty(codec); }
    } else {
      var front, e := log[..|log| - 1], log[|log| - 1];
      LogDecides(codec, front, k, d);
      EntryDecides(codec, StateAfter(ShardApp(codec), front), e, k, d);
      LastWriteSnoc(codec, front, e, k, d);
      assert log == front + [e];
    }
  }

  lemma StartsEmpty(codec: ShardCodec)
    ensures ShardApp(codec).init == map[]
  {
  }

  /** The membership is that of the last membership entry, under its id. */
  lemma {:induction false} LastMembership(log: seq<Entry>, at: Option<LogId>, config: seq<byte>)
    ensures MembershipAfter(log) == StoredMembership(at, config) <==>
            if forall i :: 0 <= i < |log| ==> !log[i].payload.Membership? then at == None && config == []
            else exists i :: 0 <= i < |log| && log[i].payload == Membership(config) && at == Some(log[i].logId) &&
                   forall j :: i < j < |log| ==> !log[j].payload.Membership?
  {
    if log != [] {
      var front, e := log[..|log| - 1], log[|log| - 1];
      LastMembership(front, at, config);
      assert forall i :: 0 <= i < |front| ==> front[i] == log[i];
      if e.payload.Membership? {
        assert log[|front|] == e;
      } else {
        if i :| 0 <= i < |front| && front[i].payload == Membership(config) && at == Some(front[i].logId) &&
                forall j :: i < j < |front| ==> !front[j].payload.Membership? {
          assert log[i].payload == Membership(config);
        }
      }
    }
  }

  /**
   In every run of a group, what a replica holds is decided by the positions of the log up to
   its last applied id, through whatever snapshots and restarts it got there.
   */
  lemma ReplicaHoldsLastWrites(codec: ShardCodec, log: seq<Entry>, states: seq<Group<Corpus>>, actions: seq<Action>,
                               k: nat, i: nat) returns (n: nat)
    requires codec.Valid() && Increasing(log) && Run(ShardApp(codec), log, states, actions)
    requires k < |states| && i < |states[k].replicas|
    ensures n <= |log| && LastId(log[..n]) == states[k].replicas[i].lastApplied
    ensures forall icao24: string, d: FlightDocument ::
              Stores(states[k].replicas[i].state, icao24, d) <==> LastWritten(codec, log[..n], icao24, d)
    ensures states[k].replicas[i].membership == MembershipAfter(log[..n])
  {
    hide Run, Increasing, Honest, StateAfter, ShardApp, LastId, LastWritten, MembershipAfter, Stores;
    ShardAppIsValid(codec);
    RunIsSound(ShardApp(codec), log, states, actions);
    var at: nat :| AtPrefix(ShardApp(codec), log, states[k].replicas[i], at);
    n := at;
    forall icao24: string, d: FlightDocument
      ensures Stores(states[k].replicas[i].state, icao24, d) <==> LastWritten(codec, log[..n], icao24, d)
    {
      LogDecides(codec, log[..n], icao24, d);
    }
  }

  /** The aircraft of a virtual shard. */
  function Within(m: Corpus, vshard: nat, v: NonZero): set<string> {
    set k | k in m && VshardFor(k, v) == vshard
  }

  /** The reply to an entry counts the documents of a batch or the aircraft an eviction removes,
      as a 32-bit number, and is zero for everything else. */
  lemma ReplyCounts(codec: ShardCodec, m: Corpus, e: Entry)
    ensures EntryReply(codec, m, e) ==
            if !e.payload.Normal? then 0
            else
              match codec.decodeCommand(e.payload.payload)
              case Some(Batch(ds)) => |ds| % U32_LIMIT
              case Some(Evict(vshard, v)) => if 0 < v < U32_LIMIT then |Within(m, vshard, v)| % U32_LIMIT else 0
              case _ => 0
  {
    hide VshardFor, Within, Evicted;
    if e.payload.Normal? {
      match codec.decodeCommand(e.payload.payload)
      case Some(Evict(vshard, v)) =>
        if 0 < v < U32_LIMIT {
          EvictedAndWithin(m, vshard, v);
        } else {
          NothingEvicted(m, vshard);
        }
      case _ =>
    }
  }

  lemma NothingEvicted(m: Corpus, vshard: nat)
    ensures Evicted(m, vshard, 0) == m
  {
  }

  lemma EvictedAndWithin(m: Corpus, vshard: nat, v: NonZero)
    ensures |m| == |Evicted(m, vshard, v)| + |Within(m, vshard, v)|
  {
    hide VshardFor;
    var left, gone := Evicted(m, vshard, v).Keys, Within(m, vshard, v);
    assert m.Keys == left + gone && left !! gone;
    assert |m| == |m.Keys| && |Evicted(m, vshard, v)| == |left|;
  }
}
