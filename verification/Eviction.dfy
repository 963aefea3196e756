/**
 One tick of the eviction watcher: the leader proposes evicting every virtual shard it holds
 documents of but no longer owns, stopping at the first refused proposal.
 */
module Eviction {
  import opened Prelude
  import opened Documents
  import opened KeywordSpec
  import opened Placement
  import opened ShardSpecs

  /** The virtual shards with at least one document. */
  function Held(docs: seq<FlightDocument>, v: NonZero): set<nat> {
    set d | d in docs :: VshardFor(d.icao24, v)
  }

  method HeldVshards(docs: seq<FlightDocument>, v: NonZero) returns (held: set<nat>)
    ensures held == Held(docs, v)
  {
    hide VshardFor;
    held := {};
    for i := 0 to |docs|
      invariant held == Held(docs[..i], v)
    {
      assert docs[..i + 1] == docs[..i] + [docs[i]];
      held := held + {VshardFor(docs[i].icao24, v)};
    }
    assert docs[..|docs|] == docs;
  }

  predicate OwnedVshard(table: seq<nat>, group: nat, vshard: nat) {
    vshard < |table| && table[vshard] == group
  }

  /** The evictions owed among the first n virtual shards, in ascending order. */
  function Owed(held: set<nat>, table: seq<nat>, group: nat, v: NonZero, n: nat): seq<Command> {
    if n == 0 then []
    else if n - 1 in held && !OwnedVshard(table, group, n - 1) then
      Owed(held, table, group, v, n - 1) + [Evict(n - 1, v)]
    else Owed(held, table, group, v, n - 1)
  }

  /**
   The tick. Proposal number `refused` is the first the log refuses, if that many are made;
   `accepted` are the commands the log took.
   */
  method Tick(docs: seq<FlightDocument>, table: seq<nat>, group: nat, refused: nat)
    returns (accepted: seq<Command>, completed: bool)
    ensures Modulus(table) == 0 ==> accepted == [] && !completed
    ensures Modulus(table) != 0 ==>
              var owed := Owed(Held(docs, Modulus(table)), table, group, Modulus(table), Modulus(table));
              && accepted == (if |owed| <= refused then owed else owed[..refused])
              && (completed <==> |owed| <= refused)
  {
    accepted, completed := [], false;
    var v := Modulus(table);
    if v == 0 {
      return;
    }
    var held := HeldVshards(docs, v);
    for vshard := 0 to v
      invariant accepted == Owed(held, table, group, v, vshard) && |accepted| <= refused
    {
      if vshard in held && !OwnedVshard(table, group, vshard) {
        if |accepted| == refused {
          OwedGrows(held, table, group, v, vshard, v);
          return;
        }
        accepted := accepted + [Evict(vshard, v)];
      }
    }
    completed := true;
  }

  lemma {:induction false} OwedGrows(held: set<nat>, table: seq<nat>, group: nat, v: NonZero, n: nat, top: nat)
    requires n < top && n in held && !OwnedVshard(table, group, n)
    ensures IsPrefix(Owed(held, table, group, v, n), Owed(held, table, group, v, top))
    ensures |Owed(held, table, group, v, n)| < |Owed(held, table, group, v, top)|
  {
    if n + 1 < top {
      OwedGrows(held, table, group, v, n, top - 1);
    }
  }

  lemma {:induction false} OwedMembers(held: set<nat>, table: seq<nat>, group: nat, v: NonZero, n: nat)
    ensures forall c :: c in Owed(held, table, group, v, n) <==>
              c.Evict? && c.v == v && c.vshard < n && c.vshard in held && !OwnedVshard(table, group, c.vshard)
  {
    if n > 0 {
      OwedMembers(held, table, group, v, n - 1);
    }
  }

  /** A run of evictions under one modulus removes exactly the named virtual shards. */
  lemma {:induction false} EvictionsRemove(m: Corpus, cs: seq<Command>, v: NonZero)
    requires forall c :: c in cs ==> c.Evict? && c.v == v
    ensures AppliedAll(m, cs) == map k | k in m && Evict(VshardFor(k, v), v) !in cs :: m[k]
  {
    hide VshardFor;
    if cs != [] {
      var front, last := cs[..|cs| - 1], cs[|cs| - 1];
      assert cs == front + [last];
      EvictionsRemove(m, front, v);
      assert last in cs;
    }
  }

  /** The documents the group owns under the table. */
  function OwnedPart(m: Corpus, table: seq<nat>, group: nat): Corpus {
    map k | k in m && Owns(Mapped(group, table), k) :: m[k]
  }

  /**
   Whatever proposals were accepted, no owned document is lost; after a completed tick the
   store holds exactly the owned documents.
   */
  lemma TickLeavesTheOwned(m: Corpus, docs: seq<FlightDocument>, table: seq<nat>, group: nat, accepted: seq<Command>)
    requires Keyed(m) && forall d :: d in docs <==> d.icao24 in m && m[d.icao24] == d
    requires Modulus(table) != 0
    requires IsPrefix(accepted, Owed(Held(docs, Modulus(table)), table, group, Modulus(table), Modulus(table)))
    ensures forall c :: c in accepted ==> ValidCommand(c)
    ensures forall k :: k in OwnedPart(m, table, group) ==>
              k in AppliedAll(m, accepted) && AppliedAll(m, accepted)[k] == m[k]
    ensures accepted == Owed(Held(docs, Modulus(table)), table, group, Modulus(table), Modulus(table)) ==>
              AppliedAll(m, accepted) == OwnedPart(m, table, group)
  {
    hide VshardFor, Owed;
    var v := Modulus(table);
    var owed := Owed(Held(docs, v), table, group, v, v);
    OwedMembers(Held(docs, v), table, group, v, v);
    assert forall c :: c in accepted ==> c in owed;
    EvictionsRemove(m, accepted, v);
    forall k | k in m
      ensures VshardFor(k, v) in Held(docs, v)
      ensures Evict(VshardFor(k, v), v) in owed <==> !Owns(Mapped(group, table), k)
    {
      assert m[k] in docs;
    }
  }

  /**
   Evictions may interleave with any other committed commands: one proposed by the tick never
   removes a document the group owns, whenever it is applied.
   */
  lemma OwnedSurvivesEviction(m: Corpus, docs: seq<FlightDocument>, table: seq<nat>, group: nat, c: Command, k: string)
    requires Modulus(table) != 0
    requires c in Owed(Held(docs, Modulus(table)), table, group, Modulus(table), Modulus(table))
    requires k in m && Owns(Mapped(group, table), k)
    ensures ValidCommand(c) && k in Applied(m, c) && Applied(m, c)[k] == m[k]
  {
    hide VshardFor, Owed;
    OwedMembers(Held(docs, Modulus(table)), table, group, Modulus(table), Modulus(table));
  }

  /**
   Between the proposal and its commit the table may change, and the store too. Applied then,
   the eviction takes an owned document exactly when the virtual shard was handed back to the
   group and still holds something.
   */
  lemma LateEvictionIsExact(m: Corpus, docs: seq<FlightDocument>, table: seq<nat>, later: seq<nat>, group: nat, c: Command)
    requires Modulus(table) != 0 && |later| == |table|
    requires c in Owed(Held(docs, Modulus(table)), table, group, Modulus(table), Modulus(table))
    ensures ValidCommand(c) && c.Evict? && c.v == Modulus(table) && c.vshard < |later|
    ensures forall k :: k in m ==> (k !in Applied(m, c) <==> VshardFor(k, Modulus(table)) == c.vshard)
    ensures forall k :: k in m && k !in Applied(m, c) ==> (Owns(Mapped(group, later), k) <==> later[c.vshard] == group)
    ensures (exists k :: k in m && Owns(Mapped(group, later), k) && k !in Applied(m, c)) <==>
            later[c.vshard] == group && exists k :: k in m && VshardFor(k, Modulus(table)) == c.vshard
  {
    hide VshardFor, Owed;
    OwedMembers(Held(docs, Modulus(table)), table, group, Modulus(table), Modulus(table));
    assert c.v == Modulus(table) == Modulus(later);
  }
}
