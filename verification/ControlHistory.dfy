/**
 What the coordinators' intent is, read off the positions of their log: the last accepted
 reassignment of a virtual shard decides its group, and every drained node stays drained.
 */
module ControlHistories {
  import opened Prelude
  import opened RaftTypes
  import opened RegistrySpec
  import opened ControlState
  import R = Replication

  /** The entry reassigns the virtual shard to the group, both in range. */
  ghost predicate Moves(codec: ControlCodec, n: nat, size: nat, e: Entry, vshard: nat, group: nat) {
    && e.payload.Normal? && vshard < size && group < n
    && codec.decodeCommand(e.payload.payload) == Some(ReassignVshard(vshard, group))
  }

  ghost predicate MovesAway(codec: ControlCodec, n: nat, size: nat, e: Entry, vshard: nat) {
    exists group: nat :: Moves(codec, n, size, e, vshard, group)
  }

  ghost predicate Drains(codec: ControlCodec, e: Entry, nodeId: string) {
    e.payload.Normal? && codec.decodeCommand(e.payload.payload) == Some(DrainNode(nodeId))
  }

  /** One committed entry: an accepted reassignment changes exactly its entry of the table, a
      drain adds exactly its node, and nothing else changes anything. */
  lemma EntryDecides(codec: ControlCodec, n: nat, init: Authority, a: Authority, e: Entry, v: nat, g: nat, id: string)
    ensures var next := R.ApplyPayload(ControlModel(codec, n, init), a, e.payload);
            && |next.vshards| == |a.vshards|
            && (v < |a.vshards| ==>
                  (next.vshards[v] == g <==>
                     Moves(codec, n, |a.vshards|, e, v, g) ||
                     (!MovesAway(codec, n, |a.vshards|, e, v) && a.vshards[v] == g)))
            && (id in next.draining <==> id in a.draining || Drains(codec, e, id))
  {
    hide ControlModel;
    if e.payload.Normal? {
      PayloadCommits(codec, n, init, a, e);
      match codec.decodeCommand(e.payload.payload)
      case Some(ReassignVshard(m, h)) =>
        assert m < |a.vshards| && h < n ==> Moves(codec, n, |a.vshards|, e, m, h);
        assert MovesAway(codec, n, |a.vshards|, e, v) <==> m == v && m < |a.vshards| && h < n;
      case Some(DrainNode(_)) =>
      case None =>
    }
  }

  lemma PayloadCommits(codec: ControlCodec, n: nat, init: Authority, a: Authority, e: Entry)
    requires e.payload.Normal?
    ensures R.ApplyPayload(ControlModel(codec, n, init), a, e.payload) == Committed(codec, n, a, e.payload.payload)
  {
    hide Committed;
  }

  /** Entry i moved the virtual shard there and no later entry moved it. */
  ghost predicate LastMove(codec: ControlCodec, n: nat, size: nat, log: seq<Entry>, i: nat, vshard: nat, group: nat) {
    && i < |log| && Moves(codec, n, size, log[i], vshard, group)
    && forall j :: i < j < |log| ==> !MovesAway(codec, n, size, log[j], vshard)
  }

  ghost predicate NeverMoved(codec: ControlCodec, n: nat, size: nat, log: seq<Entry>, vshard: nat) {
    forall j :: 0 <= j < |log| ==> !MovesAway(codec, n, size, log[j], vshard)
  }

  ghost predicate MovedLast(codec: ControlCodec, n: nat, size: nat, log: seq<Entry>, vshard: nat, group: nat) {
    exists i: nat :: LastMove(codec, n, size, log, i, vshard, group)
  }

  lemma MovesSnoc(codec: ControlCodec, n: nat, size: nat, front: seq<Entry>, e: Entry, vshard: nat, group: nat)
    ensures MovedLast(codec, n, size, front + [e], vshard, group) <==>
            Moves(codec, n, size, e, vshard, group) ||
            (!MovesAway(codec, n, size, e, vshard) && MovedLast(codec, n, size, front, vshard, group))
    ensures NeverMoved(codec, n, size, front + [e], vshard) <==>
            NeverMoved(codec, n, size, front, vshard) && !MovesAway(codec, n, size, e, vshard)
  {
    hide Moves;
    var log := front + [e];
    assert log[|front|] == e && forall j :: 0 <= j < |front| ==> log[j] == front[j];
    if Moves(codec, n, size, e, vshard, group) {
      assert LastMove(codec, n, size, log, |front|, vshard, group);
    }
    if i: nat :| LastMove(codec, n, size, front, i, vshard, group) {
      if !MovesAway(codec, n, size, e, vshard) {
        assert LastMove(codec, n, size, log, i, vshard, group);
      }
    }
    if i: nat :| LastMove(codec, n, size, log, i, vshard, group) {
      if i < |front| {
        assert LastMove(codec, n, size, front, i, vshard, group);
      }
    }
  }

  /**
   After any log the group of a virtual shard is where the last accepted reassignment put it, or
   its first one; a node is draining exactly when it was or some entry drained it.
   */
  lemma {:induction false} LogDecides(codec: ControlCodec, n: nat, init: Authority, log: seq<Entry>, v: nat, g: nat, id: string)
    requires v < |init.vshards|
    ensures var a := R.StateAfter(ControlModel(codec, n, init), log);
            && |a.vshards| == |init.vshards|
            && (a.vshards[v] == g <==>
                  MovedLast(codec, n, |init.vshards|, log, v, g) ||
                  (NeverMoved(codec, n, |init.vshards|, log, v) && init.vshards[v] == g))
            && (id in a.draining <==> id in init.draining || exists i :: 0 <= i < |log| && Drains(codec, log[i], id))
  {
    hide ControlModel, Moves, MovesAway, Drains, MovedLast, NeverMoved;
    var size, app := |init.vshards|, ControlModel(codec, n, init);
    if log == [] {
      NothingMoved(codec, n, init);
    } else {
      var front, e := log[..|log| - 1], log[|log| - 1];
      LogDecides(codec, n, init, front, v, g, id);
      EntryDecides(codec, n, init, R.StateAfter(app, front), e, v, g, id);
      assert log == front + [e];
      MovesSnoc(codec, n, size, front, e, v, g);
      DrainsSnoc(codec, front, e, id);
    }
  }

  lemma DrainsSnoc(codec: ControlCodec, front: seq<Entry>, e: Entry, id: string)
    ensures (exists i :: 0 <= i < |front + [e]| && Drains(codec, (front + [e])[i], id)) <==>
            Drains(codec, e, id) || exists i :: 0 <= i < |front| && Drains(codec, front[i], id)
  {
    hide Drains;
    var log := front + [e];
    assert log[|front|] == e && forall j :: 0 <= j < |front| ==> log[j] == front[j];
    if i :| 0 <= i < |front| && Drains(codec, front[i], id) {
      assert Drains(codec, log[i], id);
    }
  }

  lemma NothingMoved(codec: ControlCodec, n: nat, init: Authority)
    ensures R.StateAfter(ControlModel(codec, n, init), []) == init
    ensures forall size: nat, v: nat :: NeverMoved(codec, n, size, [], v)
    ensures forall size: nat, v: nat, g: nat :: !MovedLast(codec, n, size, [], v, g)
  {
  }
}
