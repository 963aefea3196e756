/**
 Who was seen when: what heartbeats, reports and registrations do to every entry of the shard
 map, and that a leader which keeps beating keeps its shard.
 */
module Liveness {
  import opened Prelude
  import opened RegistrySpec
  import C = ControlState

  // ---- heartbeats ----

  /** Only this leader's time changed. */
  ghost predicate LeaderSeen(s: Shards, next: Shards, shard: nat, nodeId: string, now: nat) {
    && shard in s.leaders && s.leaders[shard].nodeId == nodeId
    && next.leaders.Keys == s.leaders.Keys && next.followers == s.followers
    && next.leaders[shard] == NodeInfo(nodeId, s.leaders[shard].address, s.leaders[shard].role, now)
    && forall k :: k in s.leaders && k != shard ==> next.leaders[k] == s.leaders[k]
  }

  /** Only this follower entry's time changed. */
  ghost predicate FollowerSeen(s: Shards, next: Shards, shard: nat, i: nat, nodeId: string, now: nat) {
    && shard in s.followers && i < |s.followers[shard]| && s.followers[shard][i].nodeId == nodeId
    && next.followers.Keys == s.followers.Keys && next.leaders == s.leaders
    && |next.followers[shard]| == |s.followers[shard]|
    && next.followers[shard][i] == NodeInfo(nodeId, s.followers[shard][i].address, s.followers[shard][i].role, now)
    && (forall j :: 0 <= j < |s.followers[shard]| && j != i ==> next.followers[shard][j] == s.followers[shard][j])
    && forall k :: k in s.followers && k != shard ==> next.followers[k] == s.followers[k]
  }

  ghost predicate Unknown(s: Shards, nodeId: string) {
    && (forall k :: k in s.leaders ==> s.leaders[k].nodeId != nodeId)
    && forall k, i :: k in s.followers && 0 <= i < |s.followers[k]| ==> s.followers[k][i].nodeId != nodeId
  }

  /** A heartbeat at `now` puts that time on one entry of the node and leaves every other entry alone. */
  lemma HeartbeatIsSeen(s: Shards, nodeId: string, now: nat, next: Shards, role: Option<Role>)
    requires Heartbeat(s, nodeId, now, next, role)
    ensures match role
            case Some(Leader) => exists k :: LeaderSeen(s, next, k, nodeId, now)
            case Some(Follower) =>
              (forall k :: k in s.leaders ==> s.leaders[k].nodeId != nodeId) &&
              exists k: nat, i: nat :: FollowerSeen(s, next, k, i, nodeId, now)
            case Some(Unspecified) => false
            case None => next == s && Unknown(s, nodeId)
  {
    match role
    case Some(Leader) =>
      var k :| Leads(s, k, nodeId) && next == TouchedLeader(s, k, now);
      assert LeaderSeen(s, next, k, nodeId, now);
    case Some(Follower) =>
      var k: nat, i: nat :| Follows(s, k, i, nodeId) && next == TouchedFollower(s, k, i, now);
      assert FollowerSeen(s, next, k, i, nodeId, now);
    case Some(Unspecified) =>
    case None =>
  }

  // ---- reports ----

  /** The list starts with the other one's elements in order, all but the one at i. */
  ghost predicate Skips<T>(was: seq<T>, i: nat, nodes: seq<T>)
    requires i < |was| <= |nodes| + 1
  {
    nodes[..i] == was[..i] && nodes[i..|was| - 1] == was[i + 1..]
  }

  /** The follower entry leads its shard, seen now; the old leader is its last follower, seen
      when it was; every other entry is as it was. */
  ghost predicate Takeover(s: Shards, next: Shards, shard: nat, i: nat, nodeId: string, now: nat) {
    && shard in s.followers && i < |s.followers[shard]| && s.followers[shard][i].nodeId == nodeId
    && next.leaders.Keys == s.leaders.Keys + {shard} && next.followers.Keys == s.followers.Keys
    && next.leaders[shard] == NodeInfo(nodeId, s.followers[shard][i].address, Leader, now)
    && (forall k :: k in s.leaders && k != shard ==> next.leaders[k] == s.leaders[k])
    && (forall k :: k in s.followers && k != shard ==> next.followers[k] == s.followers[k])
    && var was, nodes := s.followers[shard], next.followers[shard];
       && |nodes| == |was| - 1 + (if shard in s.leaders then 1 else 0)
       && Skips(was, i, nodes)
       && (shard in s.leaders ==>
             var l := s.leaders[shard];
             nodes[|was| - 1] == NodeInfo(l.nodeId, l.address, Follower, l.lastSeen))
  }

  /** The list without one entry, and with others at its end. */
  lemma Demoted<T>(was: seq<T>, i: nat, more: seq<T>, nodes: seq<T>)
    requires i < |was| && nodes == RemoveAt(was, i) + more
    ensures |nodes| == |was| - 1 + |more|
    ensures Skips(was, i, nodes)
    ensures more != [] ==> nodes[|was| - 1] == more[0]
  {
    var a, b := was[..i], was[i + 1..];
    assert nodes == a + b + more && |a| == i && |b| == |was| - 1 - i;
    assert nodes[..i] == a && nodes[i..|was| - 1] == b;
  }

  lemma ElectedTakesOver(s: Shards, shard: nat, i: nat, nodeId: string, now: nat)
    requires Follows(s, shard, i, nodeId)
    ensures Takeover(s, Elected(s, shard, i, now), shard, i, nodeId, now)
  {
    hide RemoveAt, Skips;
    var was, next := s.followers[shard], Elected(s, shard, i, now);
    var more := if shard in s.leaders then [s.leaders[shard].(role := Follower)] else [];
    assert RemoveAt(was, i) + [] == RemoveAt(was, i);
    Demoted(was, i, more, next.followers[shard]);
  }

  lemma ReportIsSeen(s: Shards, nodeId: string, now: nat, next: Shards, changed: Option<nat>)
    requires Reported(s, nodeId, now, next, changed)
    ensures match changed
            case Some(shard) =>
              (forall k :: k in s.leaders ==> s.leaders[k].nodeId != nodeId) &&
              exists i: nat :: Takeover(s, next, shard, i, nodeId, now)
            case None => (exists k :: LeaderSeen(s, next, k, nodeId, now)) || (next == s && Unknown(s, nodeId))
  {
    hide Takeover, Elected;
    match changed
    case Some(shard) =>
      var i: nat :| Follows(s, shard, i, nodeId) && next == Elected(s, shard, i, now);
      ElectedTakesOver(s, shard, i, nodeId, now);
    case None =>
      if k :| Leads(s, k, nodeId) && next == TouchedLeader(s, k, now) {
        assert LeaderSeen(s, next, k, nodeId, now);
      }
  }

  // ---- registrations ----

  /** Another node was seen leading the shard within the liveness window. */
  ghost predicate Defended(s: Shards, shard: nat, nodeId: string, now: nat, liveness: nat) {
    shard in s.leaders && s.leaders[shard].nodeId != nodeId && now <= s.leaders[shard].lastSeen + liveness
  }

  /** The shard's followers with this entry: the node's first one replaced, or appended. */
  ghost predicate Enrolled(was: seq<NodeInfo>, nodes: seq<NodeInfo>, info: NodeInfo) {
    exists i: nat ::
      && i < |nodes| && nodes[i] == info && |was| <= |nodes| <= |was| + 1
      && (|nodes| == |was| + 1 ==> i == |was|)
      && (forall j :: 0 <= j < i ==> was[j].nodeId != info.nodeId)
      && (i < |was| ==> |nodes| == |was| && was[i].nodeId == info.nodeId)
      && (forall j :: 0 <= j < |was| && j != i ==> nodes[j] == was[j])
  }

  /** Which registrations are accepted, and every entry afterwards. */
  lemma RegistrationIsSeen(s: Shards, n: nat, req: Request, now: nat, liveness: nat)
    ensures var next := Registered(s, n, req, now, liveness);
            var info := NodeInfo(req.nodeId, req.address, req.role, now);
            var refused := req.shardId >= n || req.role == Unspecified ||
                           (req.role == Leader && Defended(s, req.shardId, req.nodeId, now, liveness));
            && (refused ==> next == s)
            && (!refused && req.role == Leader ==>
                  && next.followers == s.followers && next.leaders.Keys == s.leaders.Keys + {req.shardId}
                  && next.leaders[req.shardId] == info
                  && forall k :: k in s.leaders && k != req.shardId ==> next.leaders[k] == s.leaders[k])
            && (!refused && req.role == Follower ==>
                  && next.leaders == s.leaders && next.followers.Keys == s.followers.Keys + {req.shardId}
                  && (forall k :: k in s.followers && k != req.shardId ==> next.followers[k] == s.followers[k])
                  && Enrolled(if req.shardId in s.followers then s.followers[req.shardId] else [],
                              next.followers[req.shardId], info))
  {
    hide UpsertNode, Enrolled;
    if req.role == Follower {
      EnrolledAt(FollowersOf(s, req.shardId), NodeInfo(req.nodeId, req.address, req.role, now));
    }
  }

  lemma EnrolledAt(nodes: seq<NodeInfo>, info: NodeInfo)
    ensures Enrolled(nodes, UpsertNode(nodes, info), info)
  {
    hide UpsertNode;
    var i := Locate(nodes, info.nodeId);
    UpsertAt(nodes, info, i);
    var out := UpsertNode(nodes, info);
    assert i < |out| && out[i] == info;
  }

  // ---- failover ----

  /** After a failover nobody is left who was last seen longer ago than the timeout. */
  lemma SilentNodesGo(s: Shards, now: nat, timeout: nat)
    ensures var next := FailedOver(s, now, timeout);
            && (forall k :: k in next.leaders ==> now <= next.leaders[k].lastSeen + timeout)
            && (forall k, n :: k in next.followers && n in next.followers[k] ==> now <= n.lastSeen + timeout)
  {
    hide FailedOver;
    FailoverIsExact(s, now, timeout);
    var next := FailedOver(s, now, timeout);
    forall k, n | k in next.followers && n in next.followers[k]
      ensures now <= n.lastSeen + timeout
    {
      assert Fresh(n, now, timeout);
    }
  }

  /** A leader that beat at t leads its shard after a failover within the timeout. */
  lemma BeatingLeaderLeads(s: Shards, nodeId: string, t: nat, next: Shards, now: nat, timeout: nat) returns (shard: nat)
    requires Heartbeat(s, nodeId, t, next, Some(Leader)) && now <= t + timeout
    ensures shard in s.leaders && s.leaders[shard].nodeId == nodeId
    ensures var after := FailedOver(next, now, timeout);
            shard in after.leaders && after.leaders[shard].nodeId == nodeId && after.leaders[shard].lastSeen == t
  {
    hide FailedOver;
    HeartbeatIsSeen(s, nodeId, t, next, Some(Leader));
    shard :| LeaderSeen(s, next, shard, nodeId, t);
    FailoverIsExact(next, now, timeout);
    assert Fresh(next.leaders[shard], now, timeout);
  }

  /** A follower that beat at t is a member of its shard after a failover within the timeout. */
  lemma BeatingFollowerStays(s: Shards, nodeId: string, t: nat, next: Shards, now: nat, timeout: nat) returns (shard: nat)
    requires Heartbeat(s, nodeId, t, next, Some(Follower)) && now <= t + timeout
    ensures exists i :: shard in s.followers && 0 <= i < |s.followers[shard]| && s.followers[shard][i].nodeId == nodeId
    ensures var after := FailedOver(next, now, timeout);
            || (shard in after.leaders && after.leaders[shard].nodeId == nodeId)
            || (shard in after.followers && exists x :: x in after.followers[shard] && x.nodeId == nodeId && x.lastSeen == t)
  {
    HeartbeatIsSeen(s, nodeId, t, next, Some(Follower));
    var k: nat, i: nat :| FollowerSeen(s, next, k, i, nodeId, t);
    shard := k;
    var x := next.followers[k][i];
    assert x in next.followers[k] && Fresh(x, now, timeout);
    FreshFollowerStays(next, k, x, now, timeout);
  }

  lemma FreshFollowerStays(s: Shards, shard: nat, x: NodeInfo, now: nat, timeout: nat)
    requires shard in s.followers && x in s.followers[shard] && Fresh(x, now, timeout)
    ensures var after := FailedOver(s, now, timeout);
            || (shard in after.leaders && after.leaders[shard].nodeId == x.nodeId)
            || (shard in after.followers && x in after.followers[shard])
  {
    hide Fresh, FreshOnes;
    var reaped := Reaped(s, now, timeout);
    FreshOnesMembers(s.followers[shard], now, timeout);
    assert x in reaped.followers[shard];
    var nodes := reaped.followers[shard];
    if Orphaned(reaped, shard) && x != nodes[|nodes| - 1] {
      assert x in nodes[..|nodes| - 1];
    }
  }

  /** The leader and the followers of a shard, as far as there are any. */
  predicate Has(s: Shards, shard: nat, leader: Option<NodeInfo>, followers: seq<NodeInfo>) {
    && leader == (if shard in s.leaders then Some(s.leaders[shard]) else None)
    && followers == (if shard in s.followers then s.followers[shard] else [])
  }

  /** A promotion makes the last follower of a leaderless shard its leader, with the address and
      time it had, and leaves every other shard and follower alone. */
  lemma PromotionIsSeen(s: Shards, shard: nat, leader: Option<NodeInfo>, followers: seq<NodeInfo>)
    requires Has(s, shard, leader, followers)
    ensures if leader.None? && followers != [] then
              var last := followers[|followers| - 1];
              Has(Promoted(s), shard, Some(NodeInfo(last.nodeId, last.address, Leader, last.lastSeen)), followers[..|followers| - 1])
            else Has(Promoted(s), shard, leader, followers)
  {
  }

  /** A reap drops a leader seen longer ago than the timeout and exactly such followers, keeping
      the order of the others. */
  lemma {:induction false} ReapIsSeen(s: Shards, now: nat, timeout: nat, shard: nat)
    ensures var next := Reaped(s, now, timeout);
            && (shard in next.leaders <==> shard in s.leaders && now <= s.leaders[shard].lastSeen + timeout)
            && (shard in next.leaders ==> next.leaders[shard] == s.leaders[shard])
            && (shard in next.followers <==> shard in s.followers)
            && (shard in s.followers ==> IsFiltered(s.followers[shard], now, timeout, next.followers[shard]))
  {
    hide FreshOnes, IsFiltered;
    if shard in s.followers {
      FreshOnesFilter(s.followers[shard], now, timeout);
    }
  }

  /** The list without the nodes seen longer ago than the timeout. */
  predicate IsFiltered(nodes: seq<NodeInfo>, now: nat, timeout: nat, left: seq<NodeInfo>) {
    if nodes == [] then left == []
    else if now <= nodes[0].lastSeen + timeout then
      left != [] && left[0] == nodes[0] && IsFiltered(nodes[1..], now, timeout, left[1..])
    else IsFiltered(nodes[1..], now, timeout, left)
  }

  lemma {:induction false} FreshOnesFirst(nodes: seq<NodeInfo>, now: nat, timeout: nat)
    requires nodes != []
    ensures FreshOnes(nodes, now, timeout) ==
            (if Fresh(nodes[0], now, timeout) then [nodes[0]] else []) + FreshOnes(nodes[1..], now, timeout)
  {
    hide Fresh;
    if |nodes| == 1 {
      assert nodes[..0] == [] && nodes[1..] == [];
    } else {
      var front := nodes[..|nodes| - 1];
      FreshOnesFirst(front, now, timeout);
      assert nodes[1..][..|nodes| - 2] == front[1..];
    }
  }

  lemma {:induction false} FreshOnesFilter(nodes: seq<NodeInfo>, now: nat, timeout: nat)
    ensures IsFiltered(nodes, now, timeout, FreshOnes(nodes, now, timeout))
  {
    hide FreshOnes;
    if nodes == [] {
      NoneFresh(now, timeout);
    } else {
      FreshOnesFirst(nodes, now, timeout);
      FreshOnesFilter(nodes[1..], now, timeout);
      var left := FreshOnes(nodes[1..], now, timeout);
      assert ([nodes[0]] + left)[1..] == left && [] + left == left;
    }
  }

  lemma NoneFresh(now: nat, timeout: nat)
    ensures FreshOnes([], now, timeout) == []
  {
  }

  // ---- over a run ----

  /** The node leads the shard and was seen at t or later. */
  ghost predicate LeadsSince(s: Shards, shard: nat, nodeId: string, t: nat) {
    shard in s.leaders && s.leaders[shard].nodeId == nodeId && s.leaders[shard].lastSeen >= t
  }

  /** An operation at t or later and within the timeouts; reports come from the leader itself or
      from nodes that do not follow the shard. */
  ghost predicate Within(op: C.Op, s: Shards, shard: nat, nodeId: string, t: nat, liveness: nat) {
    match op
    case Register(req, now) => t <= now <= t + liveness
    case Beat(_, now) => t <= now
    case Reap(now, timeout) => now <= t + timeout
    case Report(reporter, now) =>
      t <= now && (reporter == nodeId ||
                   forall i :: shard in s.followers && 0 <= i < |s.followers[shard]| ==> s.followers[shard][i].nodeId != reporter)
    case _ => true
  }

  lemma StepKeepsLeader(codec: C.ControlCodec, n: nat, liveness: nat, replicated: bool, c: C.Coordinator, op: C.Op, next: C.Coordinator,
                        shard: nat, nodeId: string, t: nat)
    requires C.OpStep(codec, n, liveness, replicated, c, op, next)
    requires LeadsSince(c.shards, shard, nodeId, t) && Within(op, c.shards, shard, nodeId, t, liveness)
    ensures LeadsSince(next.shards, shard, nodeId, t)
  {
    hide Registered, Heartbeat, Reported, Promoted, Reaped, C.Committed, C.Restored, Takeover, Defended;
    match op
    case Register(req, now) =>
      RegistrationIsSeen(c.shards, n, req, now, liveness);
      if req.nodeId != nodeId {
        Guards(c.shards, shard, nodeId, t, req.nodeId, now, liveness);
      }
    case Beat(id, now) =>
      var role :| Heartbeat(c.shards, id, now, next.shards, role);
      HeartbeatIsSeen(c.shards, id, now, next.shards, role);
    case Reap(now, timeout) =>
      ReapKeepsLeader(c.shards, shard, nodeId, t, now, timeout);
    case Promote =>
      PromoteLeads(c.shards, shard);
    case Report(id, now) =>
      var changed :| Reported(c.shards, id, now, next.shards, changed);
      ReportIsSeen(c.shards, id, now, next.shards, changed);
      ReportKeepsLeader(c.shards, id, now, next.shards, changed, shard, nodeId, t);
    case _ =>
  }

  lemma Guards(s: Shards, shard: nat, nodeId: string, t: nat, other: string, now: nat, liveness: nat)
    requires LeadsSince(s, shard, nodeId, t) && now <= t + liveness && other != nodeId
    ensures Defended(s, shard, other, now, liveness)
  {
  }

  lemma ReapKeepsLeader(s: Shards, shard: nat, nodeId: string, t: nat, now: nat, timeout: nat)
    requires LeadsSince(s, shard, nodeId, t) && now <= t + timeout
    ensures LeadsSince(Reaped(s, now, timeout), shard, nodeId, t)
  {
  }

  lemma ReportKeepsLeader(s: Shards, id: string, now: nat, next: Shards, changed: Option<nat>, shard: nat, nodeId: string, t: nat)
    requires LeadsSince(s, shard, nodeId, t) && t <= now
    requires match changed
             case Some(k) =>
               (forall k :: k in s.leaders ==> s.leaders[k].nodeId != id) && exists i: nat :: Takeover(s, next, k, i, id, now)
             case None => (exists k :: LeaderSeen(s, next, k, id, now)) || next == s
    requires id == nodeId || forall i :: shard in s.followers && 0 <= i < |s.followers[shard]| ==> s.followers[shard][i].nodeId != id
    ensures LeadsSince(next, shard, nodeId, t)
  {
  }

  /**
   Over every run of registrations, heartbeats, reaps, promotions, reports and deliveries inside
   the timeouts, a leader seen at t keeps its shard: nothing displaces it but a raft report by
   one of the shard's followers.
   */
  lemma {:induction false} SeenLeaderStays(codec: C.ControlCodec, n: nat, liveness: nat, replicated: bool,
                                           states: seq<C.Coordinator>, ops: seq<C.Op>, shard: nat, nodeId: string, t: nat)
    requires C.OpRun(codec, n, liveness, replicated, states, ops)
    requires LeadsSince(states[0].shards, shard, nodeId, t)
    requires forall i :: 0 <= i < |ops| ==> Within(ops[i], states[i].shards, shard, nodeId, t, liveness)
    ensures LeadsSince(states[|ops|].shards, shard, nodeId, t)
    decreases |ops|
  {
    hide LeadsSince, Within, C.OpStep;
    if ops != [] {
      var last := |ops| - 1;
      assert C.OpRun(codec, n, liveness, replicated, states[..|ops|], ops[..last]);
      SeenLeaderStays(codec, n, liveness, replicated, states[..|ops|], ops[..last], shard, nodeId, t);
      StepKeepsLeader(codec, n, liveness, replicated, states[last], ops[last], states[|ops|], shard, nodeId, t);
    }
  }
}
