/**
 The coordinator's shard map as values: registration, heartbeats, reaping and failover, and
 the placement table and drain set beside it.
 */
module RegistrySpec {
  import opened Prelude

  datatype Role = Leader | Follower | Unspecified

  datatype NodeInfo = NodeInfo(nodeId: string, address: string, role: Role, lastSeen: nat)

  /** The derived view: rebuilt from registrations and heartbeats. */
  datatype Shards = Shards(leaders: map<nat, NodeInfo>, followers: map<nat, seq<NodeInfo>>)

  /** The operator's intent: the placement table and the drain set. */
  datatype Authority = Authority(vshards: seq<nat>, draining: set<string>)

  datatype Request = Request(nodeId: string, address: string, shardId: nat, role: Role)

  /** Age at `now`, zero when the clock went backwards. */
  function Since(now: nat, seen: nat): nat {
    if now > seen then now - seen else 0
  }

  predicate Fresh(n: NodeInfo, now: nat, timeout: nat) {
    Since(now, n.lastSeen) <= timeout
  }

  function FollowersOf(s: Shards, shard: nat): seq<NodeInfo> {
    if shard in s.followers then s.followers[shard] else []
  }

  // ---- the shape every reachable shard map has ----

  /** Keys below N, and roles that match the table. */
  ghost predicate Shaped(s: Shards, n: nat) {
    && (forall k :: k in s.leaders ==> k < n && s.leaders[k].role == Leader)
    && (forall k :: k in s.followers ==> k < n)
    && (forall k, i :: k in s.followers && 0 <= i < |s.followers[k]| ==> s.followers[k][i].role == Follower)
  }

  // ---- registration ----

  /** Re-registering a node updates its entry, a new node is appended. */
  function UpsertNode(nodes: seq<NodeInfo>, info: NodeInfo): seq<NodeInfo> {
    if nodes == [] then [info]
    else if nodes[0].nodeId == info.nodeId then [info] + nodes[1..]
    else [nodes[0]] + UpsertNode(nodes[1..], info)
  }

  /** Another node's live leadership stands in the way. */
  predicate TakeoverRefused(s: Shards, req: Request, now: nat, liveness: nat) {
    && req.role == Leader && req.shardId in s.leaders
    && Fresh(s.leaders[req.shardId], now, liveness) && s.leaders[req.shardId].nodeId != req.nodeId
  }

  predicate Accepts(s: Shards, n: nat, req: Request, now: nat, liveness: nat) {
    req.shardId < n && req.role != Unspecified && !TakeoverRefused(s, req, now, liveness)
  }

  function Registered(s: Shards, n: nat, req: Request, now: nat, liveness: nat): Shards {
    if !Accepts(s, n, req, now, liveness) then s
    else
      var info := NodeInfo(req.nodeId, req.address, req.role, now);
      if req.role == Leader then s.(leaders := s.leaders[req.shardId := info])
      else s.(followers := s.followers[req.shardId := UpsertNode(FollowersOf(s, req.shardId), info)])
  }

  // ---- the operator's intent ----

  /** Out-of-range reassignments change nothing. */
  function Reassigned(a: Authority, n: nat, vshard: nat, group: nat): Authority {
    if vshard < |a.vshards| && group < n then a.(vshards := a.vshards[vshard := group]) else a
  }

  function Drained(a: Authority, nodeId: string): Authority {
    a.(draining := a.draining + {nodeId})
  }

  // ---- heartbeats ----

  predicate Leads(s: Shards, shard: nat, nodeId: string) {
    shard in s.leaders && s.leaders[shard].nodeId == nodeId
  }

  predicate Follows(s: Shards, shard: nat, i: nat, nodeId: string) {
    shard in s.followers && i < |s.followers[shard]| && s.followers[shard][i].nodeId == nodeId
  }

  predicate KnowsLeader(s: Shards, nodeId: string) {
    exists k :: k in s.leaders && s.leaders[k].nodeId == nodeId
  }

  predicate KnowsFollower(s: Shards, nodeId: string) {
    exists k :: k in s.followers && exists n :: n in s.followers[k] && n.nodeId == nodeId
  }

  function TouchedLeader(s: Shards, shard: nat, now: nat): Shards
    requires shard in s.leaders
  {
    s.(leaders := s.leaders[shard := s.leaders[shard].(lastSeen := now)])
  }

  function TouchedFollower(s: Shards, shard: nat, i: nat, now: nat): Shards
    requires shard in s.followers && i < |s.followers[shard]|
  {
    var nodes := s.followers[shard];
    s.(followers := s.followers[shard := nodes[i := nodes[i].(lastSeen := now)]])
  }

  /** One entry of the node is refreshed; which one, when it has several, is the hash map's choice. */
  ghost predicate Heartbeat(s: Shards, nodeId: string, now: nat, next: Shards, role: Option<Role>) {
    match role
    case Some(Leader) => exists k :: Leads(s, k, nodeId) && next == TouchedLeader(s, k, now)
    case Some(Follower) =>
      !KnowsLeader(s, nodeId) && exists k: nat, i: nat :: Follows(s, k, i, nodeId) && next == TouchedFollower(s, k, i, now)
    case Some(Unspecified) => false
    case None => !KnowsLeader(s, nodeId) && !KnowsFollower(s, nodeId) && next == s
  }

  // ---- raft leader reports ----

  function RemoveAt<T>(xs: seq<T>, i: nat): seq<T>
    requires i < |xs|
  {
    xs[..i] + xs[i + 1..]
  }

  /** The follower entry becomes the routed leader, the previous leader a follower entry. */
  function Elected(s: Shards, shard: nat, i: nat, now: nat): Shards
    requires shard in s.followers && i < |s.followers[shard]|
  {
    var nodes := s.followers[shard];
    var rest := RemoveAt(nodes, i);
    var demoted := if shard in s.leaders then rest + [s.leaders[shard].(role := Follower)] else rest;
    Shards(s.leaders[shard := nodes[i].(role := Leader, lastSeen := now)], s.followers[shard := demoted])
  }

  ghost predicate Reported(s: Shards, nodeId: string, now: nat, next: Shards, changed: Option<nat>) {
    match changed
    case Some(shard) =>
      !KnowsLeader(s, nodeId) && exists i: nat :: Follows(s, shard, i, nodeId) && next == Elected(s, shard, i, now)
    case None =>
      (exists k :: Leads(s, k, nodeId) && next == TouchedLeader(s, k, now)) ||
      (!KnowsLeader(s, nodeId) && !KnowsFollower(s, nodeId) && next == s)
  }

  // ---- reaping and failover ----

  function FreshOnes(nodes: seq<NodeInfo>, now: nat, timeout: nat): seq<NodeInfo> {
    if nodes == [] then []
    else
      var front := FreshOnes(nodes[..|nodes| - 1], now, timeout);
      if Fresh(nodes[|nodes| - 1], now, timeout) then front + [nodes[|nodes| - 1]] else front
  }

  function Reaped(s: Shards, now: nat, timeout: nat): Shards {
    Shards(map k | k in s.leaders && Fresh(s.leaders[k], now, timeout) :: s.leaders[k],
           map k | k in s.followers :: FreshOnes(s.followers[k], now, timeout))
  }

  /** The node has a stale entry. */
  ghost predicate Stale(s: Shards, now: nat, timeout: nat, n: NodeInfo) {
    && !Fresh(n, now, timeout)
    && ((exists k :: k in s.leaders && s.leaders[k] == n) || (exists k :: k in s.followers && n in s.followers[k]))
  }

  predicate Orphaned(s: Shards, shard: nat) {
    shard !in s.leaders && FollowersOf(s, shard) != []
  }

  /** Promote the last follower of a leaderless shard. */
  function PromotedIn(s: Shards, shard: nat): Shards
    requires Orphaned(s, shard)
  {
    var nodes := s.followers[shard];
    var rest := nodes[..|nodes| - 1];
    Shards(s.leaders[shard := nodes[|nodes| - 1].(role := Leader)],
           if rest == [] then s.followers - {shard} else s.followers[shard := rest])
  }

  /** The leaders once every orphaned shard outside `todo` has been promoted. */
  function LeadersBut(s: Shards, todo: set<nat>): map<nat, NodeInfo> {
    map k | k in s.leaders.Keys + s.followers.Keys && (k in s.leaders || (k !in todo && Orphaned(s, k))) ::
      if k in s.leaders then s.leaders[k] else s.followers[k][|s.followers[k]| - 1].(role := Leader)
  }

  function FollowersBut(s: Shards, todo: set<nat>): map<nat, seq<NodeInfo>> {
    map k | k in s.followers && !(k !in todo && Orphaned(s, k) && |s.followers[k]| == 1) ::
      if k !in todo && Orphaned(s, k) then s.followers[k][..|s.followers[k]| - 1] else s.followers[k]
  }

  function PromotedBut(s: Shards, todo: set<nat>): Shards {
    Shards(LeadersBut(s, todo), FollowersBut(s, todo))
  }

  function Promoted(s: Shards): Shards {
    PromotedBut(s, {})
  }

  function FailedOver(s: Shards, now: nat, timeout: nat): Shards {
    Promoted(Reaped(s, now, timeout))
  }

  // ---- membership ----

  function IdsOf(nodes: seq<NodeInfo>): multiset<string> {
    if nodes == [] then multiset{} else IdsOf(nodes[..|nodes| - 1]) + multiset{nodes[|nodes| - 1].nodeId}
  }

  /** The nodes of a shard, leader and followers, with multiplicity. */
  function MembersOf(s: Shards, shard: nat): multiset<string> {
    (if shard in s.leaders then multiset{s.leaders[shard].nodeId} else multiset{}) + IdsOf(FollowersOf(s, shard))
  }

  /** The shard has some member fresh at `now`. */
  ghost predicate HasFresh(s: Shards, shard: nat, now: nat, timeout: nat) {
    (shard in s.leaders && Fresh(s.leaders[shard], now, timeout)) ||
    exists n :: n in FollowersOf(s, shard) && Fresh(n, now, timeout)
  }

  ghost predicate OnlyFresh(s: Shards, now: nat, timeout: nat) {
    && (forall k :: k in s.leaders ==> Fresh(s.leaders[k], now, timeout))
    && (forall k, n :: k in s.followers && n in s.followers[k] ==> Fresh(n, now, timeout))
  }

  lemma {:induction false} FreshOnesMembers(nodes: seq<NodeInfo>, now: nat, timeout: nat)
    ensures forall n :: n in FreshOnes(nodes, now, timeout) <==> n in nodes && Fresh(n, now, timeout)
  {
    if nodes != [] {
      FreshOnesMembers(nodes[..|nodes| - 1], now, timeout);
      assert nodes == nodes[..|nodes| - 1] + [nodes[|nodes| - 1]];
    }
  }

  lemma {:induction false} FreshOnesOfFresh(nodes: seq<NodeInfo>, now: nat, timeout: nat)
    requires forall n :: n in nodes ==> Fresh(n, now, timeout)
    ensures FreshOnes(nodes, now, timeout) == nodes
  {
    if nodes != [] {
      FreshOnesOfFresh(nodes[..|nodes| - 1], now, timeout);
      assert nodes == nodes[..|nodes| - 1] + [nodes[|nodes| - 1]];
    }
  }

  lemma ReapLeavesFresh(s: Shards, now: nat, timeout: nat)
    ensures OnlyFresh(Reaped(s, now, timeout), now, timeout)
    ensures forall k :: HasFresh(s, k, now, timeout) <==> HasFresh(Reaped(s, now, timeout), k, now, timeout)
  {
    hide Fresh, FreshOnes;
    forall k | k in s.followers
      ensures forall n :: n in FreshOnes(s.followers[k], now, timeout) <==>
                n in s.followers[k] && Fresh(n, now, timeout)
    {
      FreshOnesMembers(s.followers[k], now, timeout);
    }
  }

  lemma PromoteKeepsFresh(s: Shards, now: nat, timeout: nat)
    requires OnlyFresh(s, now, timeout)
    ensures OnlyFresh(Promoted(s), now, timeout)
  {
    var next := Promoted(s);
    forall k | k in next.leaders
      ensures Fresh(next.leaders[k], now, timeout)
    {
      if k !in s.leaders {
        var last := s.followers[k][|s.followers[k]| - 1];
        assert k in s.followers && last in s.followers[k];
        assert Fresh(last, now, timeout);
        assert next.leaders[k] == last.(role := Leader);
      }
    }
  }

  lemma PromoteLeads(s: Shards, k: nat)
    ensures k in Promoted(s).leaders <==> k in s.leaders || FollowersOf(s, k) != []
    ensures k in s.leaders ==> k in Promoted(s).leaders && Promoted(s).leaders[k] == s.leaders[k]
  {
  }

  lemma FreshIsMember(s: Shards, now: nat, timeout: nat, k: nat)
    requires OnlyFresh(s, now, timeout)
    ensures HasFresh(s, k, now, timeout) <==> k in s.leaders || FollowersOf(s, k) != []
  {
    hide Fresh;
    if FollowersOf(s, k) != [] {
      assert FollowersOf(s, k)[0] in FollowersOf(s, k);
    }
  }

  lemma PromoteLeadsFresh(s: Shards, now: nat, timeout: nat)
    requires OnlyFresh(s, now, timeout)
    ensures OnlyFresh(Promoted(s), now, timeout)
    ensures forall k :: k in Promoted(s).leaders <==> HasFresh(s, k, now, timeout)
    ensures forall k :: k in s.leaders ==> k in Promoted(s).leaders && Promoted(s).leaders[k] == s.leaders[k]
  {
    hide Fresh, OnlyFresh, HasFresh, Promoted, FollowersOf;
    PromoteKeepsFresh(s, now, timeout);
    forall k: nat
      ensures k in Promoted(s).leaders <==> HasFresh(s, k, now, timeout)
      ensures k in s.leaders ==> k in Promoted(s).leaders && Promoted(s).leaders[k] == s.leaders[k]
    {
      PromoteLeads(s, k);
      FreshIsMember(s, now, timeout, k);
    }
  }

  /**
   Failover: after reaping and promoting, a shard is led exactly when some member of it was
   fresh, fresh leaders stay, and only fresh entries remain.
   */
  lemma FailoverIsExact(s: Shards, now: nat, timeout: nat)
    ensures forall k :: k in FailedOver(s, now, timeout).leaders <==> HasFresh(s, k, now, timeout)
    ensures forall k :: k in s.leaders && Fresh(s.leaders[k], now, timeout) ==>
              k in FailedOver(s, now, timeout).leaders && FailedOver(s, now, timeout).leaders[k] == s.leaders[k]
    ensures OnlyFresh(FailedOver(s, now, timeout), now, timeout)
  {
    hide Fresh, HasFresh, Promoted, OnlyFresh, FreshOnes;
    ReapLeavesFresh(s, now, timeout);
    PromoteLeadsFresh(Reaped(s, now, timeout), now, timeout);
  }

  /** Running the failover again at the same time changes nothing. */
  lemma FailoverIsIdempotent(s: Shards, now: nat, timeout: nat)
    ensures FailedOver(FailedOver(s, now, timeout), now, timeout) == FailedOver(s, now, timeout)
  {
    hide Fresh;
    var once := FailedOver(s, now, timeout);
    FailoverIsExact(s, now, timeout);
    ReapOfFresh(once, now, timeout);
    NoneOrphaned(Reaped(s, now, timeout));
    PromoteOfLed(once);
  }

  lemma ReapOfFresh(s: Shards, now: nat, timeout: nat)
    requires OnlyFresh(s, now, timeout)
    ensures Reaped(s, now, timeout) == s
  {
    hide Fresh, FreshOnes;
    forall k | k in s.followers
      ensures FreshOnes(s.followers[k], now, timeout) == s.followers[k]
    {
      FreshOnesOfFresh(s.followers[k], now, timeout);
    }
    assert Reaped(s, now, timeout).followers == s.followers;
    assert Reaped(s, now, timeout).leaders == s.leaders;
  }

  lemma NoneOrphaned(s: Shards)
    ensures forall k :: !Orphaned(Promoted(s), k)
  {
  }

  lemma PromoteOfLed(s: Shards)
    requires forall k :: !Orphaned(s, k)
    ensures Promoted(s) == s
  {
    assert Promoted(s).leaders == s.leaders;
    assert Promoted(s).followers == s.followers;
  }

  // ---- the multiset of (shard, node) ----

  lemma IdsOfSnoc(front: seq<NodeInfo>, n: NodeInfo)
    ensures IdsOf(front + [n]) == IdsOf(front) + multiset{n.nodeId}
  {
    assert (front + [n])[..|front|] == front;
  }

  lemma {:induction false} IdsOfConcat(a: seq<NodeInfo>, b: seq<NodeInfo>)
    ensures IdsOf(a + b) == IdsOf(a) + IdsOf(b)
    decreases |b|
  {
    hide IdsOf;
    if b == [] {
      assert a + b == a;
      NoIds();
    } else {
      var front, last := b[..|b| - 1], b[|b| - 1];
      IdsOfConcat(a, front);
      IdsOfSnoc(front, last);
      IdsOfSnoc(a + front, last);
      assert b == front + [last] && a + b == (a + front) + [last];
    }
  }

  lemma NoIds()
    ensures IdsOf([]) == multiset{}
  {
  }

  lemma IdsOfOne(n: NodeInfo)
    ensures IdsOf([n]) == multiset{n.nodeId}
  {
    assert [n][..0] == [];
  }

  lemma IdsOfSplit(nodes: seq<NodeInfo>, i: nat)
    requires i < |nodes|
    ensures IdsOf(nodes) == IdsOf(RemoveAt(nodes, i)) + multiset{nodes[i].nodeId}
  {
    hide IdsOf;
    var left, right := nodes[..i], nodes[i + 1..];
    assert nodes == (left + [nodes[i]]) + right;
    IdsOfConcat(left + [nodes[i]], right);
    IdsOfSnoc(left, nodes[i]);
    IdsOfConcat(left, right);
  }

  lemma IdsOfUpdate(nodes: seq<NodeInfo>, i: nat, n: NodeInfo)
    requires i < |nodes| && n.nodeId == nodes[i].nodeId
    ensures IdsOf(nodes[i := n]) == IdsOf(nodes)
  {
    IdsOfSplit(nodes, i);
    IdsOfSplit(nodes[i := n], i);
    assert RemoveAt(nodes[i := n], i) == RemoveAt(nodes, i);
  }

  lemma PromotionKeepsMembers(s: Shards, shard: nat)
    ensures MembersOf(Promoted(s), shard) == MembersOf(s, shard)
  {
    if Orphaned(s, shard) {
      assert |s.followers[shard]| == 1 ==> s.followers[shard][..0] == [];
    }
  }

  lemma ElectionKeepsMembers(s: Shards, k: nat, i: nat, now: nat, shard: nat)
    requires k in s.followers && i < |s.followers[k]|
    ensures MembersOf(Elected(s, k, i, now), shard) == MembersOf(s, shard)
  {
    hide IdsOf;
    if shard == k {
      var nodes := s.followers[k];
      IdsOfSplit(nodes, i);
      if k in s.leaders {
        var demoted := s.leaders[k].(role := Follower);
        IdsOfConcat(RemoveAt(nodes, i), [demoted]);
        IdsOfOne(demoted);
      }
    }
  }

  /** Heartbeats, raft reports and promotion conserve every shard's members. */
  lemma HeartbeatKeepsMembers(s: Shards, nodeId: string, now: nat, next: Shards, role: Option<Role>, shard: nat)
    requires Heartbeat(s, nodeId, now, next, role)
    ensures MembersOf(next, shard) == MembersOf(s, shard)
  {
    hide IdsOf;
    if role == Some(Follower) {
      var k: nat, i: nat :| Follows(s, k, i, nodeId) && next == TouchedFollower(s, k, i, now);
      IdsOfUpdate(s.followers[k], i, s.followers[k][i].(lastSeen := now));
    }
  }

  lemma ReportKeepsMembers(s: Shards, nodeId: string, now: nat, next: Shards, changed: Option<nat>, shard: nat)
    requires Reported(s, nodeId, now, next, changed)
    ensures MembersOf(next, shard) == MembersOf(s, shard)
  {
    hide IdsOf, Elected;
    if changed.Some? {
      var i: nat :| Follows(s, changed.value, i, nodeId) && next == Elected(s, changed.value, i, now);
      ElectionKeepsMembers(s, changed.value, i, now, shard);
    }
  }

  /** After a report the reporter leads its shard, and every other shard is as it was. */
  lemma ReporterLeads(s: Shards, nodeId: string, now: nat, next: Shards, changed: Option<nat>)
    requires Reported(s, nodeId, now, next, changed)
    ensures (KnowsLeader(s, nodeId) || KnowsFollower(s, nodeId)) ==> KnowsLeader(next, nodeId)
    ensures forall k :: k in s.leaders && changed != Some(k) ==> k in next.leaders && next.leaders[k].nodeId == s.leaders[k].nodeId
  {
    if changed.Some? {
      assert next.leaders[changed.value].nodeId == nodeId;
    } else if KnowsLeader(s, nodeId) {
      var k :| Leads(s, k, nodeId) && next == TouchedLeader(s, k, now);
      assert next.leaders[k].nodeId == nodeId;
    }
  }

  // ---- all shards led ----

  lemma {:induction false} FullBelow(keys: set<nat>, n: nat)
    requires forall k :: k in keys ==> k < n
    ensures |keys| <= n
    ensures |keys| == n <==> forall k :: 0 <= k < n ==> k in keys
  {
    if n == 0 {
      assert keys == {};
    } else {
      var rest := keys - {n - 1};
      FullBelow(rest, n - 1);
      if n - 1 in keys {
        assert keys == rest + {n - 1};
      } else {
        assert keys == rest;
      }
    }
  }

  // ---- the shape is kept ----

  lemma {:induction false} UpsertRoles(nodes: seq<NodeInfo>, info: NodeInfo)
    requires info.role == Follower && forall i :: 0 <= i < |nodes| ==> nodes[i].role == Follower
    ensures forall i :: 0 <= i < |UpsertNode(nodes, info)| ==> UpsertNode(nodes, info)[i].role == Follower
  {
    if nodes != [] && nodes[0].nodeId != info.nodeId {
      UpsertRoles(nodes[1..], info);
    }
  }

  lemma RegisterKeepsShape(s: Shards, n: nat, req: Request, now: nat, liveness: nat)
    requires Shaped(s, n)
    ensures Shaped(Registered(s, n, req, now, liveness), n)
  {
    hide Fresh, UpsertNode;
    if Accepts(s, n, req, now, liveness) && req.role == Follower {
      UpsertRoles(FollowersOf(s, req.shardId), NodeInfo(req.nodeId, req.address, req.role, now));
    }
  }

  lemma HeartbeatKeepsShape(s: Shards, n: nat, nodeId: string, now: nat, next: Shards, role: Option<Role>)
    requires Shaped(s, n) && Heartbeat(s, nodeId, now, next, role)
    ensures Shaped(next, n)
  {
  }

  lemma ElectionKeepsShape(s: Shards, n: nat, shard: nat, i: nat, now: nat)
    requires Shaped(s, n) && shard in s.followers && i < |s.followers[shard]|
    ensures Shaped(Elected(s, shard, i, now), n)
  {
  }

  lemma ReapKeepsShape(s: Shards, n: nat, now: nat, timeout: nat)
    requires Shaped(s, n)
    ensures Shaped(Reaped(s, now, timeout), n)
  {
    hide Fresh, FreshOnes;
    var next := Reaped(s, now, timeout);
    forall k, i | k in next.followers && 0 <= i < |next.followers[k]|
      ensures next.followers[k][i].role == Follower
    {
      FreshOnesMembers(s.followers[k], now, timeout);
      assert next.followers[k][i] in next.followers[k];
    }
  }

  lemma PromoteKeepsShape(s: Shards, n: nat)
    requires Shaped(s, n)
    ensures Shaped(Promoted(s), n)
  {
  }

  // ---- promotion shard by shard ----

  lemma PromotedButLookup(s: Shards, todo: set<nat>, k: nat)
    requires k in todo && k in s.followers
    ensures k in PromotedBut(s, todo).followers && PromotedBut(s, todo).followers[k] == s.followers[k]
    ensures k in PromotedBut(s, todo).leaders <==> k in s.leaders
  {
  }

  lemma LeadersButStep(s: Shards, todo: set<nat>, k: nat)
    requires k in todo && k in s.followers
    ensures LeadersBut(s, todo - {k}) ==
            if Orphaned(s, k) then LeadersBut(s, todo)[k := s.followers[k][|s.followers[k]| - 1].(role := Leader)]
            else LeadersBut(s, todo)
  {
  }

  lemma FollowersButStep(s: Shards, todo: set<nat>, k: nat)
    requires k in todo && k in s.followers
    ensures FollowersBut(s, todo - {k}) ==
            if Orphaned(s, k) then
              if |s.followers[k]| == 1 then FollowersBut(s, todo) - {k}
              else FollowersBut(s, todo)[k := s.followers[k][..|s.followers[k]| - 1]]
            else FollowersBut(s, todo)
  {
  }

  lemma PromotedButStep(s: Shards, todo: set<nat>, k: nat)
    requires k in todo && k in s.followers
    ensures Orphaned(PromotedBut(s, todo), k) <==> Orphaned(s, k)
    ensures k in PromotedBut(s, todo).followers && PromotedBut(s, todo).followers[k] == s.followers[k]
    ensures k in PromotedBut(s, todo).leaders <==> k in s.leaders
    ensures PromotedBut(s, todo - {k}) ==
            if Orphaned(s, k) then PromotedIn(PromotedBut(s, todo), k) else PromotedBut(s, todo)
  {
    PromotedButLookup(s, todo, k);
    LeadersButStep(s, todo, k);
    FollowersButStep(s, todo, k);
    hide LeadersBut, FollowersBut;
  }

  lemma NoneYet(s: Shards)
    ensures PromotedBut(s, s.followers.Keys) == s
  {
    assert LeadersBut(s, s.followers.Keys) == s.leaders;
    assert FollowersBut(s, s.followers.Keys) == s.followers;
  }

  // ---- registration of a follower ----

  /** Updating the first entry of the node, or appending, is the upsert. */
  lemma {:induction false} UpsertAt(nodes: seq<NodeInfo>, info: NodeInfo, i: nat)
    requires i <= |nodes| && forall j :: 0 <= j < i ==> nodes[j].nodeId != info.nodeId
    requires i < |nodes| ==> nodes[i].nodeId == info.nodeId
    ensures UpsertNode(nodes, info) == if i < |nodes| then nodes[i := info] else nodes + [info]
  {
    if i > 0 {
      UpsertAt(nodes[1..], info, i - 1);
      assert nodes == [nodes[0]] + nodes[1..];
    }
  }

  lemma {:induction false} Locate(nodes: seq<NodeInfo>, nodeId: string) returns (i: nat)
    ensures i <= |nodes| && forall j :: 0 <= j < i ==> nodes[j].nodeId != nodeId
    ensures i < |nodes| ==> nodes[i].nodeId == nodeId
  {
    if nodes == [] {
      i := 0;
    } else {
      i := Locate(nodes[..|nodes| - 1], nodeId);
      if i == |nodes| - 1 && nodes[i].nodeId != nodeId {
        i := |nodes|;
      }
    }
  }

  /** A follower registering again keeps its one entry; a new one is added; no other shard changes. */
  lemma FollowerRegistersOnce(s: Shards, n: nat, req: Request, now: nat, liveness: nat, shard: nat)
    requires req.role == Follower && Accepts(s, n, req, now, liveness)
    ensures var known := exists x :: x in FollowersOf(s, req.shardId) && x.nodeId == req.nodeId;
            MembersOf(Registered(s, n, req, now, liveness), shard) ==
            MembersOf(s, shard) + if shard == req.shardId && !known then multiset{req.nodeId} else multiset{}
  {
    hide IdsOf, Fresh;
    var nodes, info := FollowersOf(s, req.shardId), NodeInfo(req.nodeId, req.address, req.role, now);
    var i := Locate(nodes, req.nodeId);
    UpsertAt(nodes, info, i);
    if i < |nodes| {
      assert nodes[i] in nodes;
      IdsOfUpdate(nodes, i, info);
    } else {
      IdsOfSnoc(nodes, info);
    }
  }

  /** No registration displaces a live leader. */
  lemma LiveLeaderStays(s: Shards, n: nat, req: Request, now: nat, liveness: nat, shard: nat)
    requires shard in s.leaders && Fresh(s.leaders[shard], now, liveness)
    ensures var t := Registered(s, n, req, now, liveness);
            shard in t.leaders && t.leaders[shard].nodeId == s.leaders[shard].nodeId
  {
    hide Fresh, UpsertNode;
  }
}
