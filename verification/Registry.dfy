/** The coordinator's registry: the shard map, the placement table and the drain set. */
module Registries {
  import opened Prelude
  import opened RegistrySpec

  datatype Refusal = NotEnabled | VshardOutOfRange | GroupOutOfRange

  /** Round-robin placement of v virtual shards over n groups. */
  function RoundRobin(v: nat, n: nat): seq<nat>
    requires v == 0 || n > 0
  {
    seq(v, i requires 0 <= i < v => i % n)
  }

  /** Every entry of the table names a group. */
  predicate InRange(vshards: seq<nat>, n: nat) {
    forall i :: 0 <= i < |vshards| ==> vshards[i] < n
  }

  /** What a reassignment is refused for, in the order the checks are made. */
  function RefusalOf(vshards: seq<nat>, n: nat, vshard: nat, group: nat): Option<Refusal> {
    if vshards == [] then Some(NotEnabled)
    else if vshard >= |vshards| then Some(VshardOutOfRange)
    else if group >= n then Some(GroupOutOfRange)
    else None
  }

  /** The first entry is group zero, each next one the next group, round again after the last. */
  lemma RoundRobinGoesRound(v: nat, n: nat, i: nat)
    requires n > 0 && i < v
    ensures |RoundRobin(v, n)| == v
    ensures var table := RoundRobin(v, n);
            if i == 0 then table[i] == 0
            else table[i] == if table[i - 1] == n - 1 then 0 else table[i - 1] + 1
  {
    NextRemainder(i, n);
  }

  lemma NextRemainder(i: nat, n: nat)
    requires n > 0
    ensures i > 0 ==> i % n == if (i - 1) % n == n - 1 then 0 else (i - 1) % n + 1
    ensures i == 0 ==> i % n == 0
  {
    if i > 0 {
      var q, r := (i - 1) / n, (i - 1) % n;
      assert i - 1 == q * n + r;
      if r == n - 1 {
        assert i == (q + 1) * n;
        Remainder(i, n, q + 1, 0);
      } else {
        Remainder(i, n, q, r + 1);
      }
    }
  }

  lemma Remainder(i: nat, n: nat, q: nat, r: nat)
    requires r < n && i == q * n + r
    ensures i % n == r
  {
    var p, s := i / n, i % n;
    Division(i, n, p, s);
    Multiple(p - q, n, p * n, q * n);
  }

  lemma Division(i: nat, n: nat, p: int, s: int)
    requires n > 0 && p == i / n && s == i % n
    ensures i == p * n + s && 0 <= s < n
  {
  }

  /** Two multiples of n less than n apart are one. */
  lemma Multiple(d: int, n: nat, more: int, less: int)
    requires d * n == more - less
    ensures more < less + n && less < more + n ==> more == less
  {
    if d > 0 {
      assert d * n >= n;
    } else if d < 0 {
      assert d * n + n <= 0;
    }
  }

  /** A reassignment is accepted exactly when it names an entry of the table and keeps the table
      in range; the errors tell an empty table, a bad virtual shard and a bad group apart. */
  lemma RefusalIsExact(vshards: seq<nat>, n: nat, vshard: nat, group: nat)
    requires InRange(vshards, n)
    ensures var refusal := RefusalOf(vshards, n, vshard, group);
            && (refusal.None? <==> vshard < |vshards| && InRange(vshards[vshard := group], n))
            && (refusal == Some(NotEnabled) <==> vshards == [])
            && (refusal == Some(VshardOutOfRange) <==> vshards != [] && |vshards| <= vshard)
            && (refusal == Some(GroupOutOfRange) <==> vshard < |vshards| && !InRange(vshards[vshard := group], n))
  {
    if vshard < |vshards| {
      assert vshards[vshard := group][vshard] == group;
    }
  }

  class Registry {
    const shardCount: u32
    var livenessTimeout: nat
    var leaders: map<nat, NodeInfo>
    var followers: map<nat, seq<NodeInfo>>
    var draining: set<string>
    var vshards: seq<nat>
    var placementVersion: nat
    var authorityReplicated: bool

    ghost predicate Valid()
      reads this
    {
      Shaped(View(), shardCount)
    }

    /** The derived view of the cluster. */
    function View(): Shards
      reads this
    {
      Shards(leaders, followers)
    }

    /** The operator's intent. */
    function Intent(): Authority
      reads this
    {
      Authority(vshards, draining)
    }

    constructor (n: u32, livenessTimeout: nat, replicated: bool)
      ensures shardCount == n && this.livenessTimeout == livenessTimeout && authorityReplicated == replicated
      ensures Valid() && View() == Shards(map[], map[]) && Intent() == Authority([], {}) && placementVersion == 0
    {
      shardCount, this.livenessTimeout, authorityReplicated := n, livenessTimeout, replicated;
      leaders, followers, draining, vshards, placementVersion := map[], map[], {}, [], 0;
    }

    /** The source divides by N here: with no shards it can enable no virtual shards. */
    method WithVshards(v: u32)
      requires v == 0 || shardCount > 0
      modifies `vshards
      ensures vshards == RoundRobin(v, shardCount) && InRange(vshards, shardCount) && |vshards| == v
    {
      vshards := RoundRobin(v, shardCount);
    }

    method ReassignVshard(vshard: nat, group: nat) returns (refusal: Option<Refusal>)
      modifies `vshards, `placementVersion
      ensures refusal == RefusalOf(old(vshards), shardCount, vshard, group)
      ensures Intent() == Reassigned(old(Intent()), shardCount, vshard, group)
      ensures placementVersion == old(placementVersion) + if refusal.None? then 1 else 0
    {
      if vshards == [] {
        return Some(NotEnabled);
      }
      if vshard >= |vshards| {
        return Some(VshardOutOfRange);
      }
      if group >= shardCount {
        return Some(GroupOutOfRange);
      }
      vshards := vshards[vshard := group];
      placementVersion := placementVersion + 1;
      refusal := None;
    }

    method ApplyDrainMarker(nodeId: string)
      modifies `draining
      ensures Intent() == Drained(old(Intent()), nodeId)
    {
      draining := draining + {nodeId};
    }

    method SetAuthority(table: seq<nat>, drains: seq<string>)
      modifies `vshards, `draining, `placementVersion
      ensures Intent() == Authority(table, set d | d in drains) && placementVersion == old(placementVersion) + 1
    {
      vshards := table;
      draining := set d | d in drains;
      placementVersion := placementVersion + 1;
    }

    /** Local marking: only of a node this view knows. */
    method MarkDraining(nodeId: string) returns (known: bool)
      modifies `draining
      ensures known == (KnowsLeader(View(), nodeId) || KnowsFollower(View(), nodeId))
      ensures Intent() == if known then Drained(old(Intent()), nodeId) else old(Intent())
    {
      known := (exists k :: k in leaders && leaders[k].nodeId == nodeId) ||
               (exists k :: k in followers && exists n :: n in followers[k] && n.nodeId == nodeId);
      if known {
        draining := draining + {nodeId};
      }
    }

    method RegisterAt(req: Request, now: nat) returns (accepted: bool)
      requires Valid()
      modifies `leaders, `followers
      ensures Valid()
      ensures accepted == Accepts(old(View()), shardCount, req, now, livenessTimeout)
      ensures View() == Registered(old(View()), shardCount, req, now, livenessTimeout)
    {
      hide Shaped, UpsertNode;
      RegisterKeepsShape(View(), shardCount, req, now, livenessTimeout);
      if req.shardId >= shardCount {
        return false;
      }
      if req.role == Leader && req.shardId in leaders {
        var current := leaders[req.shardId];
        if Since(now, current.lastSeen) <= livenessTimeout && current.nodeId != req.nodeId {
          return false;
        }
      }
      var info := NodeInfo(req.nodeId, req.address, req.role, now);
      match req.role {
        case Leader =>
          leaders := leaders[req.shardId := info];
        case Follower =>
          var nodes := if req.shardId in followers then followers[req.shardId] else [];
          var updated := UpsertFollower(nodes, info);
          followers := followers[req.shardId := updated];
        case Unspecified =>
          return false;
      }
      accepted := true;
    }

    /** True exactly when every shard of 0..N is led. */
    method AllShardsHaveLeader() returns (all: bool)
      requires Valid()
      ensures all <==> forall k :: 0 <= k < shardCount ==> k in leaders
    {
      FullBelow(leaders.Keys, shardCount);
      assert |leaders.Keys| == |leaders|;
      all := |leaders| % U32_LIMIT == shardCount;
    }

    /** Refresh one entry of the node: a leader entry if it has one, else a follower entry. */
    method Heartbeat(nodeId: string, now: nat) returns (role: Option<Role>)
      requires Valid()
      modifies `leaders, `followers
      ensures Valid()
      ensures RegistrySpec.Heartbeat(old(View()), nodeId, now, View(), role)
    {
      hide Shaped;
      ghost var s := View();
      var todo := leaders.Keys;
      while todo != {}
        invariant todo <= leaders.Keys && forall k :: k in leaders && leaders[k].nodeId == nodeId ==> k in todo
        invariant View() == s
        decreases |todo|
      {
        var k :| k in todo;
        if leaders[k].nodeId == nodeId {
          leaders := leaders[k := leaders[k].(lastSeen := now)];
          assert Leads(s, k, nodeId) && View() == TouchedLeader(s, k, now);
          HeartbeatKeepsShape(s, shardCount, nodeId, now, View(), Some(Leader));
          return Some(Leader);
        }
        todo := todo - {k};
      }
      todo := followers.Keys;
      while todo != {}
        invariant todo <= followers.Keys && View() == s
        invariant forall k :: k in followers && k !in todo ==> forall n :: n in followers[k] ==> n.nodeId != nodeId
        decreases |todo|
      {
        var k :| k in todo;
        var i := Position(followers[k], nodeId);
        if i < |followers[k]| {
          followers := followers[k := followers[k][i := followers[k][i].(lastSeen := now)]];
          assert Follows(s, k, i, nodeId) && View() == TouchedFollower(s, k, i, now);
          HeartbeatKeepsShape(s, shardCount, nodeId, now, View(), Some(Follower));
          return Some(Follower);
        }
        todo := todo - {k};
      }
      role := None;
    }

    /** Remove every stale entry; drain markers follow only when this coordinator owns them. */
    method ReapDead(now: nat, timeout: nat) returns (removed: seq<NodeInfo>)
      requires Valid()
      modifies `leaders, `followers, `draining
      ensures Valid()
      ensures View() == Reaped(old(View()), now, timeout)
      ensures forall n :: n in removed <==> Stale(old(View()), now, timeout, n)
      ensures vshards == old(vshards)
      ensures authorityReplicated ==> draining == old(draining)
      ensures !authorityReplicated ==>
                forall id :: id in draining <==> id in old(draining) && forall n :: n in removed ==> n.nodeId != id
    {
      hide Shaped, Fresh;
      ghost var s := View();
      ReapKeepsShape(s, shardCount, now, timeout);
      removed := ReapLeaders(now, timeout);
      var stale := ReapFollowers(now, timeout);
      removed := removed + stale;
      assert View() == Reaped(s, now, timeout);
      if !authorityReplicated {
        for i := 0 to |removed|
          invariant View() == Reaped(s, now, timeout)
          invariant forall id :: id in draining <==> id in old(draining) && forall n :: n in removed[..i] ==> n.nodeId != id
        {
          assert removed[..i + 1] == removed[..i] + [removed[i]];
          draining := draining - {removed[i].nodeId};
        }
        assert removed[..|removed|] == removed;
      }
    }

    method ReapLeaders(now: nat, timeout: nat) returns (removed: seq<NodeInfo>)
      modifies `leaders
      ensures leaders == Reaped(old(View()), now, timeout).leaders
      ensures forall n :: n in removed <==> exists k :: k in old(leaders) && old(leaders)[k] == n && !Fresh(n, now, timeout)
    {
      hide Fresh, FreshOnes;
      var dead := set k | k in leaders && !Fresh(leaders[k], now, timeout);
      removed := [];
      var todo := dead;
      ghost var was := leaders;
      while todo != {}
        invariant todo <= dead
        invariant leaders == was - (dead - todo)
        invariant forall n :: n in removed <==> exists k :: k in dead && k !in todo && was[k] == n
        decreases |todo|
      {
        var k :| k in todo;
        removed := removed + [leaders[k]];
        leaders := leaders - {k};
        todo := todo - {k};
      }
      assert was - dead == Reaped(old(View()), now, timeout).leaders;
    }

    method ReapFollowers(now: nat, timeout: nat) returns (removed: seq<NodeInfo>)
      modifies `followers
      ensures followers == Reaped(old(View()), now, timeout).followers
      ensures forall n :: n in removed <==> exists k :: k in old(followers) && n in old(followers)[k] && !Fresh(n, now, timeout)
    {
      hide Fresh, FreshOnes;
      removed := [];
      var todo := followers.Keys;
      ghost var was := followers;
      while todo != {}
        invariant todo <= was.Keys && followers.Keys == was.Keys
        invariant forall k :: k in followers ==>
                    followers[k] == if k in todo then was[k] else FreshOnes(was[k], now, timeout)
        invariant forall n :: n in removed <==>
                    exists k :: k in was && k !in todo && n in was[k] && !Fresh(n, now, timeout)
        decreases |todo|
      {
        var k :| k in todo;
        var kept, stale := Sweep(followers[k], now, timeout);
        followers := followers[k := kept];
        removed := removed + stale;
        todo := todo - {k};
      }
    }

    /** Fail over: every leaderless shard with followers promotes its last one. */
    method PromoteOrphanedShards() returns (promotions: seq<(nat, string)>)
      requires Valid()
      modifies `leaders, `followers
      ensures Valid()
      ensures View() == Promoted(old(View()))
      ensures forall p :: p in promotions <==>
                Orphaned(old(View()), p.0) && old(followers)[p.0][|old(followers)[p.0]| - 1].nodeId == p.1
      ensures forall i, j :: 0 <= i < j < |promotions| ==> promotions[i].0 != promotions[j].0
    {
      hide Shaped, PromotedBut;
      ghost var s := View();
      PromoteKeepsShape(s, shardCount);
      NoneYet(s);
      promotions := [];
      var todo := followers.Keys;
      while todo != {}
        invariant todo <= s.followers.Keys
        invariant View() == PromotedBut(s, todo)
        invariant forall p :: p in promotions <==>
                    p.0 !in todo && Orphaned(s, p.0) && s.followers[p.0][|s.followers[p.0]| - 1].nodeId == p.1
        invariant forall i, j :: 0 <= i < j < |promotions| ==> promotions[i].0 != promotions[j].0
        decreases |todo|
      {
        var k :| k in todo;
        PromotedButStep(s, todo, k);
        todo := todo - {k};
        if k !in leaders {
          var nodes := followers[k];
          if nodes != [] {
            var node := nodes[|nodes| - 1].(role := Leader);
            followers := followers[k := nodes[..|nodes| - 1]];
            leaders := leaders[k := node];
            assert forall i :: 0 <= i < |promotions| ==> promotions[i] in promotions;
            promotions := promotions + [(k, node.nodeId)];
            if followers[k] == [] {
              followers := followers - {k};
            }
          }
        }
      }
    }

    /** A node reports that raft elected it: it becomes its shard's routed leader. */
    method ReportRaftLeader(nodeId: string, now: nat) returns (changed: Option<nat>)
      requires Valid()
      modifies `leaders, `followers
      ensures Valid()
      ensures Reported(old(View()), nodeId, now, View(), changed)
    {
      hide Shaped;
      ghost var s := View();
      var todo := leaders.Keys;
      while todo != {}
        invariant todo <= leaders.Keys && forall k :: k in leaders && leaders[k].nodeId == nodeId ==> k in todo
        invariant View() == s
        decreases |todo|
      {
        var k :| k in todo;
        if leaders[k].nodeId == nodeId {
          leaders := leaders[k := leaders[k].(lastSeen := now)];
          assert Leads(s, k, nodeId) && View() == TouchedLeader(s, k, now);
          HeartbeatKeepsShape(s, shardCount, nodeId, now, View(), Some(Leader));
          return None;
        }
        todo := todo - {k};
      }
      todo := followers.Keys;
      while todo != {}
        invariant todo <= followers.Keys && View() == s
        invariant forall k :: k in followers && k !in todo ==> forall n :: n in followers[k] ==> n.nodeId != nodeId
        decreases |todo|
      {
        var shard :| shard in todo;
        var i := Position(followers[shard], nodeId);
        if i < |followers[shard]| {
          Elect(shard, i, now);
          ElectionKeepsShape(s, shardCount, shard, i, now);
          assert Follows(s, shard, i, nodeId);
          return Some(shard);
        }
        todo := todo - {shard};
      }
      changed := None;
    }

    method Elect(shard: nat, i: nat, now: nat)
      requires shard in followers && i < |followers[shard]|
      modifies `leaders, `followers
      ensures View() == Elected(old(View()), shard, i, now)
    {
      var promoted := followers[shard][i].(role := Leader, lastSeen := now);
      followers := followers[shard := RemoveAt(followers[shard], i)];
      if shard in leaders {
        var demoted := leaders[shard].(role := Follower);
        followers := followers[shard := followers[shard] + [demoted]];
      }
      leaders := leaders[shard := promoted];
    }
  }

  method UpsertFollower(nodes: seq<NodeInfo>, info: NodeInfo) returns (out: seq<NodeInfo>)
    ensures out == UpsertNode(nodes, info)
  {
    var i := Position(nodes, info.nodeId);
    UpsertAt(nodes, info, i);
    out := if i < |nodes| then nodes[i := info] else nodes + [info];
  }

  /** The first entry of the node, or the length. */
  method Position(nodes: seq<NodeInfo>, nodeId: string) returns (i: nat)
    ensures i <= |nodes| && forall j :: 0 <= j < i ==> nodes[j].nodeId != nodeId
    ensures i < |nodes| ==> nodes[i].nodeId == nodeId
  {
    i := 0;
    while i < |nodes| && nodes[i].nodeId != nodeId
      invariant i <= |nodes| && forall j :: 0 <= j < i ==> nodes[j].nodeId != nodeId
    {
      i := i + 1;
    }
  }

  /** Remove stale entries by index, keeping the order of the rest. */
  method Sweep(nodes: seq<NodeInfo>, now: nat, timeout: nat) returns (kept: seq<NodeInfo>, removed: seq<NodeInfo>)
    ensures kept == FreshOnes(nodes, now, timeout)
    ensures forall n :: n in removed <==> n in nodes && !Fresh(n, now, timeout)
  {
    hide Fresh;
    kept, removed := nodes, [];
    var i := 0;
    ghost var done := 0;
    while i < |kept|
      invariant 0 <= i <= |kept| && 0 <= done <= |nodes|
      invariant kept[..i] == FreshOnes(nodes[..done], now, timeout) && kept[i..] == nodes[done..]
      invariant forall n :: n in removed <==> n in nodes[..done] && !Fresh(n, now, timeout)
      decreases |kept| - i
    {
      assert nodes[..done + 1] == nodes[..done] + [nodes[done]] && nodes[..done + 1][..done] == nodes[..done];
      assert kept[i] == kept[i..][0] == nodes[done];
      if !Fresh(kept[i], now, timeout) {
        removed := removed + [kept[i]];
        kept := RemoveAt(kept, i);
      } else {
        i := i + 1;
      }
      done := done + 1;
    }
    assert nodes[..done] == nodes && kept[..i] == kept;
  }
}
