/**
 The coordinators' replicated control state: committed reassignments and drains applied to the
 same registry that heartbeats and reaping rewrite locally.
 */
module ControlState {
  import opened Prelude
  import opened RaftTypes
  import opened RegistrySpec
  import opened Registries
  import R = Replication
  import Ranking
  import Placement

  type Bytes = seq<byte>

  datatype Command =
    | ReassignVshard(vshard: nat, group: nat)
    | DrainNode(nodeId: string)

  datatype ControlCodec = ControlCodec(
    decodeCommand: Bytes -> Option<Command>,
    encodeAuthority: (seq<nat>, seq<string>) -> Bytes,
    decodeAuthority: Bytes -> Option<(seq<nat>, seq<string>)>)
  {
    ghost predicate Valid() {
      forall table, drains :: decodeAuthority(encodeAuthority(table, drains)) == Some((table, drains))
    }

    /** An undecodable snapshot is the empty authority. */
    function AuthorityIn(data: Bytes): (seq<nat>, seq<string>) {
      match decodeAuthority(data)
      case Some(pair) => pair
      case None => ([], [])
    }
  }

  // ---- the drain set in a deterministic order ----

  ghost predicate Sorted(xs: seq<string>) {
    forall i, j :: 0 <= i < j < |xs| ==> Ranking.StrLt(xs[i], xs[j])
  }

  function SetOf(xs: seq<string>): set<string> {
    set x | x in xs
  }

  function PlaceString(x: string, xs: seq<string>): seq<string> {
    if xs == [] || Ranking.StrLt(x, xs[0]) then [x] + xs else [xs[0]] + PlaceString(x, xs[1..])
  }

  lemma {:induction false} PlaceStringSorts(x: string, xs: seq<string>)
    requires Sorted(xs) && x !in xs
    ensures Sorted(PlaceString(x, xs)) && SetOf(PlaceString(x, xs)) == SetOf(xs) + {x}
    ensures PlaceString(x, xs)[0] == x || (xs != [] && PlaceString(x, xs)[0] == xs[0])
  {
    hide Ranking.StrLt, Sorted, SetOf;
    if xs == [] || Ranking.StrLt(x, xs[0]) {
      SortedCons(x, xs);
    } else {
      assert xs[0] in xs;
      Ranking.StrLtTotal(x, xs[0]);
      SortedTail(xs);
      PlaceStringSorts(x, xs[1..]);
      SortedCons(xs[0], PlaceString(x, xs[1..]));
      assert xs == [xs[0]] + xs[1..];
    }
  }

  lemma SortedTail(xs: seq<string>)
    requires Sorted(xs) && xs != []
    ensures Sorted(xs[1..]) && SetOf(xs) == {xs[0]} + SetOf(xs[1..])
    ensures |xs| > 1 ==> Ranking.StrLt(xs[0], xs[1..][0])
    ensures forall x :: x in xs[1..] ==> x in xs
  {
    hide Ranking.StrLt;
    assert xs == [xs[0]] + xs[1..];
  }

  lemma SortedCons(x: string, xs: seq<string>)
    requires Sorted(xs) && (xs != [] ==> Ranking.StrLt(x, xs[0]))
    ensures Sorted([x] + xs) && SetOf([x] + xs) == {x} + SetOf(xs)
  {
    hide Ranking.StrLt;
    var out := [x] + xs;
    forall i, j | 0 <= i < j < |out|
      ensures Ranking.StrLt(out[i], out[j])
    {
      if i == 0 && j > 1 {
        Ranking.StrLtTransitive(x, xs[0], xs[j - 1]);
      } else if i > 0 {
        assert out[i] == xs[i - 1] && out[j] == xs[j - 1];
      }
    }
  }

  method SortedList(s: set<string>) returns (xs: seq<string>)
    ensures Sorted(xs) && SetOf(xs) == s
  {
    hide PlaceString, Ranking.StrLt;
    xs := [];
    var todo := s;
    while todo != {}
      invariant todo <= s && Sorted(xs) && SetOf(xs) == s - todo
      decreases |todo|
    {
      var x :| x in todo;
      assert x in xs ==> x in SetOf(xs);
      PlaceStringSorts(x, xs);
      xs := PlaceString(x, xs);
      todo := todo - {x};
    }
  }

  /** Equal drain sets list alike, so equal authority gives equal snapshot bytes. */
  lemma {:induction false} SortedIsUnique(xs: seq<string>, ys: seq<string>)
    requires Sorted(xs) && Sorted(ys) && SetOf(xs) == SetOf(ys)
    ensures xs == ys
    decreases |xs|
  {
    hide Ranking.StrLt;
    if ys != [] {
      assert ys[0] in SetOf(ys);
    }
    if xs != [] {
      assert xs[0] in SetOf(xs);
      SortedHeads(xs, ys);
      assert Sorted(xs[1..]) && Sorted(ys[1..]);
      TailSet(xs);
      TailSet(ys);
      SortedIsUnique(xs[1..], ys[1..]);
      assert xs == [xs[0]] + xs[1..] && ys == [ys[0]] + ys[1..];
    }
  }

  lemma SortedHeads(xs: seq<string>, ys: seq<string>)
    requires Sorted(xs) && Sorted(ys) && SetOf(xs) == SetOf(ys) && xs != []
    ensures ys != [] && xs[0] == ys[0]
  {
    hide Ranking.StrLt;
    assert xs[0] in SetOf(ys);
    var i :| 0 <= i < |ys| && ys[i] == xs[0];
    assert ys[0] in SetOf(xs);
    var j :| 0 <= j < |xs| && xs[j] == ys[0];
    Ranking.StrLtAntisymmetric(xs[0], ys[0]);
  }

  lemma TailSet(xs: seq<string>)
    requires Sorted(xs) && xs != []
    ensures SetOf(xs[1..]) == SetOf(xs) - {xs[0]}
  {
    hide Ranking.StrLt;
    assert xs == [xs[0]] + xs[1..];
    Ranking.StrLtAntisymmetric(xs[0], xs[0]);
    assert xs[0] !in xs[1..];
  }

  // ---- the application ----

  /** Committed intent, applied from replicated state and the static N alone. */
  function Committed(codec: ControlCodec, n: nat, a: Authority, payload: Bytes): Authority {
    match codec.decodeCommand(payload)
    case Some(ReassignVshard(vshard, group)) => Reassigned(a, n, vshard, group)
    case Some(DrainNode(nodeId)) => Drained(a, nodeId)
    case None => a
  }

  function Restored(codec: ControlCodec, data: Bytes): Authority {
    var pair := codec.AuthorityIn(data);
    Authority(pair.0, SetOf(pair.1))
  }

  ghost predicate DumpOf(codec: ControlCodec, a: Authority, data: Bytes) {
    exists drains :: Sorted(drains) && SetOf(drains) == a.draining && data == codec.encodeAuthority(a.vshards, drains)
  }

  ghost function ControlModel(codec: ControlCodec, n: nat, init: Authority): R.App<Authority> {
    R.App(init,
          (a: Authority, payload: Bytes) => Committed(codec, n, a, payload),
          (data: Bytes) => Restored(codec, data),
          (a: Authority, data: Bytes) => DumpOf(codec, a, data))
  }

  lemma ControlModelIsValid(codec: ControlCodec, n: nat, init: Authority)
    requires codec.Valid()
    ensures ControlModel(codec, n, init).Valid()
  {
    hide Sorted, SetOf;
  }

  class ControlApp {
    const codec: ControlCodec
    const registry: Registry

    constructor (codec: ControlCodec, registry: Registry)
      ensures this.codec == codec && this.registry == registry
    {
      this.codec, this.registry := codec, registry;
    }

    method Apply(payload: Bytes) returns (count: nat)
      modifies registry`vshards, registry`draining, registry`placementVersion
      ensures registry.Intent() == Committed(codec, registry.shardCount, old(registry.Intent()), payload)
      ensures count == if codec.decodeCommand(payload).Some? then 1 else 0
    {
      match codec.decodeCommand(payload) {
        case Some(ReassignVshard(vshard, group)) =>
          var _ := registry.ReassignVshard(vshard, group);
          count := 1;
        case Some(DrainNode(nodeId)) =>
          registry.ApplyDrainMarker(nodeId);
          count := 1;
        case None =>
          count := 0;
      }
    }

    method SnapshotBytes() returns (data: Bytes)
      ensures DumpOf(codec, registry.Intent(), data)
    {
      var drains := SortedList(registry.draining);
      data := codec.encodeAuthority(registry.vshards, drains);
    }

    method Restore(data: Bytes) returns (count: nat)
      modifies registry`vshards, registry`draining, registry`placementVersion
      ensures registry.Intent() == Restored(codec, data)
    {
      var pair := codec.AuthorityIn(data);
      count := (|pair.0| + |pair.1|) % U32_LIMIT;
      registry.SetAuthority(pair.0, pair.1);
    }
  }

  // ---- non-interference ----

  /** One coordinator: its local view beside the replicated intent. */
  datatype Coordinator = Coordinator(shards: Shards, intent: Authority)

  datatype Op =
    | Register(req: Request, now: nat)
    | Beat(nodeId: string, now: nat)
    | Reap(now: nat, timeout: nat)
    | Promote
    | Report(nodeId: string, now: nat)
    | Commit(payload: Bytes)
    | Install(data: Bytes)

  /** The effect of one operation, as the registry's methods state it. */
  ghost predicate OpStep(codec: ControlCodec, n: nat, liveness: nat, replicated: bool, c: Coordinator, op: Op, next: Coordinator) {
    match op
    case Register(req, now) => next == c.(shards := Registered(c.shards, n, req, now, liveness))
    case Beat(nodeId, now) =>
      next.intent == c.intent && exists role :: Heartbeat(c.shards, nodeId, now, next.shards, role)
    case Reap(now, timeout) =>
      && next.shards == Reaped(c.shards, now, timeout)
      && next.intent.vshards == c.intent.vshards
      && forall id :: id in next.intent.draining <==>
           id in c.intent.draining && (replicated || forall x :: Stale(c.shards, now, timeout, x) ==> x.nodeId != id)
    case Promote => next == c.(shards := Promoted(c.shards))
    case Report(nodeId, now) =>
      next.intent == c.intent && exists changed :: Reported(c.shards, nodeId, now, next.shards, changed)
    case Commit(payload) => next == c.(intent := Committed(codec, n, c.intent, payload))
    case Install(data) => next == c.(intent := Restored(codec, data))
  }

  ghost predicate OpRun(codec: ControlCodec, n: nat, liveness: nat, replicated: bool, states: seq<Coordinator>, ops: seq<Op>) {
    && |states| == |ops| + 1
    && forall k :: 0 <= k < |ops| ==> OpStep(codec, n, liveness, replicated, states[k], ops[k], states[k + 1])
  }

  /** The operations consensus delivers, in order. */
  function Delivered(ops: seq<Op>): seq<Op> {
    if ops == [] then []
    else
      var front, last := Delivered(ops[..|ops| - 1]), ops[|ops| - 1];
      if last.Commit? || last.Install? then front + [last] else front
  }

  function IntentAfter(codec: ControlCodec, n: nat, a: Authority, ops: seq<Op>): Authority {
    if ops == [] then a else IntentStep(codec, n, IntentAfter(codec, n, a, ops[..|ops| - 1]), ops[|ops| - 1])
  }

  /** What one operation does to the intent. */
  function IntentStep(codec: ControlCodec, n: nat, a: Authority, op: Op): Authority {
    match op
    case Commit(payload) => Committed(codec, n, a, payload)
    case Install(data) => Restored(codec, data)
    case _ => a
  }

  lemma OpStepIsIntentStep(codec: ControlCodec, n: nat, liveness: nat, c: Coordinator, op: Op, next: Coordinator)
    requires OpStep(codec, n, liveness, true, c, op, next)
    ensures next.intent == IntentStep(codec, n, c.intent, op)
  {
    hide Committed, Restored, Registered, Reaped, Promoted, Stale, Heartbeat, Reported;
    if op.Reap? {
      assert next.intent.draining == c.intent.draining;
    }
  }

  /** With replicated authority the intent is what consensus delivered, whatever happened locally. */
  lemma {:induction false} LocalOpsDoNotInterfere(codec: ControlCodec, n: nat, liveness: nat, states: seq<Coordinator>, ops: seq<Op>)
    requires OpRun(codec, n, liveness, true, states, ops)
    ensures states[|ops|].intent == IntentAfter(codec, n, states[0].intent, Delivered(ops))
    decreases |ops|
  {
    hide OpStep, IntentStep;
    if ops != [] {
      var last := |ops| - 1;
      assert OpRun(codec, n, liveness, true, states[..|ops|], ops[..last]);
      LocalOpsDoNotInterfere(codec, n, liveness, states[..|ops|], ops[..last]);
      OpStepIsIntentStep(codec, n, liveness, states[last], ops[last], states[|ops|]);
      DeliveredSnoc(codec, n, states[0].intent, ops);
    }
  }

  lemma DeliveredSnoc(codec: ControlCodec, n: nat, a: Authority, ops: seq<Op>)
    requires ops != []
    ensures IntentAfter(codec, n, a, Delivered(ops)) ==
            IntentStep(codec, n, IntentAfter(codec, n, a, Delivered(ops[..|ops| - 1])), ops[|ops| - 1])
  {
    hide Committed, Restored;
    var before, all := Delivered(ops[..|ops| - 1]), Delivered(ops);
    assert ops[|ops| - 1].Commit? || ops[|ops| - 1].Install? ==> all[..|all| - 1] == before;
  }

  // ---- a registry driven through a run ----

  /** One operation on the registry and its control application. */
  method Perform(app: ControlApp, op: Op)
    requires app.registry.Valid()
    modifies app.registry`leaders, app.registry`followers, app.registry`draining, app.registry`vshards,
             app.registry`placementVersion
    ensures app.registry.Valid()
    ensures OpStep(app.codec, app.registry.shardCount, app.registry.livenessTimeout, app.registry.authorityReplicated,
                   old(Coordinator(app.registry.View(), app.registry.Intent())), op,
                   Coordinator(app.registry.View(), app.registry.Intent()))
  {
    hide Registered, Reaped, Promoted, Committed, Restored, Shaped;
    var registry := app.registry;
    match op {
      case Register(req, now) => var _ := registry.RegisterAt(req, now);
      case Beat(nodeId, now) => var _ := registry.Heartbeat(nodeId, now);
      case Reap(now, timeout) => var _ := registry.ReapDead(now, timeout);
      case Promote => var _ := registry.PromoteOrphanedShards();
      case Report(nodeId, now) => var _ := registry.ReportRaftLeader(nodeId, now);
      case Commit(payload) => var _ := app.Apply(payload);
      case Install(data) => var _ := app.Restore(data);
    }
  }

  /** A whole run on one registry, and the states it passed through: with replicated authority
      it ends with the intent that consensus delivered. */
  method RunCoordinator(app: ControlApp, ops: seq<Op>) returns (ghost states: seq<Coordinator>)
    requires app.registry.Valid()
    modifies app.registry`leaders, app.registry`followers, app.registry`draining, app.registry`vshards,
             app.registry`placementVersion
    ensures app.registry.Valid()
    ensures OpRun(app.codec, app.registry.shardCount, app.registry.livenessTimeout, app.registry.authorityReplicated, states, ops)
    ensures states[0] == old(Coordinator(app.registry.View(), app.registry.Intent()))
    ensures states[|ops|] == Coordinator(app.registry.View(), app.registry.Intent())
    ensures app.registry.authorityReplicated ==>
              app.registry.Intent() ==
              IntentAfter(app.codec, app.registry.shardCount, old(app.registry.Intent()), Delivered(ops))
  {
    hide OpStep, IntentAfter, Delivered, Shaped;
    var registry := app.registry;
    states := [Coordinator(registry.View(), registry.Intent())];
    for i := 0 to |ops|
      invariant registry.Valid()
      invariant OpRun(app.codec, registry.shardCount, registry.livenessTimeout, registry.authorityReplicated, states, ops[..i])
      invariant states[0] == old(Coordinator(registry.View(), registry.Intent()))
      invariant states[i] == Coordinator(registry.View(), registry.Intent())
    {
      Perform(app, ops[i]);
      states := states + [Coordinator(registry.View(), registry.Intent())];
      assert ops[..i + 1][..i] == ops[..i];
    }
    assert ops[..|ops|] == ops;
    if registry.authorityReplicated {
      LocalOpsDoNotInterfere(app.codec, registry.shardCount, registry.livenessTimeout, states, ops);
    }
  }

  /** Two coordinators that got the same deliveries agree, however their local views diverged. */
  lemma CoordinatorsAgree(codec: ControlCodec, n: nat, liveness: nat, otherLiveness: nat,
                          a: seq<Coordinator>, aOps: seq<Op>, b: seq<Coordinator>, bOps: seq<Op>)
    requires OpRun(codec, n, liveness, true, a, aOps) && OpRun(codec, n, otherLiveness, true, b, bOps)
    requires a[0].intent == b[0].intent && Delivered(aOps) == Delivered(bOps)
    ensures a[|aOps|].intent == b[|bOps|].intent
  {
    hide OpRun, Delivered, IntentAfter;
    assert |a| == |aOps| + 1 && |b| == |bOps| + 1 by { RunLengths(codec, n, liveness, a, aOps); RunLengths(codec, n, otherLiveness, b, bOps); }
    LocalOpsDoNotInterfere(codec, n, liveness, a, aOps);
    LocalOpsDoNotInterfere(codec, n, otherLiveness, b, bOps);
  }

  lemma RunLengths(codec: ControlCodec, n: nat, liveness: nat, states: seq<Coordinator>, ops: seq<Op>)
    requires OpRun(codec, n, liveness, true, states, ops)
    ensures |states| == |ops| + 1
  {
  }

  // ---- restoring a snapshot instead of replaying ----

  function Commits(log: seq<Entry>): seq<Op> {
    if log == [] then []
    else
      var front, last := Commits(log[..|log| - 1]), log[|log| - 1].payload;
      if last.Normal? then front + [Commit(last.payload)] else front
  }

  lemma {:induction false} CommitsAreReplay(codec: ControlCodec, n: nat, init: Authority, a: Authority, log: seq<Entry>)
    ensures IntentAfter(codec, n, a, Commits(log)) == R.StateFrom(ControlModel(codec, n, init), a, log)
  {
    hide Committed;
    if log != [] {
      CommitsAreReplay(codec, n, init, a, log[..|log| - 1]);
      var front, all := Commits(log[..|log| - 1]), Commits(log);
      assert log[|log| - 1].payload.Normal? ==> all[..|all| - 1] == front;
    }
  }

  lemma {:induction false} IntentConcat(codec: ControlCodec, n: nat, a: Authority, xs: seq<Op>, ys: seq<Op>)
    ensures IntentAfter(codec, n, a, xs + ys) == IntentAfter(codec, n, IntentAfter(codec, n, a, xs), ys)
    decreases |ys|
  {
    hide Committed, Restored;
    if ys == [] {
      assert xs + ys == xs;
    } else {
      IntentConcat(codec, n, a, xs, ys[..|ys| - 1]);
      assert (xs + ys)[..|xs + ys| - 1] == xs + ys[..|ys| - 1];
    }
  }

  /** Restoring a snapshot, whatever was held before, and committing the tail equals committing the whole log. */
  lemma RestoreThenTail(codec: ControlCodec, n: nat, init: Authority, held: Authority,
                        head: seq<Entry>, tail: seq<Entry>, data: Bytes)
    requires codec.Valid() && DumpOf(codec, R.StateAfter(ControlModel(codec, n, init), head), data)
    ensures IntentAfter(codec, n, held, [Install(data)] + Commits(tail)) == IntentAfter(codec, n, init, Commits(head + tail))
  {
    hide Committed, Sorted, R.StateFrom, Commits;
    var app := ControlModel(codec, n, init);
    IntentConcat(codec, n, held, [Install(data)], Commits(tail));
    assert [Install(data)][..0] == [];
    assert IntentAfter(codec, n, held, [Install(data)]) == R.StateAfter(app, head);
    CommitsAreReplay(codec, n, init, R.StateAfter(app, head), tail);
    R.SnapshotPlusTail(app, init, head, tail);
    CommitsAreReplay(codec, n, init, init, head + tail);
  }

  /**
   One coordinator starts from a snapshot of the log's head and gets the tail, the other
   replays the whole log; between deliveries each does what it likes locally. They agree.
   */
  lemma SnapshotMeetsReplay(codec: ControlCodec, n: nat, liveness: nat, otherLiveness: nat, init: Authority,
                            head: seq<Entry>, tail: seq<Entry>, data: Bytes,
                            a: seq<Coordinator>, aOps: seq<Op>, b: seq<Coordinator>, bOps: seq<Op>)
    requires codec.Valid() && DumpOf(codec, R.StateAfter(ControlModel(codec, n, init), head), data)
    requires OpRun(codec, n, liveness, true, a, aOps) && Delivered(aOps) == [Install(data)] + Commits(tail)
    requires OpRun(codec, n, otherLiveness, true, b, bOps) && Delivered(bOps) == Commits(head + tail)
    requires |b| > 0 && b[0].intent == init
    ensures |a| == |aOps| + 1 && |b| == |bOps| + 1 && a[|aOps|].intent == b[|bOps|].intent
    ensures b[|bOps|].intent == R.StateAfter(ControlModel(codec, n, init), head + tail)
  {
    hide OpStep, Delivered, IntentAfter, Commits, DumpOf, R.StateFrom, Committed;
    LocalOpsDoNotInterfere(codec, n, liveness, a, aOps);
    LocalOpsDoNotInterfere(codec, n, otherLiveness, b, bOps);
    RestoreThenTail(codec, n, init, a[0].intent, head, tail, data);
    CommitsAreReplay(codec, n, init, init, head + tail);
  }

  /** A reap changes the intent exactly when authority is local and a reaped node was draining. */
  lemma ReapEditsIntent(codec: ControlCodec, n: nat, liveness: nat, replicated: bool, c: Coordinator,
                        now: nat, timeout: nat, next: Coordinator)
    requires OpStep(codec, n, liveness, replicated, c, Reap(now, timeout), next)
    ensures next.intent != c.intent <==>
            !replicated && exists x :: Stale(c.shards, now, timeout, x) && x.nodeId in c.intent.draining
  {
    hide Committed, Restored, Registered, Reaped, Promoted, Stale, Heartbeat, Reported;
    if replicated || !exists x :: Stale(c.shards, now, timeout, x) && x.nodeId in c.intent.draining {
      assert next.intent.draining == c.intent.draining;
    }
  }

  /** Without replicated authority one coordinator's reap drops a marker the other keeps. */
  lemma LocalAuthorityDiverges(codec: ControlCodec, n: nat, liveness: nat)
    requires n > 0
    ensures exists c, next: Coordinator ::
              OpStep(codec, n, liveness, false, c, Reap(1, 0), next) && next.intent != c.intent
  {
    var node := NodeInfo("node", "address", Leader, 0);
    var c := Coordinator(Shards(map[0 := node], map[]), Authority([], {"node"}));
    var next := Coordinator(Reaped(c.shards, 1, 0), Authority([], {}));
    assert c.shards.leaders[0] == node && Stale(c.shards, 1, 0, node);
    assert OpStep(codec, n, liveness, false, c, Reap(1, 0), next);
    assert "node" in c.intent.draining;
  }

  // ---- the table stays a placement ----

  ghost predicate Places(a: Authority, n: nat, v: nat) {
    |a.vshards| == v && InRange(a.vshards, n)
  }

  lemma {:induction false} TableStaysInRange(codec: ControlCodec, n: nat, v: nat, init: Authority, log: seq<Entry>)
    requires Places(init, n, v)
    ensures Places(R.StateAfter(ControlModel(codec, n, init), log), n, v)
  {
    if log != [] {
      TableStaysInRange(codec, n, v, init, log[..|log| - 1]);
    }
  }

  /**
   In every run of the control group, on every replica, each aircraft has exactly one owning
   group, and replicas that applied the same log id name the same one.
   */
  lemma OneOwnerEverywhere(codec: ControlCodec, n: nat, v: u32, init: Authority, log: seq<Entry>,
                           states: seq<R.Group<Authority>>, actions: seq<R.Action>, k: nat, i: nat, icao24: string)
    requires codec.Valid() && v > 0 && Places(init, n, v)
    requires R.Increasing(log) && R.Run(ControlModel(codec, n, init), log, states, actions)
    requires k < |states| && i < |states[k].replicas|
    ensures var table := states[k].replicas[i].state.vshards;
            && |table| == v
            && (exists g: nat :: g < n && Placement.Owns(Placement.Mapped(g, table), icao24))
            && (forall g: nat, h: nat ::
                  (Placement.Owns(Placement.Mapped(g, table), icao24) && Placement.Owns(Placement.Mapped(h, table), icao24)) ==> g == h)
  {
    hide Placement.Owns, R.Run, R.Increasing, ControlModel, R.StateAfter, R.Honest, R.LastId, R.MembershipAfter;
    var app := ControlModel(codec, n, init);
    ControlModelIsValid(codec, n, init);
    R.RunIsSound(app, log, states, actions);
    var r := states[k].replicas[i];
    var p: nat :| R.AtPrefix(app, log, r, p);
    TableStaysInRange(codec, n, v, init, log[..p]);
    Placement.OneOwner(r.state.vshards, n, icao24);
  }

  /** Replicas that applied the same log id have the same table and drain set. */
  lemma ControlConverges(codec: ControlCodec, n: nat, init: Authority, log: seq<Entry>,
                         states: seq<R.Group<Authority>>, actions: seq<R.Action>, k: nat, i: nat, j: nat)
    requires codec.Valid() && R.Increasing(log) && R.Run(ControlModel(codec, n, init), log, states, actions)
    requires k < |states| && i < |states[k].replicas| && j < |states[k].replicas|
    requires states[k].replicas[i].lastApplied == states[k].replicas[j].lastApplied
    ensures states[k].replicas[i].state == states[k].replicas[j].state
  {
    hide R.Run, R.Increasing, ControlModel, R.StateAfter, R.Honest, R.LastId, R.MembershipAfter, R.Sound;
    ControlModelIsValid(codec, n, init);
    R.RunIsSound(ControlModel(codec, n, init), log, states, actions);
    R.ReplicasConverge(ControlModel(codec, n, init), log, states[k].replicas[i], states[k].replicas[j]);
  }

  /** A group started with round-robin placement: one owning group per aircraft, in every run. */
  lemma RoundRobinHasOneOwner(codec: ControlCodec, n: nat, v: u32, log: seq<Entry>,
                              states: seq<R.Group<Authority>>, actions: seq<R.Action>, k: nat, i: nat, icao24: string)
    requires codec.Valid() && n > 0 && v > 0 && R.Increasing(log)
    requires R.Run(ControlModel(codec, n, Authority(RoundRobin(v, n), {})), log, states, actions)
    requires k < |states| && i < |states[k].replicas|
    ensures exists g: nat :: g < n && Placement.Owns(Placement.Mapped(g, states[k].replicas[i].state.vshards), icao24)
    ensures forall g: nat, h: nat ::
              (Placement.Owns(Placement.Mapped(g, states[k].replicas[i].state.vshards), icao24) &&
               Placement.Owns(Placement.Mapped(h, states[k].replicas[i].state.vshards), icao24)) ==> g == h
  {
    hide Placement.Owns, R.Run, R.Increasing, ControlModel, RoundRobin, Places;
    RoundRobinPlaces(v, n);
    OneOwnerEverywhere(codec, n, v, Authority(RoundRobin(v, n), {}), log, states, actions, k, i, icao24);
  }

  lemma RoundRobinPlaces(v: nat, n: nat)
    requires v == 0 || n > 0
    ensures Places(Authority(RoundRobin(v, n), {}), n, v)
  {
  }
}
