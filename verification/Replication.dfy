/**
 Replicated state machines: a committed log applied entry by entry, snapshots, installs and
 restarts. Everything is stated for an arbitrary application, then used for the shard's
 document store and for the coordinator's control state.
 */
module Replication {
  import opened Prelude
  import opened RaftTypes

  type Bytes = seq<byte>

  /**
   An application: its state before any command, what a payload does to it, and its snapshot
   format. `dumps(s, b)` says that b is a possible snapshot of s.
   */
  datatype App<!S(!new)> = App(init: S, apply: (S, Bytes) -> S, restore: Bytes -> S, dumps: (S, Bytes) -> bool)
  {
    /** Restoring a snapshot gives back the state it was taken of. */
    ghost predicate Valid() {
      forall s, b :: dumps(s, b) ==> restore(b) == s
    }
  }

  /** The membership in force and the entry that set it. */
  datatype StoredMembership = StoredMembership(at: Option<LogId>, config: seq<byte>)

  const NO_MEMBERSHIP := StoredMembership(None, [])

  datatype Stored = Stored(last: Option<LogId>, membership: StoredMembership, number: nat, data: Bytes)

  /** One replica: application state, progress, held snapshot, and the snapshot files on disk by index. */
  datatype Replica<S> = Replica(
    state: S,
    lastApplied: Option<LogId>,
    membership: StoredMembership,
    built: nat,
    held: Option<Stored>,
    durable: bool,
    disk: map<nat, Stored>)

  // ---- what a log means ----

  function ApplyPayload<S(!new)>(app: App<S>, s: S, p: EntryPayload): S {
    match p
    case Blank => s
    case Normal(payload) => app.apply(s, payload)
    case Membership(_) => s
  }

  function StateFrom<S(!new)>(app: App<S>, s: S, log: seq<Entry>): S {
    if log == [] then s else ApplyPayload(app, StateFrom(app, s, log[..|log| - 1]), log[|log| - 1].payload)
  }

  function StateAfter<S(!new)>(app: App<S>, log: seq<Entry>): S {
    StateFrom(app, app.init, log)
  }

  function MembershipOf(before: StoredMembership, e: Entry): StoredMembership {
    if e.payload.Membership? then StoredMembership(Some(e.logId), e.payload.config) else before
  }

  function MembershipAfter(log: seq<Entry>): StoredMembership {
    if log == [] then NO_MEMBERSHIP else MembershipOf(MembershipAfter(log[..|log| - 1]), log[|log| - 1])
  }

  function LastId(log: seq<Entry>): Option<LogId> {
    if log == [] then None else Some(log[|log| - 1].logId)
  }

  ghost predicate Increasing(log: seq<Entry>) {
    forall i, j :: 0 <= i < j < |log| ==> log[i].logId.index < log[j].logId.index
  }

  /** Restoring a state and replaying the tail is replaying the whole log. */
  lemma {:induction false} SnapshotPlusTail<S(!new)>(app: App<S>, s: S, head: seq<Entry>, tail: seq<Entry>)
    ensures StateFrom(app, StateFrom(app, s, head), tail) == StateFrom(app, s, head + tail)
    decreases |tail|
  {
    if tail == [] {
      assert head + tail == head;
    } else {
      var front := tail[..|tail| - 1];
      SnapshotPlusTail(app, s, head, front);
      assert (head + tail)[..|head + tail| - 1] == head + front;
    }
  }

  // ---- the operations of one replica ----

  function ApplyEntry<S(!new)>(app: App<S>, r: Replica<S>, e: Entry): Replica<S> {
    r.(state := ApplyPayload(app, r.state, e.payload),
       lastApplied := Some(e.logId),
       membership := MembershipOf(r.membership, e))
  }

  function ApplyEntries<S(!new)>(app: App<S>, r: Replica<S>, es: seq<Entry>): Replica<S> {
    if es == [] then r else ApplyEntry(app, ApplyEntries(app, r, es[..|es| - 1]), es[|es| - 1])
  }

  function FileIndex(st: Stored): nat {
    match st.last
    case None => 0
    case Some(id) => id.index
  }

  /** A completed persist leaves the one new file. */
  function Persisted<S>(r: Replica<S>, st: Stored): map<nat, Stored> {
    if r.durable then map[FileIndex(st) := st] else r.disk
  }

  function Snapshot<S>(r: Replica<S>, data: Bytes): Stored {
    Stored(r.lastApplied, r.membership, r.built + 1, data)
  }

  function Built<S>(r: Replica<S>, data: Bytes): Replica<S> {
    var st := Snapshot(r, data);
    r.(built := r.built + 1, held := Some(st), disk := Persisted(r, st))
  }

  function Installed<S(!new)>(app: App<S>, r: Replica<S>, st: Stored): Replica<S> {
    r.(state := app.restore(st.data), lastApplied := st.last, membership := st.membership,
       held := Some(st), disk := Persisted(r, st))
  }

  function Empty<S(!new)>(app: App<S>, durable: bool, disk: map<nat, Stored>): Replica<S> {
    Replica(app.init, None, NO_MEMBERSHIP, 0, None, durable, disk)
  }

  ghost predicate Newest(disk: map<nat, Stored>, i: nat) {
    i in disk && forall j :: j in disk ==> j <= i
  }

  /** A restart: RAM is gone, the newest snapshot file is restored. */
  ghost predicate Booted<S(!new)>(app: App<S>, durable: bool, disk: map<nat, Stored>, r: Replica<S>) {
    if !durable || disk == map[] then r == Empty(app, durable, disk)
    else
      exists i :: Newest(disk, i) &&
        r == Replica(app.restore(disk[i].data), disk[i].last, disk[i].membership, 0, Some(disk[i]), durable, disk)
  }

  // ---- runs of a group ----

  /** The replicas of a group, and every snapshot any of them ever held: what may still be in
      flight to another replica, or lie in the object store. */
  datatype Group<S> = Group(replicas: seq<Replica<S>>, sent: set<Stored>)

  datatype Event =
    /** The replica applies the next committed entry. */
    | Apply(entry: Entry)
    | Build(data: Bytes)
    | Install(snapshot: Stored)
    /** A crash with all files settled. */
    | Restart
    /** A crash after a snapshot file was renamed into place, with any of the older files
        already removed. */
    | CrashInPersist(snapshot: Stored, left: map<nat, Stored>)
    /** No local snapshot: the newest object is fetched and persisted. */
    | ColdBoot(snapshot: Stored)

  /** The entry is the one after the last applied. */
  ghost predicate NextEntry(log: seq<Entry>, last: Option<LogId>, e: Entry) {
    exists n: nat :: n < |log| && LastId(log[..n]) == last && log[n] == e
  }

  /** The snapshot a replica is about to persist, by building or by installing one in flight. */
  ghost predicate Persisting<S(!new)>(app: App<S>, g: Group<S>, r: Replica<S>, st: Stored) {
    st in g.sent || (app.dumps(r.state, st.data) && st == Snapshot(r, st.data))
  }

  /** The new file and whichever others were not yet removed. */
  ghost predicate LeftBehind(disk: map<nat, Stored>, index: nat, left: map<nat, Stored>) {
    index in left && forall i :: i in left ==> i in disk && left[i] == disk[i]
  }

  ghost predicate Step<S(!new)>(app: App<S>, log: seq<Entry>, g: Group<S>, r: Replica<S>, ev: Event, next: Replica<S>) {
    match ev
    case Apply(e) => NextEntry(log, r.lastApplied, e) && next == ApplyEntry(app, r, e)
    case Build(data) => app.dumps(r.state, data) && next == Built(r, data)
    case Install(st) => st in g.sent && next == Installed(app, r, st)
    case Restart => Booted(app, r.durable, r.disk, next)
    case CrashInPersist(st, left) =>
      r.durable && Persisting(app, g, r, st) && LeftBehind(r.disk[FileIndex(st) := st], FileIndex(st), left) &&
      Booted(app, true, left, next)
    case ColdBoot(st) => r.durable && r.disk == map[] && st in g.sent && next == Installed(app, Empty(app, true, map[]), st)
  }

  function HeldBy<S>(r: Replica<S>): set<Stored> {
    match r.held
    case None => {}
    case Some(st) => {st}
  }

  ghost predicate GroupStep<S(!new)>(app: App<S>, log: seq<Entry>, g: Group<S>, i: nat, ev: Event, next: Group<S>) {
    && i < |g.replicas| && |next.replicas| == |g.replicas|
    && Step(app, log, g, g.replicas[i], ev, next.replicas[i])
    && (forall j :: 0 <= j < |g.replicas| && j != i ==> next.replicas[j] == g.replicas[j])
    && next.sent == g.sent + HeldBy(next.replicas[i])
  }

  ghost predicate Initial<S(!new)>(app: App<S>, g: Group<S>) {
    && g.sent == {}
    && forall i :: 0 <= i < |g.replicas| ==> g.replicas[i] == Empty(app, g.replicas[i].durable, map[])
  }

  datatype Action = Action(replica: nat, event: Event)

  ghost predicate Run<S(!new)>(app: App<S>, log: seq<Entry>, states: seq<Group<S>>, actions: seq<Action>) {
    && |states| == |actions| + 1 && Initial(app, states[0])
    && forall k :: 0 <= k < |actions| ==> GroupStep(app, log, states[k], actions[k].replica, actions[k].event, states[k + 1])
  }

  // ---- what every run keeps ----

  /** The snapshot is of the log up to its own log id. */
  ghost predicate Honest<S(!new)>(app: App<S>, log: seq<Entry>, st: Stored) {
    exists n: nat :: HonestAt(app, log, st, n)
  }

  ghost predicate HonestAt<S(!new)>(app: App<S>, log: seq<Entry>, st: Stored, n: nat) {
    && n <= |log|
    && st.last == LastId(log[..n])
    && st.membership == MembershipAfter(log[..n])
    && app.restore(st.data) == StateAfter(app, log[..n])
  }

  /** The replica's state is the log up to its last applied id. */
  ghost predicate AtPrefix<S(!new)>(app: App<S>, log: seq<Entry>, r: Replica<S>, n: nat) {
    && n <= |log|
    && r.lastApplied == LastId(log[..n])
    && r.membership == MembershipAfter(log[..n])
    && r.state == StateAfter(app, log[..n])
  }

  ghost predicate Sound<S(!new)>(app: App<S>, log: seq<Entry>, r: Replica<S>) {
    && (exists n: nat :: AtPrefix(app, log, r, n))
    && (r.held.Some? ==> Honest(app, log, r.held.value))
    && (forall i :: i in r.disk ==> Honest(app, log, r.disk[i]))
  }

  ghost predicate GroupSound<S(!new)>(app: App<S>, log: seq<Entry>, g: Group<S>) {
    && (forall i :: 0 <= i < |g.replicas| ==> Sound(app, log, g.replicas[i]))
    && (forall st :: st in g.sent ==> Honest(app, log, st))
  }

  /** A log id names one prefix of the log. */
  lemma IdNamesPrefix(log: seq<Entry>, m: nat, n: nat)
    requires Increasing(log) && m <= |log| && n <= |log| && LastId(log[..m]) == LastId(log[..n])
    ensures m == n
  {
  }

  lemma ApplyIsSound<S(!new)>(app: App<S>, log: seq<Entry>, r: Replica<S>, e: Entry)
    requires Increasing(log) && Sound(app, log, r) && NextEntry(log, r.lastApplied, e)
    ensures Sound(app, log, ApplyEntry(app, r, e))
  {
    hide Honest, Increasing;
    var n: nat :| AtPrefix(app, log, r, n);
    var k: nat :| k < |log| && LastId(log[..k]) == r.lastApplied && log[k] == e;
    IdNamesPrefix(log, k, n);
    assert log[..n + 1][..n] == log[..n];
    assert AtPrefix(app, log, ApplyEntry(app, r, e), n + 1);
  }

  lemma SnapshotIsHonest<S(!new)>(app: App<S>, log: seq<Entry>, r: Replica<S>, data: Bytes)
    requires app.Valid() && Sound(app, log, r) && app.dumps(r.state, data)
    ensures Honest(app, log, Snapshot(r, data))
  {
    hide LastId, MembershipAfter, StateAfter;
    var n: nat :| AtPrefix(app, log, r, n);
    assert HonestAt(app, log, Snapshot(r, data), n);
  }

  lemma InstallIsSound<S(!new)>(app: App<S>, log: seq<Entry>, r: Replica<S>, st: Stored)
    requires Honest(app, log, st) && forall i :: i in r.disk ==> Honest(app, log, r.disk[i])
    ensures Sound(app, log, Installed(app, r, st))
  {
    hide LastId, MembershipAfter, StateAfter;
    var n: nat :| HonestAt(app, log, st, n);
    assert AtPrefix(app, log, Installed(app, r, st), n);
  }

  lemma BootIsSound<S(!new)>(app: App<S>, log: seq<Entry>, durable: bool, disk: map<nat, Stored>, r: Replica<S>)
    requires Booted(app, durable, disk, r) && forall i :: i in disk ==> Honest(app, log, disk[i])
    ensures Sound(app, log, r)
  {
    if !durable || disk == map[] {
      assert AtPrefix(app, log, r, 0);
    } else {
      hide LastId, MembershipAfter, StateAfter;
      var i :| Newest(disk, i) &&
        r == Replica(app.restore(disk[i].data), disk[i].last, disk[i].membership, 0, Some(disk[i]), durable, disk);
      var n: nat :| HonestAt(app, log, disk[i], n);
      assert AtPrefix(app, log, r, n);
    }
  }

  lemma StepIsSound<S(!new)>(app: App<S>, log: seq<Entry>, g: Group<S>, i: nat, ev: Event, next: Group<S>)
    requires app.Valid() && Increasing(log) && GroupSound(app, log, g) && GroupStep(app, log, g, i, ev, next)
    ensures GroupSound(app, log, next)
  {
    hide Honest, Increasing, AtPrefix, Booted, NextEntry, StateAfter, MembershipAfter, LastId, ApplyEntry;
    var r, after := g.replicas[i], next.replicas[i];
    match ev {
      case Apply(e) => ApplyIsSound(app, log, r, e);
      case Build(data) => SnapshotIsHonest(app, log, r, data); BuildKeeps(app, log, r, data);
      case Install(st) => InstallIsSound(app, log, r, st);
      case Restart => BootIsSound(app, log, r.durable, r.disk, after);
      case CrashInPersist(st, left) =>
        if st !in g.sent {
          SnapshotIsHonest(app, log, r, st.data);
        }
        BootIsSound(app, log, true, left, after);
      case ColdBoot(st) => InstallIsSound(app, log, Empty(app, true, map[]), st);
    }
    assert Sound(app, log, after);
  }

  lemma BuildKeeps<S(!new)>(app: App<S>, log: seq<Entry>, r: Replica<S>, data: Bytes)
    requires Sound(app, log, r) && Honest(app, log, Snapshot(r, data))
    ensures Sound(app, log, Built(r, data))
  {
    hide Honest, StateAfter, MembershipAfter, LastId;
    var n: nat :| AtPrefix(app, log, r, n);
    assert AtPrefix(app, log, Built(r, data), n);
  }

  /**
   In every run, with snapshots taken, shipped and installed and with crashes at any point:
   each replica's state is the committed log up to its last applied id, and every snapshot,
   held, on disk or in flight, restores to the log up to its own id.
   */
  lemma {:induction false} RunIsSound<S(!new)>(app: App<S>, log: seq<Entry>, states: seq<Group<S>>, actions: seq<Action>)
    requires app.Valid() && Increasing(log) && Run(app, log, states, actions)
    ensures forall k :: 0 <= k < |states| ==> GroupSound(app, log, states[k])
    decreases |actions|
  {
    hide GroupStep, GroupSound, Increasing;
    if actions == [] {
      InitialIsSound(app, log, states[0]);
    } else {
      var last := |actions| - 1;
      assert Run(app, log, states[..|actions|], actions[..last]);
      RunIsSound(app, log, states[..|actions|], actions[..last]);
      assert states[..|actions|][last] == states[last];
      StepIsSound(app, log, states[last], actions[last].replica, actions[last].event, states[last + 1]);
      forall k | 0 <= k < |states|
        ensures GroupSound(app, log, states[k])
      {
        if k < |actions| {
          assert states[..|actions|][k] == states[k];
        }
      }
    }
  }

  lemma InitialIsSound<S(!new)>(app: App<S>, log: seq<Entry>, g: Group<S>)
    requires Initial(app, g)
    ensures GroupSound(app, log, g)
  {
    assert log[..0] == [];
    assert forall i :: 0 <= i < |g.replicas| ==> AtPrefix(app, log, g.replicas[i], 0);
  }

  /** Replicas that have applied the same log id have the same state, however they got there. */
  lemma ReplicasConverge<S(!new)>(app: App<S>, log: seq<Entry>, a: Replica<S>, b: Replica<S>)
    requires Increasing(log) && Sound(app, log, a) && Sound(app, log, b) && a.lastApplied == b.lastApplied
    ensures a.state == b.state && a.membership == b.membership
  {
    hide Honest, Increasing, StateAfter, MembershipAfter, LastId;
    var m: nat :| AtPrefix(app, log, a, m);
    var n: nat :| AtPrefix(app, log, b, n);
    IdNamesPrefix(log, m, n);
  }
}
