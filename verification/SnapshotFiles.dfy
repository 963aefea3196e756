/**
 What restarts cost: over every run a durable replica comes back at its last snapshot or beyond,
 and one that crashes while persisting a snapshot comes back at that snapshot or beyond.
 */
module SnapshotFiles {
  import opened Prelude
  import opened RaftTypes
  import opened Replication

  /** The position a log id stands for, zero before the first entry. */
  function IndexOf(id: Option<LogId>): nat {
    if id.None? then 0 else id.value.index
  }

  /** Every file lies under the index of its own snapshot, the held snapshot is among them, and
      without one there are no files. */
  ghost predicate Filed<S>(r: Replica<S>) {
    r.durable ==>
      && (forall i :: i in r.disk ==> IndexOf(r.disk[i].last) == i)
      && (r.held.None? ==> r.disk == map[])
      && (r.held.Some? ==> var i := IndexOf(r.held.value.last); i in r.disk && r.disk[i] == r.held.value)
  }

  /** The replica came back with what some snapshot at or beyond the index says. */
  ghost predicate CameBack<S(!new)>(app: App<S>, next: Replica<S>, index: nat) {
    && next.held.Some?
    && index <= IndexOf(next.held.value.last)
    && next.lastApplied == next.held.value.last
    && next.membership == next.held.value.membership
    && next.state == app.restore(next.held.value.data)
  }

  lemma BootComesBack<S(!new)>(app: App<S>, disk: map<nat, Stored>, next: Replica<S>, index: nat)
    requires Booted(app, true, disk, next)
    requires index in disk && forall i :: i in disk ==> IndexOf(disk[i].last) == i
    ensures Filed(next) && CameBack(app, next, index)
    ensures (forall i :: i in disk ==> i <= index) ==> next.held == Some(disk[index])
  {
  }

  lemma BootIsFiled<S(!new)>(app: App<S>, durable: bool, disk: map<nat, Stored>, next: Replica<S>)
    requires Booted(app, durable, disk, next)
    requires durable ==> forall i :: i in disk ==> IndexOf(disk[i].last) == i
    ensures Filed(next)
  {
    if durable && disk != map[] {
      var i :| i in disk;
      BootComesBack(app, disk, next, i);
    }
  }

  lemma StepIsFiled<S(!new)>(app: App<S>, log: seq<Entry>, g: Group<S>, r: Replica<S>, ev: Event, next: Replica<S>)
    requires Step(app, log, g, r, ev, next) && Filed(r)
    ensures Filed(next)
  {
    match ev
    case Restart => BootIsFiled(app, r.durable, r.disk, next);
    case CrashInPersist(st, left) => BootIsFiled(app, true, left, next);
    case _ =>
  }

  lemma {:induction false} RunIsFiled<S(!new)>(app: App<S>, log: seq<Entry>, states: seq<Group<S>>, actions: seq<Action>, k: nat, i: nat)
    requires Run(app, log, states, actions) && k < |states| && i < |states[k].replicas|
    ensures Filed(states[k].replicas[i])
    decreases k
  {
    hide Filed, Step;
    if k == 0 {
      InitiallyFiled(app, states[0], i);
    } else {
      var step := actions[k - 1];
      assert GroupStep(app, log, states[k - 1], step.replica, step.event, states[k]);
      RunIsFiled(app, log, states, actions, k - 1, i);
      if step.replica == i {
        StepIsFiled(app, log, states[k - 1], states[k - 1].replicas[i], step.event, states[k].replicas[i]);
      }
    }
  }

  lemma InitiallyFiled<S(!new)>(app: App<S>, g: Group<S>, i: nat)
    requires Initial(app, g) && i < |g.replicas|
    ensures Filed(g.replicas[i])
  {
  }

  /**
   In every run, whatever was applied, built, installed or lost before: a durable replica that
   restarts is at its held snapshot or beyond, one that crashes while persisting a snapshot is at
   that snapshot or beyond, and one that has just built or installed a snapshot and then restarts
   is exactly at that snapshot.
   */
  lemma RestartsKeepSnapshots<S(!new)>(app: App<S>, log: seq<Entry>, states: seq<Group<S>>, actions: seq<Action>, k: nat)
    requires Run(app, log, states, actions) && k < |actions|
    ensures var a := actions[k];
            a.replica < |states[k].replicas| && a.replica < |states[k + 1].replicas| &&
            var r, next := states[k].replicas[a.replica], states[k + 1].replicas[a.replica];
            match a.event
            case Restart =>
              (r.durable && r.held.Some? ==> CameBack(app, next, IndexOf(r.held.value.last))) &&
              (!r.durable || r.held.None? ==> next.state == app.init && next.lastApplied == None)
            case CrashInPersist(st, left) => CameBack(app, next, IndexOf(st.last))
            case Build(data) =>
              next.held.Some? && next.held.value.data == data && next.held.value.last == r.lastApplied &&
              (r.durable ==> ExactOnRestart(app, next))
            case Install(st) => next.held == Some(st) && (r.durable ==> ExactOnRestart(app, next))
            case ColdBoot(st) => next.held == Some(st) && ExactOnRestart(app, next)
            case Apply(_) => next.held == r.held && next.disk == r.disk
  {
    var a := actions[k];
    assert GroupStep(app, log, states[k], a.replica, a.event, states[k + 1]);
    RunIsFiled(app, log, states, actions, k, a.replica);
    var r, next := states[k].replicas[a.replica], states[k + 1].replicas[a.replica];
    match a.event
    case Restart =>
      if r.durable && r.held.Some? {
        BootComesBack(app, r.disk, next, IndexOf(r.held.value.last));
      }
    case CrashInPersist(st, left) => BootComesBack(app, left, next, IndexOf(st.last));
    case Apply(_) =>
    case _ => OneFile(app, next);
  }

  /** Any restart from here gives back exactly the held snapshot. */
  ghost predicate ExactOnRestart<S(!new)>(app: App<S>, r: Replica<S>) {
    && r.held.Some?
    && forall next :: Booted(app, true, r.disk, next) ==> next.held == r.held && CameBack(app, next, IndexOf(r.held.value.last))
  }

  lemma OneFile<S(!new)>(app: App<S>, r: Replica<S>)
    requires r.held.Some? && (r.durable ==> r.disk == map[IndexOf(r.held.value.last) := r.held.value])
    ensures r.durable ==> ExactOnRestart(app, r)
  {
    if r.durable {
      forall next | Booted(app, true, r.disk, next)
        ensures next.held == r.held && CameBack(app, next, IndexOf(r.held.value.last))
      {
        BootComesBack(app, r.disk, next, IndexOf(r.held.value.last));
      }
    }
  }
}
