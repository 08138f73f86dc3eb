/**
 * The client side of the protocol: `applyDelta`, `applySnapshot` and `noteResyncRequired` of
 * `frontend/src/composables/attentionReconcile.ts`, and that replicas agree with the server.
 */
module Replica {
  import opened Common
  import opened Deltas
  import opened AttentionTypes
  import opened AttentionInvariant
  import opened LiveLedger

  datatype Store = Store(
    epoch: Option<string>, cacheRevision: nat, awaitingSnapshot: bool,
    panes: map<Id, PaneView>, notifs: map<Id, NotifView>)

  const EMPTY_STORE := Store(None, 0, false, map[], map[])

  datatype Message = DeltaMessage(delta: StateDelta) | SnapshotMessage(snapshot: Snapshot) | ResyncRequired

  function ApplyDelta(r: Store, d: StateDelta): Store {
    if r.awaitingSnapshot then r
    else if r.epoch.Some? && d.epoch != r.epoch.value then r.(awaitingSnapshot := true)
    else if d.revision <= r.cacheRevision then r
    else Store(Some(d.epoch), d.revision, false, Apply(r.panes, d.panes), Apply(r.notifs, d.notifs))
  }

  function ApplySnapshot(r: Store, s: Snapshot): Store {
    if r.epoch == Some(s.epoch) && s.revision < r.cacheRevision then r
    else Store(Some(s.epoch), s.revision, false, s.panes, s.notifs)
  }

  function Receive(r: Store, m: Message): Store {
    match m
    case DeltaMessage(d) => ApplyDelta(r, d)
    case SnapshotMessage(s) => ApplySnapshot(r, s)
    case ResyncRequired => r.(awaitingSnapshot := true)
  }

  function ReceiveAll(r: Store, stream: seq<Message>): Store {
    if stream == [] then r
    else Receive(ReceiveAll(r, stream[..|stream| - 1]), stream[|stream| - 1])
  }

  /** The life of one server process: its successive ledgers and what it published between them. */
  datatype ServerRun = ServerRun(states: seq<Ledger>, updates: seq<Option<StateDelta>>)

  ghost predicate IsStep(update: Option<StateDelta>, before: Ledger, after: Ledger) {
    match update
    case None => SnapshotOf(before) == SnapshotOf(after)
    case Some(d) => IsDelta(d, before, after)
  }

  ghost predicate IsRun(run: ServerRun, epoch: string) {
    && |run.states| == |run.updates| + 1
    && run.states[0] == InitialLedger(epoch)
    && forall i :: 0 <= i < |run.updates| ==> IsStep(run.updates[i], run.states[i], run.states[i + 1])
  }

  /** All server processes there have been, by epoch. */
  type World = map<string, ServerRun>

  ghost predicate IsWorld(world: World) {
    forall epoch :: epoch in world ==> IsRun(world[epoch], epoch)
  }

  ghost predicate Genuine(world: World, m: Message) {
    match m
    case DeltaMessage(d) => d.epoch in world && Some(d) in world[d.epoch].updates
    case SnapshotMessage(s) =>
      s.epoch in world && exists i :: 0 <= i < |world[s.epoch].states| && s == SnapshotOf(world[s.epoch].states[i])
    case ResyncRequired => true
  }

  /** A delta of the store's own epoch never skips a revision. Old ones may come again at any time. */
  predicate NoGap(r: Store, m: Message) {
    m.DeltaMessage? && (r.epoch.None? || r.epoch.value == m.delta.epoch) ==> m.delta.revision <= r.cacheRevision + 1
  }

  /** The store shows exactly what the server showed at the store's revision. */
  ghost predicate Coherent(world: World, r: Store) {
    match r.epoch
    case None => r == EMPTY_STORE || r == EMPTY_STORE.(awaitingSnapshot := true)
    case Some(epoch) =>
      && epoch in world
      && exists i :: 0 <= i < |world[epoch].states|
          && SnapshotOf(world[epoch].states[i]) == Snapshot(epoch, r.cacheRevision, r.panes, r.notifs)
  }

  lemma {:induction false} RevisionsGrow(run: ServerRun, epoch: string, i: nat, j: nat)
    requires IsRun(run, epoch) && i <= j < |run.states|
    ensures run.states[i].epoch == epoch
    ensures run.states[i].revision <= run.states[j].revision
    ensures run.states[i].revision == run.states[j].revision ==> SnapshotOf(run.states[i]) == SnapshotOf(run.states[j])
    decreases j
  {
    hide Describes, PaneViews, NotifViews;
    if i < j {
      RevisionsGrow(run, epoch, i, j - 1);
      assert IsStep(run.updates[j - 1], run.states[j - 1], run.states[j]);
    } else if 0 < j {
      RevisionsGrow(run, epoch, j - 1, j - 1);
      assert IsStep(run.updates[j - 1], run.states[j - 1], run.states[j]);
    }
  }

  /** One delta takes a store that shows the state before it to one that shows the state after it. */
  lemma DeltaAdvances(r: Store, d: StateDelta, before: Ledger, after: Ledger)
    requires IsDelta(d, before, after)
    requires r.panes == PaneViews(before.panes) && r.notifs == NotifViews(before.notifs)
    requires !r.awaitingSnapshot && r.cacheRevision == before.revision && (r.epoch.Some? ==> r.epoch.value == d.epoch)
    ensures ApplyDelta(r, d)
            == Store(Some(after.epoch), after.revision, false, PaneViews(after.panes), NotifViews(after.notifs))
  {
    hide Describes, PaneViews, NotifViews;
    ApplyDescribed(d.panes, PaneViews(before.panes), PaneViews(after.panes));
    ApplyDescribed(d.notifs, NotifViews(before.notifs), NotifViews(after.notifs));
  }

  /**
   * A store takes a delta even if it has missed some before it. It is then right exactly when the delta
   * lists every identity in which the missed ones made a difference.
   */
  lemma MissedDeltas(r: Store, d: StateDelta, known: Ledger, before: Ledger, after: Ledger)
    requires IsDelta(d, before, after)
    requires r.panes == PaneViews(known.panes) && r.notifs == NotifViews(known.notifs)
    requires !r.awaitingSnapshot && r.cacheRevision == known.revision <= before.revision
    requires r.epoch.Some? ==> r.epoch.value == d.epoch
    ensures ApplyDelta(r, d)
            == Store(Some(after.epoch), after.revision, false, PaneViews(after.panes), NotifViews(after.notifs))
            <==>
            && (forall id :: !Lists(d.panes, id) ==>
                  Shown(PaneViews(known.panes), id) == Shown(PaneViews(before.panes), id))
            && (forall id :: !Lists(d.notifs, id) ==>
                  Shown(NotifViews(known.notifs), id) == Shown(NotifViews(before.notifs), id))
  {
    hide Describes, PaneViews, NotifViews, Lists, Shown;
    ApplyElsewhere(d.panes, PaneViews(known.panes), PaneViews(before.panes), PaneViews(after.panes));
    ApplyElsewhere(d.notifs, NotifViews(known.notifs), NotifViews(before.notifs), NotifViews(after.notifs));
  }

  lemma ReceiveKeepsCoherence(world: World, r: Store, m: Message)
    requires IsWorld(world) && Genuine(world, m) && NoGap(r, m) && Coherent(world, r)
    ensures Coherent(world, Receive(r, m))
  {
    hide IsRun, IsDelta, SnapshotOf;
    if m.DeltaMessage? && ApplyDelta(r, m.delta) != r && ApplyDelta(r, m.delta) != r.(awaitingSnapshot := true) {
      NextDeltaKeepsCoherence(world, r, m.delta);
    }
  }

  lemma NextDeltaKeepsCoherence(world: World, r: Store, d: StateDelta)
    requires IsWorld(world) && Genuine(world, DeltaMessage(d)) && Coherent(world, r)
    requires !r.awaitingSnapshot && d.revision == r.cacheRevision + 1 && (r.epoch.Some? ==> r.epoch.value == d.epoch)
    ensures Coherent(world, ApplyDelta(r, d))
  {
    hide Describes, PaneViews, NotifViews;
    var run := world[d.epoch];
    var j :| 0 <= j < |run.updates| && run.updates[j] == Some(d);
    assert IsStep(run.updates[j], run.states[j], run.states[j + 1]);
    var i := 0;
    if r.epoch.Some? {
      i :| 0 <= i < |run.states| && SnapshotOf(run.states[i]) == Snapshot(d.epoch, r.cacheRevision, r.panes, r.notifs);
    } else {
      EmptyViews(d.epoch);
    }
    if i <= j {
      RevisionsGrow(run, d.epoch, i, j);
    } else {
      RevisionsGrow(run, d.epoch, j, i);
    }
    DeltaAdvances(r, d, run.states[j], run.states[j + 1]);
    RevisionsGrow(run, d.epoch, j + 1, j + 1);
  }

  lemma EmptyViews(epoch: string)
    ensures PaneViews(InitialLedger(epoch).panes) == map[] && NotifViews(InitialLedger(epoch).notifs) == map[]
  {
  }

  /**
   * A store that never takes a delta of its epoch past a skipped revision always shows what the server
   * showed at the store's revision. `Convergence` says what holds of all other streams.
   */
  lemma {:induction false} UnskippedConverges(world: World, stream: seq<Message>)
    requires IsWorld(world)
    requires forall i :: 0 <= i < |stream| ==> Genuine(world, stream[i])
    requires forall i :: 0 <= i < |stream| ==> NoGap(ReceiveAll(EMPTY_STORE, stream[..i]), stream[i])
    ensures Coherent(world, ReceiveAll(EMPTY_STORE, stream))
    decreases |stream|
  {
    hide IsWorld, Genuine, NoGap, Coherent;
    if stream == [] {
      assert Coherent(world, EMPTY_STORE) by { EmptyCoherent(world); }
    } else {
      var init := stream[..|stream| - 1];
      assert forall i :: 0 <= i < |init| ==> init[..i] == stream[..i];
      UnskippedConverges(world, init);
      ReceiveKeepsCoherence(world, ReceiveAll(EMPTY_STORE, init), stream[|stream| - 1]);
    }
  }

  lemma EmptyCoherent(world: World)
    ensures Coherent(world, EMPTY_STORE)
  {
  }

  /** A store at the server's latest revision shows the server's latest state. */
  lemma CaughtUpMeansEqual(world: World, r: Store, epoch: string)
    requires IsWorld(world) && Coherent(world, r) && r.epoch == Some(epoch)
    requires r.cacheRevision == Last(world[epoch]).revision
    ensures SnapshotOf(Last(world[epoch])) == Snapshot(epoch, r.cacheRevision, r.panes, r.notifs)
  {
    hide PaneViews, NotifViews, IsStep;
    var run := world[epoch];
    var i :| 0 <= i < |run.states| && SnapshotOf(run.states[i]) == Snapshot(epoch, r.cacheRevision, r.panes, r.notifs);
    RevisionsGrow(run, epoch, i, |run.states| - 1);
  }

  function Last(run: ServerRun): Ledger {
    if run.states == [] then InitialLedger("") else run.states[|run.states| - 1]
  }

  /** A snapshot leaves a store right, unless it is dropped as older and the store was wrong before. */
  lemma SnapshotRestoresIff(world: World, r: Store, s: Snapshot)
    requires IsWorld(world) && Genuine(world, SnapshotMessage(s))
    ensures Coherent(world, ApplySnapshot(r, s)) <==>
            r.epoch != Some(s.epoch) || s.revision >= r.cacheRevision || Coherent(world, r)
  {
    hide IsRun, SnapshotOf;
  }
}
