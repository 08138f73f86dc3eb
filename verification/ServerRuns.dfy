/** Runs of the ledger object: it publishes exactly the steps its replicas need. */
module ServerRuns {
  import opened Common
  import opened AttentionTypes
  import opened AttentionInvariant
  import opened AttentionRuns
  import opened LiveLedger
  import opened Replica
  import AttentionSpec
  import Convergence
  import Deltas
  import Dedup

  /** One operation on the object. */
  method Perform(ledger: AttentionLedger, op: Op) returns (update: Option<StateDelta>)
    requires ledger.Valid()
    modifies ledger
    ensures ledger.Valid() && ledger.State() == Step(old(ledger.State()), op)
    ensures IsStep(update, old(ledger.State()), ledger.State())
  {
    hide Invariant, Deltas.Describes, PaneViews, NotifViews, AttentionSpec.RecordPane, AttentionSpec.RecordNotif,
      AttentionSpec.MarkRead, AttentionSpec.PaneClosed, AttentionSpec.Sweep, Dedup.Reserve, Dedup.Complete;
    update := None;
    match op
    case OpRecordPane(id, occurredAt, severity, now) =>
      var _, delta := ledger.RecordPaneEvent(id, occurredAt, severity, now);
      update := Some(delta);
    case OpRecordNotif(id, occurredAt, severity, now) =>
      var _, delta := ledger.RecordNotifEvent(id, occurredAt, severity, now);
      update := Some(delta);
    case OpMarkRead(epoch, receipts, notifIds, now) =>
      var results, appliedAt;
      update, results, appliedAt := ledger.MarkRead(epoch, receipts, notifIds, now);
    case OpPaneClosed(id, now) =>
      update := ledger.PaneClosed(id, now);
    case OpSweep(now) =>
      update := ledger.Sweep(now);
    case OpReserve(key, payloadHash, now) =>
      var _ := ledger.Reserve(key.0, key.1, payloadHash, now);
    case OpComplete(key, generation, outcome, now) =>
      var _ := ledger.Complete(key, generation, outcome, now);
  }

  /** A server that performs any operations goes through the specified states and publishes their differences. */
  method RunServer(epoch: string, ops: seq<Op>) returns (run: ServerRun)
    ensures IsRun(run, epoch) && |run.updates| == |ops|
    ensures forall i :: 0 <= i <= |ops| ==> run.states[i] == Run(epoch, ops[..i])
  {
    hide IsStep, Step, Invariant;
    var ledger := new AttentionLedger.WithEpoch(epoch);
    run := ServerRun([ledger.State()], []);
    for i := 0 to |ops|
      invariant ledger.Valid() && fresh(ledger)
      invariant |run.updates| == i && IsRun(run, epoch) && ledger.State() == run.states[i]
      invariant forall j :: 0 <= j <= i ==> run.states[j] == Run(epoch, ops[..j])
    {
      assert ops[..i + 1][..i] == ops[..i];
      var update := Perform(ledger, ops[i]);
      run := ServerRun(run.states + [ledger.State()], run.updates + [update]);
    }
  }

  /** Recording for a new pane, when nothing expires: one pane more, and a delta that lists only it. */
  lemma NewPaneDelta(s: Ledger, id: Id, now: nat)
    requires id !in s.panes && |s.panes| < IDENTITY_CAP
    requires AttentionSpec.Expire(s, now).panes == s.panes && AttentionSpec.Expire(s, now).notifs == s.notifs
    ensures var event := UnreadEvent(s.nextEventSeq, now, Info);
            var pane := AttentionSpec.PushEvent(AttentionSpec.FRESH_PANE, event);
            var after := AttentionSpec.RecordPane(s, id, now, Info, now);
            && after.panes == s.panes[id := pane] && after.notifs == s.notifs
            && IsDelta(StateDelta(s.epoch, s.revision + 1, [Deltas.Delta(id, Some(ViewOfPane(pane)))], []), s, after)
  {
    hide AttentionSpec.PushEvent, AttentionSpec.ExpirePanes, AttentionSpec.ExpireNotifs, ViewOfPane, Dedup.Sweep;
    var pane := AttentionSpec.PushEvent(AttentionSpec.FRESH_PANE, UnreadEvent(s.nextEventSeq, now, Info));
    var after := AttentionSpec.RecordPane(s, id, now, Info, now);
    assert s.panes[id := pane].Keys == s.panes.Keys + {id};
    assert |s.panes[id := pane]| <= IDENTITY_CAP;
    assert after.panes == s.panes[id := pane];
    var deltas := [Deltas.Delta(id, Some(ViewOfPane(pane)))];
    assert deltas[0].id == id;
    assert forall other :: other != id ==>
        Deltas.Shown(PaneViews(s.panes), other) == Deltas.Shown(PaneViews(after.panes), other);
  }

  /**
   * A server that records for pane "a" and then for pane "b". A client that joins in between, and gets the
   * second delta before its snapshot, never learns of "a".
   */
  lemma OvertakenSnapshotReachable() returns (run: ServerRun)
    ensures var ops := [OpRecordPane("a", 0, Info, 0), OpRecordPane("b", 0, Info, 0)];
            && IsRun(run, "e") && run.states == [Run("e", []), Run("e", ops[..1]), Run("e", ops)]
            && |run.updates| == 2
            && var r := ReceiveAll(EMPTY_STORE, Convergence.Subscription(run, 1, 1, 2, 2));
               && r.epoch == Some("e") && r.cacheRevision == run.states[2].revision
               && "a" in run.states[2].panes && "a" !in r.panes
  {
    hide IsDelta, AttentionSpec.RecordPane, AttentionSpec.PushEvent, ViewOfPane, Run, Convergence.Subscription, Step;
    var ops := [OpRecordPane("a", 0, Info, 0), OpRecordPane("b", 0, Info, 0)];
    var s0, s1, s2 := Run("e", []), Run("e", ops[..1]), Run("e", ops);
    var d1, d2 := TwoPanes();
    run := ServerRun([s0, s1, s2], [Some(d1), Some(d2)]);
    EpochOfDelta(d2, s1, s2);
    EpochOfDelta(d1, s0, s1);
    assert IsStep(run.updates[0], run.states[0], run.states[0 + 1]);
    assert IsStep(run.updates[1], run.states[1], run.states[1 + 1]);
    Convergence.OvertakenSnapshotFails(d2, s1, s2, "a");
    LateSnapshot(run, d2);
  }

  lemma LateSnapshot(run: ServerRun, d: StateDelta)
    requires |run.states| == 3 && |run.updates| == 2 && run.updates[1] == Some(d)
    ensures Convergence.Subscription(run, 1, 1, 2, 2) == [DeltaMessage(d), SnapshotMessage(SnapshotOf(run.states[1]))]
  {
    hide SnapshotOf;
    assert Convergence.Published(run, 1, 1) == [] && Convergence.Published(run, 2, 2) == [];
    assert Convergence.Published(run, 1, 2) == [] + [DeltaMessage(d)];
  }

  /** The two steps of that server. */
  lemma TwoPanes() returns (d1: StateDelta, d2: StateDelta)
    ensures var ops := [OpRecordPane("a", 0, Info, 0), OpRecordPane("b", 0, Info, 0)];
            var s0, s1, s2 := Run("e", []), Run("e", ops[..1]), Run("e", ops);
            && s0 == InitialLedger("e") && IsDelta(d1, s0, s1) && IsDelta(d2, s1, s2)
            && "a" in s1.panes && "a" in s2.panes && !Deltas.Lists(d2.panes, "a")
  {
    hide IsDelta, AttentionSpec.RecordPane, AttentionSpec.PushEvent, ViewOfPane, AttentionSpec.Expire;
    var ops := [OpRecordPane("a", 0, Info, 0), OpRecordPane("b", 0, Info, 0)];
    var s0, s1 := InitialLedger("e"), Run("e", ops[..1]);
    assert Run("e", []) == s0;
    assert ops[..1] == [ops[0]] && ops[..1][..0] == [];
    assert s1 == Step(s0, ops[0]) && Run("e", ops) == Step(s1, ops[1]);
    var pane := AttentionSpec.PushEvent(AttentionSpec.FRESH_PANE, UnreadEvent(1, 0, Info));
    NothingExpires(s0, pane);
    NewPaneDelta(s0, "a", 0);
    NothingExpires(s1, pane);
    NewPaneDelta(s1, "b", 0);
    var pane2 := AttentionSpec.PushEvent(AttentionSpec.FRESH_PANE, UnreadEvent(s1.nextEventSeq, 0, Info));
    d1 := StateDelta(s0.epoch, s0.revision + 1, [Deltas.Delta("a", Some(ViewOfPane(pane)))], []);
    d2 := StateDelta(s1.epoch, s1.revision + 1, [Deltas.Delta("b", Some(ViewOfPane(pane2)))], []);
  }

  lemma EpochOfDelta(d: StateDelta, before: Ledger, after: Ledger)
    requires IsDelta(d, before, after)
    ensures d.epoch == before.epoch == after.epoch && d.revision == after.revision == before.revision + 1
  {
  }

  /** At time 0 nothing can expire. */
  lemma NothingExpires(s: Ledger, pane: PaneAttention)
    requires s.notifs == map[]
    requires s.panes == map[] || s.panes == map["a" := pane]
    requires pane == AttentionSpec.PushEvent(AttentionSpec.FRESH_PANE, UnreadEvent(1, 0, Info))
    ensures AttentionSpec.Expire(s, 0).panes == s.panes && AttentionSpec.Expire(s, 0).notifs == s.notifs
  {
    assert pane.unread == [UnreadEvent(1, 0, Info)];
    assert AttentionSpec.LiveSuffix(pane.unread, 0) == pane.unread;
    assert AttentionSpec.ExpirePane(pane, 0) == pane;
  }
}
