/**
 * When replicas agree with the server, for every stream of messages a client can get: in any order,
 * repeated, with gaps, from several server processes, with snapshots that come late.
 */
module Convergence {
  import opened Common
  import opened Deltas
  import opened AttentionTypes
  import opened LiveLedger
  import opened Replica

  // ---- what a store was last told ----

  /** Whether the store takes the message's content. */
  predicate Takes(r: Store, m: Message) {
    match m
    case DeltaMessage(d) =>
      !r.awaitingSnapshot && (r.epoch.None? || d.epoch == r.epoch.value) && d.revision > r.cacheRevision
    case SnapshotMessage(s) => r.epoch != Some(s.epoch) || s.revision >= r.cacheRevision
    case ResyncRequired => false
  }

  /** The revision of the last message the store took that says something about pane `id`; 0 if there is none. */
  function PaneToldAt(stream: seq<Message>, id: Id): nat {
    if stream == [] then 0
    else
      var init, m := stream[..|stream| - 1], stream[|stream| - 1];
      if !Takes(ReceiveAll(EMPTY_STORE, init), m) then PaneToldAt(init, id)
      else
        match m
        case SnapshotMessage(s) => s.revision
        case DeltaMessage(d) => if Lists(d.panes, id) then d.revision else PaneToldAt(init, id)
        case ResyncRequired => PaneToldAt(init, id)
  }

  function NotifToldAt(stream: seq<Message>, id: Id): nat {
    if stream == [] then 0
    else
      var init, m := stream[..|stream| - 1], stream[|stream| - 1];
      if !Takes(ReceiveAll(EMPTY_STORE, init), m) then NotifToldAt(init, id)
      else
        match m
        case SnapshotMessage(s) => s.revision
        case DeltaMessage(d) => if Lists(d.notifs, id) then d.revision else NotifToldAt(init, id)
        case ResyncRequired => NotifToldAt(init, id)
  }

  /** The server showed `view` for pane `id` at the revision. */
  ghost predicate PaneWas(run: ServerRun, revision: nat, id: Id, view: Option<PaneView>) {
    exists i :: 0 <= i < |run.states| && run.states[i].revision == revision
                && view == Shown(PaneViews(run.states[i].panes), id)
  }

  ghost predicate NotifWas(run: ServerRun, revision: nat, id: Id, view: Option<NotifView>) {
    exists i :: 0 <= i < |run.states| && run.states[i].revision == revision
                && view == Shown(NotifViews(run.states[i].notifs), id)
  }

  /** Each identity shows what the server showed at the revision of the last message taken about it. */
  ghost predicate ToldBy(world: World, stream: seq<Message>) {
    var r := ReceiveAll(EMPTY_STORE, stream);
    match r.epoch
    case None =>
      && (r == EMPTY_STORE || r == EMPTY_STORE.(awaitingSnapshot := true))
      && (forall id :: PaneToldAt(stream, id) == 0)
      && (forall id :: NotifToldAt(stream, id) == 0)
    case Some(epoch) =>
      && epoch in world
      && (exists i :: 0 <= i < |world[epoch].states| && world[epoch].states[i].revision == r.cacheRevision)
      && (forall id :: PaneWas(world[epoch], PaneToldAt(stream, id), id, Shown(r.panes, id)))
      && (forall id :: NotifWas(world[epoch], NotifToldAt(stream, id), id, Shown(r.notifs, id)))
  }

  /** Whatever genuine messages arrive, the store shows for each identity what it was last told about it. */
  lemma {:induction false} EachIdentityAsTold(world: World, stream: seq<Message>)
    requires IsWorld(world) && forall i :: 0 <= i < |stream| ==> Genuine(world, stream[i])
    ensures ToldBy(world, stream)
    decreases |stream|
  {
    hide IsWorld, Genuine, ToldBy;
    if stream == [] {
      assert ToldBy(world, []) by { NothingTold(world); }
    } else {
      var init := stream[..|stream| - 1];
      assert forall i :: 0 <= i < |init| ==> init[i] == stream[i];
      EachIdentityAsTold(world, init);
      var m := stream[|stream| - 1];
      if !Takes(ReceiveAll(EMPTY_STORE, init), m) {
        NotTaken(world, stream);
      } else if m.DeltaMessage? {
        DeltaTaken(world, stream);
      } else {
        SnapshotTaken(world, stream);
      }
    }
  }

  lemma NothingTold(world: World)
    ensures ToldBy(world, [])
  {
  }

  lemma NotTaken(world: World, stream: seq<Message>)
    requires stream != [] && ToldBy(world, stream[..|stream| - 1])
    requires !Takes(ReceiveAll(EMPTY_STORE, stream[..|stream| - 1]), stream[|stream| - 1])
    ensures ToldBy(world, stream)
  {
    hide PaneWas, NotifWas;
    var init := stream[..|stream| - 1];
    var r, r' := ReceiveAll(EMPTY_STORE, init), ReceiveAll(EMPTY_STORE, stream);
    assert r' == r || r' == r.(awaitingSnapshot := true);
    assert forall id :: PaneToldAt(stream, id) == PaneToldAt(init, id);
    assert forall id :: NotifToldAt(stream, id) == NotifToldAt(init, id);
  }

  lemma SnapshotTaken(world: World, stream: seq<Message>)
    requires stream != [] && Genuine(world, stream[|stream| - 1]) && IsWorld(world)
    requires Takes(ReceiveAll(EMPTY_STORE, stream[..|stream| - 1]), stream[|stream| - 1])
    requires stream[|stream| - 1].SnapshotMessage?
    ensures ToldBy(world, stream)
  {
    hide PaneViews, NotifViews, IsStep;
    var s := stream[|stream| - 1].snapshot;
    var run := world[s.epoch];
    var i :| 0 <= i < |run.states| && s == SnapshotOf(run.states[i]);
    RevisionsGrow(run, s.epoch, i, i);
    var r := ReceiveAll(EMPTY_STORE, stream);
    assert r == Store(Some(s.epoch), s.revision, false, s.panes, s.notifs);
    forall id
      ensures PaneWas(run, PaneToldAt(stream, id), id, Shown(r.panes, id))
      ensures NotifWas(run, NotifToldAt(stream, id), id, Shown(r.notifs, id))
    {
      assert PaneToldAt(stream, id) == NotifToldAt(stream, id) == run.states[i].revision;
    }
  }

  lemma DeltaTaken(world: World, stream: seq<Message>)
    requires stream != [] && Genuine(world, stream[|stream| - 1]) && IsWorld(world)
    requires ToldBy(world, stream[..|stream| - 1])
    requires Takes(ReceiveAll(EMPTY_STORE, stream[..|stream| - 1]), stream[|stream| - 1])
    requires stream[|stream| - 1].DeltaMessage?
    ensures ToldBy(world, stream)
  {
    hide PaneWas, NotifWas, Describes, PaneViews, NotifViews, IsWorld;
    var init, d := stream[..|stream| - 1], stream[|stream| - 1].delta;
    var r, r' := ReceiveAll(EMPTY_STORE, init), ReceiveAll(EMPTY_STORE, stream);
    assert IsRun(world[d.epoch], d.epoch) by { RunOf(world, d.epoch); }
    var run := world[d.epoch];
    var j :| 0 <= j < |run.updates| && run.updates[j] == Some(d);
    assert IsStep(run.updates[j], run.states[j], run.states[j + 1]);
    assert r' == Store(Some(d.epoch), d.revision, false, Apply(r.panes, d.panes), Apply(r.notifs, d.notifs));
    forall id
      ensures PaneWas(run, PaneToldAt(stream, id), id, Shown(r'.panes, id))
      ensures NotifWas(run, NotifToldAt(stream, id), id, Shown(r'.notifs, id))
    {
      if r.epoch.None? {
        NothingAtFirst(run, d.epoch, id);
      }
      PaneTold(run, j, d, r, id);
      NotifTold(run, j, d, r, id);
    }
    assert run.states[j + 1].revision == r'.cacheRevision;
  }

  lemma RunOf(world: World, epoch: string)
    requires IsWorld(world) && epoch in world
    ensures IsRun(world[epoch], epoch)
  {
  }

  lemma NothingAtFirst(run: ServerRun, epoch: string, id: Id)
    requires IsRun(run, epoch)
    ensures PaneWas(run, 0, id, None) && NotifWas(run, 0, id, None)
  {
    hide IsStep;
    EmptyViews(epoch);
    assert run.states[0].revision == 0;
  }

  lemma PaneTold(run: ServerRun, j: nat, d: StateDelta, r: Store, id: Id)
    requires j < |run.states| - 1 && IsDelta(d, run.states[j], run.states[j + 1])
    ensures Lists(d.panes, id) ==> PaneWas(run, d.revision, id, Shown(Apply(r.panes, d.panes), id))
    ensures !Lists(d.panes, id) ==> Shown(Apply(r.panes, d.panes), id) == Shown(r.panes, id)
  {
    hide PaneViews, NotifViews;
    ApplyShows(r.panes, d.panes, id);
    assert Lists(d.panes, id) ==>
        Shown(Apply(r.panes, d.panes), id) == Shown(PaneViews(run.states[j + 1].panes), id);
  }

  lemma NotifTold(run: ServerRun, j: nat, d: StateDelta, r: Store, id: Id)
    requires j < |run.states| - 1 && IsDelta(d, run.states[j], run.states[j + 1])
    ensures Lists(d.notifs, id) ==> NotifWas(run, d.revision, id, Shown(Apply(r.notifs, d.notifs), id))
    ensures !Lists(d.notifs, id) ==> Shown(Apply(r.notifs, d.notifs), id) == Shown(r.notifs, id)
  {
    hide PaneViews, NotifViews;
    ApplyShows(r.notifs, d.notifs, id);
    assert Lists(d.notifs, id) ==>
        Shown(Apply(r.notifs, d.notifs), id) == Shown(NotifViews(run.states[j + 1].notifs), id);
  }

  // ---- convergence ----

  /** The server showed the same for pane `id` at both revisions. */
  ghost predicate SamePane(run: ServerRun, id: Id, a: nat, b: nat) {
    forall view, view' :: PaneWas(run, a, id, view) && PaneWas(run, b, id, view') ==> view == view'
  }

  ghost predicate SameNotif(run: ServerRun, id: Id, a: nat, b: nat) {
    forall view, view' :: NotifWas(run, a, id, view) && NotifWas(run, b, id, view') ==> view == view'
  }

  /** Nothing that the store was told has changed on the server up to the store's revision. */
  ghost predicate NothingMissed(world: World, stream: seq<Message>) {
    var r := ReceiveAll(EMPTY_STORE, stream);
    r.epoch.Some? && r.epoch.value in world ==>
      && (forall id :: SamePane(world[r.epoch.value], id, PaneToldAt(stream, id), r.cacheRevision))
      && (forall id :: SameNotif(world[r.epoch.value], id, NotifToldAt(stream, id), r.cacheRevision))
  }

  /**
   * Convergence. Whatever genuine messages arrive, the store shows what the server showed at the store's
   * revision, exactly if no identity changed on the server between the last message that the store took
   * about it and the store's revision.
   */
  lemma ReplicasConverge(world: World, stream: seq<Message>)
    requires IsWorld(world) && forall i :: 0 <= i < |stream| ==> Genuine(world, stream[i])
    ensures Coherent(world, ReceiveAll(EMPTY_STORE, stream)) <==> NothingMissed(world, stream)
  {
    hide IsWorld, Genuine, PaneToldAt, NotifToldAt, ReceiveAll, PaneWas, NotifWas, SamePane, SameNotif, SnapshotOf;
    EachIdentityAsTold(world, stream);
    var r := ReceiveAll(EMPTY_STORE, stream);
    if r.epoch.Some? {
      var run := world[r.epoch.value];
      assert IsRun(run, r.epoch.value) by { RunOf(world, r.epoch.value); }
      var k :| 0 <= k < |run.states| && run.states[k].revision == r.cacheRevision;
      CoherentIffShown(world, r, k);
      forall id
        ensures SamePane(run, id, PaneToldAt(stream, id), r.cacheRevision)
                <==> Shown(r.panes, id) == Shown(PaneViews(run.states[k].panes), id)
        ensures SameNotif(run, id, NotifToldAt(stream, id), r.cacheRevision)
                <==> Shown(r.notifs, id) == Shown(NotifViews(run.states[k].notifs), id)
      {
        SamePaneIff(run, r.epoch.value, id, PaneToldAt(stream, id), Shown(r.panes, id), k);
        SameNotifIff(run, r.epoch.value, id, NotifToldAt(stream, id), Shown(r.notifs, id), k);
      }
    }
  }

  lemma CoherentIffShown(world: World, r: Store, k: nat)
    requires IsWorld(world) && r.epoch.Some? && r.epoch.value in world
    requires k < |world[r.epoch.value].states| && world[r.epoch.value].states[k].revision == r.cacheRevision
    ensures Coherent(world, r) <==>
            var s := world[r.epoch.value].states[k];
            && (forall id :: Shown(r.panes, id) == Shown(PaneViews(s.panes), id))
            && (forall id :: Shown(r.notifs, id) == Shown(NotifViews(s.notifs), id))
  {
    hide PaneViews, NotifViews, Shown, IsRun;
    var epoch := r.epoch.value;
    var run := world[epoch];
    assert IsRun(run, epoch);
    RevisionsGrow(run, epoch, k, k);
    if Coherent(world, r) {
      var i :| 0 <= i < |run.states|
          && SnapshotOf(run.states[i]) == Snapshot(epoch, r.cacheRevision, r.panes, r.notifs);
      SameRevision(run, epoch, i, k);
    } else if (forall id :: Shown(r.panes, id) == Shown(PaneViews(run.states[k].panes), id))
              && (forall id :: Shown(r.notifs, id) == Shown(NotifViews(run.states[k].notifs), id)) {
      SameShownSameTable(r.panes, PaneViews(run.states[k].panes));
      SameShownSameTable(r.notifs, NotifViews(run.states[k].notifs));
    }
  }

  lemma SameRevision(run: ServerRun, epoch: string, i: nat, k: nat)
    requires IsRun(run, epoch) && i < |run.states| && k < |run.states|
    requires run.states[i].revision == run.states[k].revision
    ensures SnapshotOf(run.states[i]) == SnapshotOf(run.states[k])
  {
    RevisionsGrow(run, epoch, if i <= k then i else k, if i <= k then k else i);
  }

  lemma SamePaneIff(run: ServerRun, epoch: string, id: Id, told: nat, view: Option<PaneView>, k: nat)
    requires IsRun(run, epoch) && k < |run.states| && PaneWas(run, told, id, view)
    ensures SamePane(run, id, told, run.states[k].revision) <==> view == Shown(PaneViews(run.states[k].panes), id)
  {
    hide PaneViews, NotifViews, Shown, IsRun;
    var now := Shown(PaneViews(run.states[k].panes), id);
    assert PaneWas(run, run.states[k].revision, id, now);
    forall i, j | 0 <= i < |run.states| && 0 <= j < |run.states| && run.states[i].revision == run.states[j].revision
      ensures PaneViews(run.states[i].panes) == PaneViews(run.states[j].panes)
    {
      SameRevision(run, epoch, i, j);
    }
  }

  lemma SameNotifIff(run: ServerRun, epoch: string, id: Id, told: nat, view: Option<NotifView>, k: nat)
    requires IsRun(run, epoch) && k < |run.states| && NotifWas(run, told, id, view)
    ensures SameNotif(run, id, told, run.states[k].revision) <==> view == Shown(NotifViews(run.states[k].notifs), id)
  {
    hide PaneViews, NotifViews, Shown, IsRun;
    var now := Shown(NotifViews(run.states[k].notifs), id);
    assert NotifWas(run, run.states[k].revision, id, now);
    forall i, j | 0 <= i < |run.states| && 0 <= j < |run.states| && run.states[i].revision == run.states[j].revision
      ensures NotifViews(run.states[i].notifs) == NotifViews(run.states[j].notifs)
    {
      SameRevision(run, epoch, i, j);
    }
  }

  // ---- a client that registers ----

  /** The deltas published from state `first` up to state `last`, in order. */
  function Published(run: ServerRun, first: nat, last: nat): seq<Message>
    requires first <= last <= |run.updates|
  {
    if first == last then []
    else
      Published(run, first, last - 1)
      + (if run.updates[last - 1].Some? then [DeltaMessage(run.updates[last - 1].value)] else [])
  }

  lemma {:induction false} ReceiveConcat(r: Store, a: seq<Message>, b: seq<Message>)
    ensures ReceiveAll(r, a + b) == ReceiveAll(ReceiveAll(r, a), b)
    decreases |b|
  {
    hide Receive;
    if b == [] {
      assert a + b == a;
    } else {
      assert (a + b)[..|a + b| - 1] == a + b[..|b| - 1];
      ReceiveConcat(r, a, b[..|b| - 1]);
    }
  }

  lemma {:induction false} PublishedConcat(run: ServerRun, first: nat, mid: nat, last: nat)
    requires first <= mid <= last <= |run.updates|
    ensures Published(run, first, last) == Published(run, first, mid) + Published(run, mid, last)
    decreases last
  {
    if mid < last {
      PublishedConcat(run, first, mid, last - 1);
    }
  }

  /** One more step of the run, seen by a store that gets its delta if there is one. */
  lemma NextPublished(run: ServerRun, epoch: string, r: Store, first: nat, last: nat)
    requires IsRun(run, epoch) && first < last <= |run.updates|
    ensures var update := run.updates[last - 1]; var before := ReceiveAll(r, Published(run, first, last - 1));
            && IsStep(update, run.states[last - 1], run.states[last])
            && ReceiveAll(r, Published(run, first, last)) ==
               if update.Some? then ApplyDelta(before, update.value) else before
  {
    hide IsStep, ApplyDelta;
    var update := run.updates[last - 1];
    assert IsStep(update, run.states[last - 1], run.states[last - 1 + 1]);
    var all := Published(run, first, last);
    if update.Some? {
      assert all[..|all| - 1] == Published(run, first, last - 1);
    } else {
      assert all == Published(run, first, last - 1);
    }
  }

  ghost predicate ShowsState(r: Store, s: Ledger) {
    r == Store(Some(s.epoch), s.revision, false, PaneViews(s.panes), NotifViews(s.notifs))
  }

  /** A store that shows one state of the server, and gets every later delta in order, shows every later state. */
  lemma {:induction false} DeltasFollow(run: ServerRun, epoch: string, r: Store, first: nat, last: nat)
    requires IsRun(run, epoch) && first <= last <= |run.updates| && ShowsState(r, run.states[first])
    ensures ShowsState(ReceiveAll(r, Published(run, first, last)), run.states[last])
    decreases last
  {
    hide Describes, PaneViews, NotifViews;
    RevisionsGrow(run, epoch, last, last);
    if first < last {
      DeltasFollow(run, epoch, r, first, last - 1);
      NextPublished(run, epoch, r, first, last);
      var update := run.updates[last - 1];
      RevisionsGrow(run, epoch, last - 1, last - 1);
      if update.Some? {
        DeltaAdvances(ReceiveAll(r, Published(run, first, last - 1)), update.value, run.states[last - 1],
            run.states[last]);
      }
    }
  }

  /** Some delta between the two states lists the pane. */
  ghost predicate PaneListed(run: ServerRun, first: nat, last: nat, id: Id)
    requires last <= |run.updates|
  {
    exists j :: first <= j < last && run.updates[j].Some? && Lists(run.updates[j].value.panes, id)
  }

  ghost predicate NotifListed(run: ServerRun, first: nat, last: nat, id: Id)
    requires last <= |run.updates|
  {
    exists j :: first <= j < last && run.updates[j].Some? && Lists(run.updates[j].value.notifs, id)
  }

  /** What a store knows that got the deltas from `first` to `last` and nothing else. */
  ghost predicate KnowsDeltas(run: ServerRun, epoch: string, r: Store, first: nat, last: nat)
    requires first <= last <= |run.updates| < |run.states|
  {
    && !r.awaitingSnapshot
    && (r.epoch.None? ==> r == EMPTY_STORE && run.states[first].revision == run.states[last].revision)
    && (r.epoch.Some? ==>
          r.epoch.value == epoch && run.states[first].revision < run.states[last].revision == r.cacheRevision)
    && (forall id :: Shown(r.panes, id) ==
          if PaneListed(run, first, last, id) then Shown(PaneViews(run.states[last].panes), id) else None)
    && (forall id :: Shown(r.notifs, id) ==
          if NotifListed(run, first, last, id) then Shown(NotifViews(run.states[last].notifs), id) else None)
    && (forall id :: !PaneListed(run, first, last, id) ==>
          Shown(PaneViews(run.states[first].panes), id) == Shown(PaneViews(run.states[last].panes), id))
    && (forall id :: !NotifListed(run, first, last, id) ==>
          Shown(NotifViews(run.states[first].notifs), id) == Shown(NotifViews(run.states[last].notifs), id))
  }

  lemma {:induction false} DeltasAlone(run: ServerRun, epoch: string, first: nat, last: nat)
    requires IsRun(run, epoch) && first <= last <= |run.updates|
    ensures KnowsDeltas(run, epoch, ReceiveAll(EMPTY_STORE, Published(run, first, last)), first, last)
    decreases last
  {
    hide KnowsDeltas, IsRun, IsDelta, ApplyDelta;
    assert |run.states| == |run.updates| + 1 by { RunLength(run, epoch); }
    if first == last {
      NoDeltas(run, epoch, first);
    } else {
      DeltasAlone(run, epoch, first, last - 1);
      NextPublished(run, epoch, EMPTY_STORE, first, last);
      var r := ReceiveAll(EMPTY_STORE, Published(run, first, last - 1));
      RevisionsGrow(run, epoch, first, last - 1);
      RevisionsGrow(run, epoch, last, last);
      if run.updates[last - 1].Some? {
        OneMoreDelta(run, epoch, r, run.updates[last - 1].value, first, last);
      } else {
        NoMoreDelta(run, epoch, r, first, last);
      }
    }
  }

  lemma RunLength(run: ServerRun, epoch: string)
    requires IsRun(run, epoch)
    ensures |run.states| == |run.updates| + 1
  {
  }

  lemma NoDeltas(run: ServerRun, epoch: string, first: nat)
    requires first <= |run.updates| < |run.states|
    ensures KnowsDeltas(run, epoch, EMPTY_STORE, first, first)
  {
    hide PaneViews, NotifViews;
  }

  lemma ListedNext(run: ServerRun, first: nat, last: nat)
    requires first < last <= |run.updates|
    ensures forall id :: PaneListed(run, first, last, id) <==>
              PaneListed(run, first, last - 1, id)
              || (run.updates[last - 1].Some? && Lists(run.updates[last - 1].value.panes, id))
    ensures forall id :: NotifListed(run, first, last, id) <==>
              NotifListed(run, first, last - 1, id)
              || (run.updates[last - 1].Some? && Lists(run.updates[last - 1].value.notifs, id))
  {
    hide Lists;
  }

  lemma NoMoreDelta(run: ServerRun, epoch: string, r: Store, first: nat, last: nat)
    requires first < last <= |run.updates| < |run.states| && KnowsDeltas(run, epoch, r, first, last - 1)
    requires run.updates[last - 1].None? && IsStep(None, run.states[last - 1], run.states[last])
    ensures KnowsDeltas(run, epoch, r, first, last)
  {
    hide PaneViews, NotifViews, PaneListed, NotifListed;
    ListedNext(run, first, last);
  }

  lemma OneMoreDelta(run: ServerRun, epoch: string, r: Store, d: StateDelta, first: nat, last: nat)
    requires first < last <= |run.updates| < |run.states| && KnowsDeltas(run, epoch, r, first, last - 1)
    requires run.updates[last - 1] == Some(d) && IsDelta(d, run.states[last - 1], run.states[last])
    requires run.states[last].epoch == epoch && run.states[first].revision <= run.states[last - 1].revision
    ensures KnowsDeltas(run, epoch, ApplyDelta(r, d), first, last)
  {
    hide PaneViews, NotifViews, PaneListed, NotifListed, Lists;
    ListedNext(run, first, last);
    var r' := ApplyDelta(r, d);
    assert r' == Store(Some(epoch), d.revision, false, Apply(r.panes, d.panes), Apply(r.notifs, d.notifs));
    forall id
      ensures Shown(r'.panes, id) ==
              if Lists(d.panes, id) then Shown(PaneViews(run.states[last].panes), id) else Shown(r.panes, id)
      ensures !Lists(d.panes, id) ==>
                Shown(PaneViews(run.states[last - 1].panes), id) == Shown(PaneViews(run.states[last].panes), id)
      ensures Shown(r'.notifs, id) ==
              if Lists(d.notifs, id) then Shown(NotifViews(run.states[last].notifs), id) else Shown(r.notifs, id)
      ensures !Lists(d.notifs, id) ==>
                Shown(NotifViews(run.states[last - 1].notifs), id) == Shown(NotifViews(run.states[last].notifs), id)
    {
      AppliedOrKept(d.panes, r.panes, PaneViews(run.states[last - 1].panes), PaneViews(run.states[last].panes), id);
      AppliedOrKept(d.notifs, r.notifs, NotifViews(run.states[last - 1].notifs), NotifViews(run.states[last].notifs),
          id);
    }
  }

  /** What a list of changes does to another table than the one it was made for. */
  lemma AppliedOrKept<V(!new)>(deltas: seq<Delta<V>>, copy: map<Id, V>, before: map<Id, V>, after: map<Id, V>, id: Id)
    requires Describes(deltas, before, after)
    ensures Shown(Apply(copy, deltas), id) == if Lists(deltas, id) then Shown(after, id) else Shown(copy, id)
    ensures !Lists(deltas, id) ==> Shown(before, id) == Shown(after, id)
  {
    ApplyShows(copy, deltas, id);
  }

  /** All panes and notifications that the server showed when the client joined have been listed since. */
  ghost predicate AllListed(run: ServerRun, joined: nat, last: nat)
    requires joined <= last <= |run.updates| < |run.states|
  {
    && (forall id :: id in run.states[joined].panes ==> PaneListed(run, joined, last, id))
    && (forall id :: id in run.states[joined].notifs ==> NotifListed(run, joined, last, id))
  }

  /**
   * What a new client gets: every delta from the moment it joined, in order, and somewhere among them
   * the snapshot. The snapshot is of state `taken` and is sent when the server is already in state
   * `sent`, because the ledger is not locked in between.
   */
  function Subscription(run: ServerRun, joined: nat, taken: nat, sent: nat, last: nat): seq<Message>
    requires joined <= taken <= sent <= last <= |run.updates| < |run.states|
  {
    Published(run, joined, sent) + [SnapshotMessage(SnapshotOf(run.states[taken]))] + Published(run, sent, last)
  }

  /**
   * A new client always arrives at the server's epoch and revision. It shows the server's state exactly
   * if no delta overtook the snapshot, or everything there was when it joined has been listed since.
   */
  lemma SubscriberConverges(run: ServerRun, epoch: string, joined: nat, taken: nat, sent: nat, last: nat)
    requires IsRun(run, epoch) && joined <= taken <= sent <= last <= |run.updates|
    ensures var r := ReceiveAll(EMPTY_STORE, Subscription(run, joined, taken, sent, last));
            && r.epoch == Some(epoch) && r.cacheRevision == run.states[last].revision && !r.awaitingSnapshot
            && (ShowsState(r, run.states[last]) <==>
                run.states[taken].revision == run.states[sent].revision || AllListed(run, joined, last))
  {
    hide IsRun, KnowsDeltas, ApplyDelta, PaneViews, NotifViews, AllListed;
    RunLength(run, epoch);
    var early, snapshot := Published(run, joined, sent), SnapshotMessage(SnapshotOf(run.states[taken]));
    var r := ReceiveAll(EMPTY_STORE, early);
    DeltasAlone(run, epoch, joined, sent);
    RevisionsGrow(run, epoch, joined, taken);
    RevisionsGrow(run, epoch, taken, sent);
    RevisionsGrow(run, epoch, sent, last);
    ReceiveConcat(EMPTY_STORE, early + [snapshot], Published(run, sent, last));
    ReceiveConcat(EMPTY_STORE, early, [snapshot]);
    assert ReceiveAll(r, [snapshot]) == Receive(r, snapshot) by { assert [snapshot][..0] == []; }
    SnapshotAfterDeltas(run, epoch, r, joined, taken, sent);
    if run.states[taken].revision == run.states[sent].revision {
      DeltasFollow(run, epoch, Receive(r, snapshot), sent, last);
      RevisionsGrow(run, epoch, last, last);
    } else {
      ReceiveConcat(EMPTY_STORE, early, Published(run, sent, last));
      PublishedConcat(run, joined, sent, last);
      DeltasAlone(run, epoch, joined, last);
      RevisionsGrow(run, epoch, last, last);
      ListedIsRight(run, epoch, ReceiveAll(EMPTY_STORE, Published(run, joined, last)), joined, last);
    }
  }

  /** The snapshot is taken if no delta overtook it, and dropped as older otherwise. */
  lemma SnapshotAfterDeltas(run: ServerRun, epoch: string, r: Store, joined: nat, taken: nat, sent: nat)
    requires IsRun(run, epoch) && joined <= taken <= sent <= |run.updates| < |run.states|
    requires KnowsDeltas(run, epoch, r, joined, sent)
    ensures var r' := ApplySnapshot(r, SnapshotOf(run.states[taken]));
            if run.states[taken].revision == run.states[sent].revision
            then ShowsState(r', run.states[sent]) else r' == r
  {
    hide PaneViews, NotifViews, Shown, IsRun;
    RevisionsGrow(run, epoch, joined, taken);
    RevisionsGrow(run, epoch, taken, sent);
  }

  lemma ListedIsRight(run: ServerRun, epoch: string, r: Store, first: nat, last: nat)
    requires first <= last <= |run.updates| < |run.states| && KnowsDeltas(run, epoch, r, first, last)
    requires run.states[first].revision < run.states[last].revision && run.states[last].epoch == epoch
    ensures r.epoch == Some(epoch) && r.cacheRevision == run.states[last].revision && !r.awaitingSnapshot
    ensures ShowsState(r, run.states[last]) <==> AllListed(run, first, last)
  {
    hide PaneListed, NotifListed;
    var before, after := run.states[first], run.states[last];
    assert forall id :: id in before.panes <==> Shown(PaneViews(before.panes), id).Some?;
    assert forall id :: id in before.notifs <==> Shown(NotifViews(before.notifs), id).Some?;
    if AllListed(run, first, last) {
      SameShownSameTable(r.panes, PaneViews(after.panes));
      SameShownSameTable(r.notifs, NotifViews(after.notifs));
    }
  }

  /** An input where it does not: a delta comes before the snapshot and leaves out a pane that exists. */
  lemma OvertakenSnapshotFails(d: StateDelta, before: Ledger, after: Ledger, id: Id)
    requires IsDelta(d, before, after) && id in before.panes && !Lists(d.panes, id)
    ensures var r := ReceiveAll(EMPTY_STORE, [DeltaMessage(d), SnapshotMessage(SnapshotOf(before))]);
            && r.epoch == Some(after.epoch) && r.cacheRevision == after.revision && !r.awaitingSnapshot
            && id in after.panes && id !in r.panes
  {
    var stream := [DeltaMessage(d), SnapshotMessage(SnapshotOf(before))];
    assert stream[..1] == [DeltaMessage(d)] && stream[..1][..0] == [];
    assert ReceiveAll(EMPTY_STORE, []) == EMPTY_STORE;
    AppliedOrKept(d.panes, map[], PaneViews(before.panes), PaneViews(after.panes), id);
    assert Shown(PaneViews(before.panes), id).Some?;
  }
}
