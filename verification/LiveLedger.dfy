/** The attention ledger as the object the source has: `AttentionLedger` of `src/attention/ledger.rs`. */
module LiveLedger {
  import opened Common
  import opened Deltas
  import opened AttentionTypes
  import opened AttentionSpec
  import opened AttentionInvariant
  import Dedup
  import Eviction

  /** `delta` is the one step from `before` to `after`. */
  ghost predicate IsDelta(delta: StateDelta, before: Ledger, after: Ledger) {
    && delta.epoch == before.epoch == after.epoch
    && delta.revision == after.revision == before.revision + 1
    && Describes(delta.panes, PaneViews(before.panes), PaneViews(after.panes))
    && Describes(delta.notifs, NotifViews(before.notifs), NotifViews(after.notifs))
  }

  /** There is a delta exactly when replicas can see a difference, and it is that difference. */
  ghost predicate IsUpdate(delta: Option<StateDelta>, before: Ledger, after: Ledger) {
    match delta
    case None => SnapshotOf(before) == SnapshotOf(after)
    case Some(d) =>
      && IsDelta(d, before, after)
      && (PaneViews(before.panes) != PaneViews(after.panes) || NotifViews(before.notifs) != NotifViews(after.notifs))
  }

  function PushUnique(values: seq<Id>, value: Id): seq<Id> {
    if value in values then values else values + [value]
  }

  class AttentionLedger {
    const epoch: string
    var nextEventSeq: nat
    var nextDedupGeneration: nat
    var revision: nat
    var panes: map<Id, PaneAttention>
    var notifs: map<Id, NotifAttention>
    var dedup: map<DedupKey, DedupEntry>
    ghost var log: Log

    function State(): Ledger
      reads this
    {
      Ledger(epoch, nextEventSeq, revision, panes, notifs, DedupTable(nextDedupGeneration, dedup))
    }

    ghost predicate Valid()
      reads this
    {
      Invariant(State(), log)
    }

    constructor WithEpoch(epoch: string)
      ensures Valid() && State() == InitialLedger(epoch) && log == []
    {
      this.epoch := epoch;
      nextEventSeq, nextDedupGeneration, revision := 1, 1, 0;
      panes, notifs, dedup := map[], map[], map[];
      log := [];
    }

    // ---- expiry ----

    /** The expiry step for one queue: pops expired events from its front. */
    method PopExpired(unread: seq<UnreadEvent>, now: nat) returns (rest: seq<UnreadEvent>)
      ensures rest == LiveSuffix(unread, now)
    {
      rest := unread;
      ghost var popped := 0;
      while rest != [] && IsExpired(rest[0].occurredAt, UNREAD_TTL, now)
        invariant popped <= |unread| && rest == unread[popped..]
        invariant LeadingExpired(unread, now, 0) == LeadingExpired(unread, now, popped)
        decreases |rest|
      {
        rest := rest[1..];
        popped := popped + 1;
      }
    }

    /** First pass of `expire_into` over the panes; says which panes it changed. */
    method ExpirePaneQueues(now: nat) returns (changed: seq<Id>)
      requires PanesOk(panes, log)
      modifies this`panes
      ensures panes == map id | id in old(panes) :: ExpirePane(old(panes)[id], now)
      ensures forall id :: id in changed <==> id in old(panes) && ExpirePane(old(panes)[id], now) != old(panes)[id]
    {
      hide PaneOk, PaneOwned, ExpirePane;
      ghost var before := panes;
      changed := [];
      var todo := panes.Keys;
      while todo != {}
        invariant todo <= before.Keys == panes.Keys
        invariant forall id :: id in before ==>
                    panes[id] == if id in todo then before[id] else ExpirePane(before[id], now)
        invariant forall id :: id in changed <==>
                    id in before && id !in todo && ExpirePane(before[id], now) != before[id]
        decreases |todo|
      {
        var id :| id in todo;
        ExpirePaneKeeps(id, panes[id], log, now);
        var pane, shrunk := ExpireQueue(panes[id], now);
        if shrunk {
          changed := PushUnique(changed, id);
        }
        panes := panes[id := pane];
        todo := todo - {id};
      }
    }

    /** The body of that loop: the pane afterwards, and whether it has lost events. */
    method ExpireQueue(pane: PaneAttention, now: nat) returns (r: PaneAttention, shrunk: bool)
      ensures r == ExpirePane(pane, now)
      ensures shrunk <==> |r.unread| < |pane.unread|
    {
      r, shrunk := pane, false;
      var rest := PopExpired(pane.unread, now);
      if pane.unread != [] && rest == [] {
        r := r.(unread := rest, readThroughSeq := pane.latestEventSeq, readAt := Some(now));
        shrunk := true;
      } else if |rest| < |pane.unread| {
        r := r.(unread := rest);
        shrunk := true;
      }
    }

    /** Second pass: drops panes whose retention period is over; says which ones. */
    method CollectPanes(now: nat) returns (removed: seq<Id>)
      modifies this`panes
      ensures panes == map id | id in old(panes) && !PaneCollectable(old(panes)[id], now) :: old(panes)[id]
      ensures forall id :: id in removed <==> id in old(panes) && PaneCollectable(old(panes)[id], now)
    {
      hide PaneCollectable;
      ghost var before := panes;
      removed := [];
      var todo := panes.Keys;
      while todo != {}
        invariant todo <= before.Keys
        invariant panes == map id | id in before && (id in todo || !PaneCollectable(before[id], now)) :: before[id]
        invariant forall id :: id in removed <==> id in before && id !in todo && PaneCollectable(before[id], now)
        decreases |todo|
      {
        var id :| id in todo;
        if PaneCollectable(panes[id], now) {
          removed := removed + [id];
          panes := panes - {id};
        }
        todo := todo - {id};
      }
    }

    method ExpirePanesInto(now: nat) returns (deltas: seq<Delta<PaneView>>)
      requires PanesOk(panes, log)
      modifies this`panes
      ensures panes == ExpirePanes(old(panes), now)
      ensures Describes(deltas, PaneViews(old(panes)), PaneViews(panes))
      ensures Minimal(deltas, PaneViews(old(panes)), PaneViews(panes))
    {
      hide PaneOk, PaneOwned, ExpirePane, PaneCollectable, ViewOfPane;
      ghost var before := panes;
      var changed := ExpirePaneQueues(now);
      var removed := CollectPanes(now);
      forall id | id in changed
        ensures ViewOfPane(ExpirePane(before[id], now)) != ViewOfPane(before[id])
        ensures !PaneCollectable(ExpirePane(before[id], now), now)
      {
        ExpirePaneKeeps(id, before[id], log, now);
      }
      ghost var pending := Elements(changed) + Elements(removed);
      deltas := UpsertAll([], changed, PaneViews(panes), PaneViews(before), pending);
      deltas := UpsertAll(deltas, removed, PaneViews(panes), PaneViews(before), pending - Elements(changed));
      assert pending - Elements(changed) - Elements(removed) == {};
      MinimalWithin(deltas, PaneViews(before), PaneViews(panes), pending);
    }

    method ExpireNotifFlags(now: nat) returns (changed: seq<Id>)
      modifies this`notifs
      ensures notifs == map id | id in old(notifs) :: ExpireNotif(old(notifs)[id], now)
      ensures forall id :: id in changed <==> id in old(notifs) && ExpireNotif(old(notifs)[id], now) != old(notifs)[id]
    {
      ghost var before := notifs;
      changed := [];
      var todo := notifs.Keys;
      while todo != {}
        invariant todo <= before.Keys == notifs.Keys
        invariant forall id :: id in before ==>
                    notifs[id] == if id in todo then before[id] else ExpireNotif(before[id], now)
        invariant forall id :: id in changed <==>
                    id in before && id !in todo && ExpireNotif(before[id], now) != before[id]
        decreases |todo|
      {
        var id :| id in todo;
        var notif := notifs[id];
        if !notif.read && IsExpired(notif.occurredAt, UNREAD_TTL, now) {
          notif := notif.(read := true, readAt := Some(now));
          changed := PushUnique(changed, id);
        }
        notifs := notifs[id := notif];
        todo := todo - {id};
      }
    }

    method CollectNotifs(now: nat) returns (removed: seq<Id>)
      modifies this`notifs
      ensures notifs == map id | id in old(notifs) && !NotifCollectable(old(notifs)[id], now) :: old(notifs)[id]
      ensures forall id :: id in removed <==> id in old(notifs) && NotifCollectable(old(notifs)[id], now)
    {
      hide NotifCollectable;
      ghost var before := notifs;
      removed := [];
      var todo := notifs.Keys;
      while todo != {}
        invariant todo <= before.Keys
        invariant notifs == map id | id in before && (id in todo || !NotifCollectable(before[id], now)) :: before[id]
        invariant forall id :: id in removed <==> id in before && id !in todo && NotifCollectable(before[id], now)
        decreases |todo|
      {
        var id :| id in todo;
        if NotifCollectable(notifs[id], now) {
          removed := removed + [id];
          notifs := notifs - {id};
        }
        todo := todo - {id};
      }
    }

    method ExpireNotifsInto(now: nat) returns (deltas: seq<Delta<NotifView>>)
      modifies this`notifs
      ensures notifs == ExpireNotifs(old(notifs), now)
      ensures Describes(deltas, NotifViews(old(notifs)), NotifViews(notifs))
      ensures Minimal(deltas, NotifViews(old(notifs)), NotifViews(notifs))
    {
      ghost var before := notifs;
      var changed := ExpireNotifFlags(now);
      var removed := CollectNotifs(now);
      ghost var pending := Elements(changed) + Elements(removed);
      deltas := UpsertAll([], changed, NotifViews(notifs), NotifViews(before), pending);
      deltas := UpsertAll(deltas, removed, NotifViews(notifs), NotifViews(before), pending - Elements(changed));
      assert pending - Elements(changed) - Elements(removed) == {};
      MinimalWithin(deltas, NotifViews(before), NotifViews(notifs), pending);
    }

    method ExpireInto(now: nat) returns (paneDeltas: seq<Delta<PaneView>>, notifDeltas: seq<Delta<NotifView>>)
      requires Valid()
      modifies this`panes, this`notifs, this`dedup
      ensures Valid() && State() == Expire(old(State()), now)
      ensures Describes(paneDeltas, PaneViews(old(panes)), PaneViews(panes))
      ensures Minimal(paneDeltas, PaneViews(old(panes)), PaneViews(panes))
      ensures Describes(notifDeltas, NotifViews(old(notifs)), NotifViews(notifs))
      ensures Minimal(notifDeltas, NotifViews(old(notifs)), NotifViews(notifs))
    {
      hide PanesOk, NotifsOk, ExpirePanes, ExpireNotifs, Describes, Minimal;
      ghost var before := State();
      ExpireKeeps(before, log, now);
      dedup := Dedup.Sweep(DedupTable(nextDedupGeneration, dedup), now).entries;
      paneDeltas := ExpirePanesInto(now);
      notifDeltas := ExpireNotifsInto(now);
      assert State() == Expire(before, now);
    }

    // ---- identity caps ----

    method EnforcePaneCap(deltas: seq<Delta<PaneView>>, ghost before: map<Id, PaneView>)
      returns (r: seq<Delta<PaneView>>)
      requires PanesOk(panes, log) && |panes| <= IDENTITY_CAP + 1
      requires Describes(deltas, before, PaneViews(panes))
      modifies this`panes
      ensures panes == Eviction.CapPanes(old(panes))
      ensures Describes(r, before, PaneViews(panes))
      ensures |old(panes)| <= IDENTITY_CAP ==> r == deltas
    {
      hide PaneOk, PaneOwned, DescribesExcept;
      r := deltas;
      while |panes| > IDENTITY_CAP
        invariant panes == old(panes) || panes == Eviction.CapPanes(old(panes))
        invariant |panes| > IDENTITY_CAP ==> panes == old(panes)
        invariant |panes| <= IDENTITY_CAP ==> panes == Eviction.CapPanes(old(panes))
        invariant PanesOk(panes, log) && |panes| <= IDENTITY_CAP + 1
        invariant Describes(r, before, PaneViews(panes))
        invariant panes == old(panes) ==> r == deltas
        decreases |panes|
      {
        ghost var expected := CapPanesKeeps(panes, log);
        PaneRanksDistinct(panes, log);
        var victim := Eviction.MinBy(Eviction.PaneCandidates(panes), Eviction.PaneRanks(panes));
        assert Eviction.PaneVictim(panes, victim);
        Dropped(r, before, PaneViews(panes), PaneViews(panes - {victim}), victim);
        panes := panes - {victim};
        r := Upsert(r, Delta(victim, None));
      }
    }

    method EnforceNotifCap(deltas: seq<Delta<NotifView>>, ghost before: map<Id, NotifView>)
      returns (r: seq<Delta<NotifView>>)
      requires NotifsOk(notifs, log) && |notifs| <= IDENTITY_CAP + 1
      requires Describes(deltas, before, NotifViews(notifs))
      modifies this`notifs
      ensures notifs == Eviction.CapNotifs(old(notifs))
      ensures Describes(r, before, NotifViews(notifs))
      ensures |old(notifs)| <= IDENTITY_CAP ==> r == deltas
    {
      hide NotifOk, DescribesExcept;
      r := deltas;
      while |notifs| > IDENTITY_CAP
        invariant |notifs| > IDENTITY_CAP ==> notifs == old(notifs)
        invariant |notifs| <= IDENTITY_CAP ==> notifs == Eviction.CapNotifs(old(notifs))
        invariant NotifsOk(notifs, log) && |notifs| <= IDENTITY_CAP + 1
        invariant Describes(r, before, NotifViews(notifs))
        invariant |old(notifs)| <= IDENTITY_CAP ==> r == deltas
        decreases |notifs|
      {
        ghost var expected := CapNotifsKeeps(notifs, log);
        NotifRanksDistinct(notifs, log);
        var victim := Eviction.MinBy(Eviction.NotifCandidates(notifs), Eviction.NotifRanks(notifs));
        assert Eviction.NotifVictim(notifs, victim);
        Dropped(r, before, NotifViews(notifs), NotifViews(notifs - {victim}), victim);
        notifs := notifs - {victim};
        r := Upsert(r, Delta(victim, None));
      }
    }

    // ---- deltas ----

    method BumpRevision() returns (r: nat)
      modifies this`revision
      ensures r == revision == old(revision) + 1
    {
      revision := revision + 1;
      r := revision;
    }

    /** A delta, and a new revision, only if anything is listed. */
    method FinishDelta(paneDeltas: seq<Delta<PaneView>>, notifDeltas: seq<Delta<NotifView>>, ghost before: Ledger)
      returns (delta: Option<StateDelta>)
      requires before.epoch == epoch && before.revision == revision
      requires Describes(paneDeltas, PaneViews(before.panes), PaneViews(panes))
      requires Minimal(paneDeltas, PaneViews(before.panes), PaneViews(panes))
      requires Describes(notifDeltas, NotifViews(before.notifs), NotifViews(notifs))
      requires Minimal(notifDeltas, NotifViews(before.notifs), NotifViews(notifs))
      modifies this`revision
      ensures State() == Commit(before, old(State()))
      ensures IsUpdate(delta, before, State())
    {
      hide Describes, Minimal, PaneViews, NotifViews;
      EmptyIffUnchanged(paneDeltas, PaneViews(before.panes), PaneViews(panes));
      EmptyIffUnchanged(notifDeltas, NotifViews(before.notifs), NotifViews(notifs));
      if paneDeltas == [] && notifDeltas == [] {
        return None;
      }
      var next := BumpRevision();
      delta := Some(StateDelta(epoch, next, paneDeltas, notifDeltas));
    }

    method TakeEventSeq() returns (seqNo: nat)
      modifies this`nextEventSeq
      ensures seqNo == old(nextEventSeq) && nextEventSeq == old(nextEventSeq) + 1
    {
      seqNo := nextEventSeq;
      nextEventSeq := nextEventSeq + 1;
    }

    // ---- the operations ----

    method RecordPaneEvent(id: Id, occurredAt: nat, severity: Severity, now: nat)
      returns (eventSeq: nat, delta: StateDelta)
      requires Valid()
      modifies this
      ensures Valid() && log == old(log) + [Pane(id)]
      ensures State() == RecordPane(old(State()), id, occurredAt, severity, now)
      ensures eventSeq == old(nextEventSeq)
      ensures IsDelta(delta, old(State()), State())
    {
      hide Invariant, PanesOk, NotifsOk, ExpirePanes, ExpireNotifs, Describes, Minimal, PushEvent, Eviction.CapPanes,
           Eviction.CapNotifs;
      ghost var before := State();
      RecordPaneKeeps(before, log, id, occurredAt, severity, now);
      var paneDeltas, notifDeltas := ExpireInto(now);
      QueuedOk(State(), log, id, UnreadEvent(nextEventSeq, occurredAt, severity));
      eventSeq := TakeEventSeq();
      paneDeltas := QueueEvent(id, UnreadEvent(eventSeq, occurredAt, severity), paneDeltas, PaneViews(before.panes));
      paneDeltas := EnforcePaneCap(paneDeltas, PaneViews(before.panes));
      notifDeltas := EnforceNotifCap(notifDeltas, NotifViews(before.notifs));
      var next := BumpRevision();
      delta := StateDelta(epoch, next, paneDeltas, notifDeltas);
    }

    /** Appends an event to its pane's queue, creating the pane if need be. */
    method QueueEvent(id: Id, event: UnreadEvent, deltas: seq<Delta<PaneView>>, ghost before: map<Id, PaneView>)
      returns (r: seq<Delta<PaneView>>)
      requires Describes(deltas, before, PaneViews(panes))
      modifies this`panes, this`log
      ensures panes == old(panes)[id := PushEvent(if id in old(panes) then old(panes)[id] else FRESH_PANE, event)]
      ensures log == old(log) + [Pane(id)]
      ensures Describes(r, before, PaneViews(panes))
    {
      hide Describes, ViewOfPane;
      var pane := if id in panes then panes[id] else PaneAttention(0, 0, [], None);
      pane := pane.(latestEventSeq := event.seqNo, unread := pane.unread + [event], readAt := None);
      pane := CapUnread(pane);
      Changed(deltas, before, PaneViews(panes), PaneViews(panes[id := pane]), id);
      panes := panes[id := pane];
      log := log + [Pane(id)];
      r := Upsert(deltas, Delta(id, Some(ViewOfPane(pane))));
    }

    method CapUnread(pane: PaneAttention) returns (r: PaneAttention)
      ensures r == pane.(unread := KeepNewest(pane.unread))
    {
      r := pane;
      while |r.unread| > UNREAD_CAP
        invariant r == pane.(unread := r.unread) && |r.unread| <= |pane.unread|
        invariant r.unread == pane.unread[|pane.unread| - |r.unread|..]
        invariant if |pane.unread| <= UNREAD_CAP then r == pane else |r.unread| >= UNREAD_CAP
        decreases |r.unread|
      {
        r := r.(unread := r.unread[1..]);
      }
    }

    method RecordNotifEvent(id: Id, occurredAt: nat, severity: Severity, now: nat)
      returns (eventSeq: nat, delta: StateDelta)
      requires Valid()
      modifies this
      ensures Valid() && log == old(log) + [Notif(id)]
      ensures State() == RecordNotif(old(State()), id, occurredAt, severity, now)
      ensures eventSeq == old(nextEventSeq)
      ensures IsDelta(delta, old(State()), State())
    {
      hide Invariant, PanesOk, NotifsOk, ExpirePanes, ExpireNotifs, Describes, Minimal, Eviction.CapPanes,
           Eviction.CapNotifs;
      ghost var before := State();
      RecordNotifKeeps(before, log, id, occurredAt, severity, now);
      var paneDeltas, notifDeltas := ExpireInto(now);
      NotifQueuedOk(State(), log, id, NotifAttention(nextEventSeq, occurredAt, severity, false, None));
      eventSeq := TakeEventSeq();
      notifDeltas := InsertNotif(id, NotifAttention(eventSeq, occurredAt, severity, false, None), notifDeltas,
          NotifViews(before.notifs));
      paneDeltas := EnforcePaneCap(paneDeltas, PaneViews(before.panes));
      notifDeltas := EnforceNotifCap(notifDeltas, NotifViews(before.notifs));
      var next := BumpRevision();
      delta := StateDelta(epoch, next, paneDeltas, notifDeltas);
    }

    method InsertNotif(id: Id, notif: NotifAttention, deltas: seq<Delta<NotifView>>, ghost before: map<Id, NotifView>)
      returns (r: seq<Delta<NotifView>>)
      requires Describes(deltas, before, NotifViews(notifs))
      modifies this`notifs, this`log
      ensures notifs == old(notifs)[id := notif]
      ensures log == old(log) + [Notif(id)]
      ensures Describes(r, before, NotifViews(notifs))
    {
      hide Describes;
      Changed(deltas, before, NotifViews(notifs), NotifViews(notifs[id := notif]), id);
      notifs := notifs[id := notif];
      log := log + [Notif(id)];
      r := Upsert(deltas, Delta(id, Some(NotifView(notif.read))));
    }

    /** The pop loop of a read receipt. */
    method PopRead(unread: seq<UnreadEvent>, watermark: nat) returns (rest: seq<UnreadEvent>)
      ensures rest == AfterSeq(unread, watermark)
    {
      rest := unread;
      ghost var popped := 0;
      while rest != [] && rest[0].seqNo <= watermark
        invariant popped <= |unread| && rest == unread[popped..]
        invariant LeadingRead(unread, watermark, 0) == LeadingRead(unread, watermark, popped)
        decreases |rest|
      {
        rest := rest[1..];
        popped := popped + 1;
      }
    }

    /** The loop of `mark_read` over the pane receipts. */
    method MarkPanesRead(receipts: seq<Receipt>, now: nat)
      returns (results: seq<TargetResult>, acceptedAny: bool, changed: seq<Id>)
      requires PanesOk(panes, log)
      modifies this`panes
      ensures panes == MarkPanes(old(panes), receipts, now)
      ensures |results| == |receipts|
      ensures forall j :: 0 <= j < |receipts| ==>
                results[j] == TargetResult(Pane(receipts[j].paneId), ReceiptStatus(old(panes), receipts[j]))
      ensures acceptedAny <==> exists j :: 0 <= j < |receipts| && ReceiptStatus(old(panes), receipts[j]) == Applied
      ensures panes.Keys == old(panes).Keys
      ensures forall id :: id in changed <==> id in panes && panes[id] != old(panes)[id]
    {
      hide PanesOk, MarkPane, MarkOne, ReceiptStatus;
      ghost var before := panes;
      results, acceptedAny, changed := [], false, [];
      for i := 0 to |receipts|
        invariant panes == MarkPanes(before, receipts[..i], now)
        invariant PanesOk(panes, log) && panes.Keys == before.Keys
        invariant |results| == i
        invariant forall j :: 0 <= j < i ==>
                    results[j] == TargetResult(Pane(receipts[j].paneId), ReceiptStatus(before, receipts[j]))
        invariant acceptedAny <==> exists j :: 0 <= j < i && ReceiptStatus(before, receipts[j]) == Applied
        invariant forall id :: id in changed <==> id in panes && panes[id].readThroughSeq > before[id].readThroughSeq
      {
        MarkPanesKeeps(before, log, receipts[..i], now);
        SameStatus(before, panes, receipts[i]);
        assert receipts[..i + 1][..i] == receipts[..i];
        var status, moved := MarkReceipt(receipts[i], now);
        acceptedAny := acceptedAny || status == Applied;
        if moved {
          changed := PushUnique(changed, receipts[i].paneId);
        }
        results := results + [TargetResult(Pane(receipts[i].paneId), status)];
      }
      assert receipts[..|receipts|] == receipts;
      MarkPanesKeeps(before, log, receipts, now);
    }

    /** The body of that loop: the verdict, and whether the watermark moved. */
    method MarkReceipt(receipt: Receipt, now: nat) returns (status: TargetStatus, moved: bool)
      requires PanesOk(panes, log)
      modifies this`panes
      ensures panes == MarkOne(old(panes), receipt, now)
      ensures PanesOk(panes, log) && panes.Keys == old(panes).Keys
      ensures forall id :: id in panes && id != receipt.paneId ==> panes[id] == old(panes)[id]
      ensures status == ReceiptStatus(old(panes), receipt)
      ensures receipt.paneId in old(panes) ==>
              panes[receipt.paneId].readThroughSeq >= old(panes)[receipt.paneId].readThroughSeq
      ensures moved <==>
              receipt.paneId in old(panes)
              && panes[receipt.paneId].readThroughSeq > old(panes)[receipt.paneId].readThroughSeq
    {
      hide PaneOk, PaneOwned, MarkPane;
      var id := receipt.paneId;
      moved := false;
      if id !in panes {
        status := NotFound;
      } else if receipt.throughSeq > panes[id].latestEventSeq {
        status := Invalid;
        MarkPaneInvalid(panes[id], receipt.throughSeq, now);
        assert panes[id := panes[id]] == panes;
      } else {
        MarkPaneKeeps(id, panes[id], log, receipt.throughSeq, now);
        var pane := MarkPaneRead(panes[id], receipt.throughSeq, now);
        moved := pane.readThroughSeq != panes[id].readThroughSeq || (panes[id].unread != [] && pane.unread == []);
        panes := panes[id := pane];
        status := Applied;
      }
    }

    /** The loop of `mark_read` over the notification ids. */
    method MarkNotifsRead(ids: seq<Id>, now: nat)
      returns (results: seq<TargetResult>, acceptedAny: bool, changed: seq<Id>)
      modifies this`notifs
      ensures notifs == MarkNotifs(old(notifs), ids, now)
      ensures |results| == |ids|
      ensures forall j :: 0 <= j < |ids| ==> results[j] == TargetResult(Notif(ids[j]), NotifStatus(old(notifs), ids[j]))
      ensures acceptedAny <==> exists j :: 0 <= j < |ids| && NotifStatus(old(notifs), ids[j]) == Applied
      ensures forall id :: id in changed <==> id in notifs && notifs[id] != old(notifs)[id]
    {
      ghost var before := notifs;
      results, acceptedAny, changed := [], false, [];
      for i := 0 to |ids|
        invariant notifs == MarkNotifs(before, ids[..i], now)
        invariant |results| == i
        invariant forall j :: 0 <= j < i ==> results[j] == TargetResult(Notif(ids[j]), NotifStatus(before, ids[j]))
        invariant acceptedAny <==> exists j :: 0 <= j < i && NotifStatus(before, ids[j]) == Applied
        invariant forall id :: id in changed <==> id in notifs && notifs[id] != before[id]
      {
        assert ids[..i + 1] == ids[..i] + [ids[i]];
        var id := ids[i];
        var status := NotFound;
        if id in notifs {
          acceptedAny := true;
          if !notifs[id].read {
            notifs := notifs[id := notifs[id].(read := true, readAt := Some(now))];
            changed := PushUnique(changed, id);
          }
          status := Applied;
        }
        results := results + [TargetResult(Notif(id), status)];
      }
      assert ids[..|ids|] == ids;
    }

    /** The accepted branch of a receipt for one pane. */
    method MarkPaneRead(pane: PaneAttention, throughSeq: nat, now: nat) returns (r: PaneAttention)
      requires throughSeq <= pane.latestEventSeq
      ensures r == MarkPane(pane, throughSeq, now)
    {
      var wasUnread := pane.unread != [];
      r := pane.(readThroughSeq := Max(pane.readThroughSeq, throughSeq));
      var rest := PopRead(r.unread, r.readThroughSeq);
      r := r.(unread := rest);
      if r.unread == [] && wasUnread {
        r := r.(readThroughSeq := r.latestEventSeq, readAt := Some(now));
      }
    }

    method MarkRead(epoch: string, receipts: seq<Receipt>, notifIds: seq<Id>, now: nat)
      returns (delta: Option<StateDelta>, results: seq<TargetResult>, appliedAt: Option<nat>)
      requires Valid()
      modifies this
      ensures Valid() && log == old(log)
      ensures State() == AttentionSpec.MarkRead(old(State()), epoch, receipts, notifIds, now)
      ensures IsUpdate(delta, old(State()), State())
      ensures results == Verdicts(old(State()), epoch, receipts, notifIds, now)
      ensures appliedAt == AppliedAt(State(), results)
    {
      hide Invariant, ExpirePanes, ExpireNotifs, MarkPanes, MarkNotifs, Describes, Minimal, PaneViews, NotifViews,
           IsUpdate;
      ghost var before := State();
      var paneDeltas, notifDeltas := ExpireInto(now);
      if epoch != this.epoch {
        results := seq(|receipts|, i requires 0 <= i < |receipts| => TargetResult(Pane(receipts[i].paneId), StaleEpoch))
                   + seq(|notifIds|, i requires 0 <= i < |notifIds| => TargetResult(Notif(notifIds[i]), StaleEpoch));
        delta := CapAndFinish(paneDeltas, notifDeltas, before);
        return delta, results, None;
      }
      var acceptedAny;
      paneDeltas, notifDeltas, results, acceptedAny :=
        MarkAllRead(receipts, notifIds, now, paneDeltas, notifDeltas, before);
      delta := CapAndFinish(paneDeltas, notifDeltas, before);
      appliedAt := if acceptedAny then Some(revision) else None;
    }

    /** The body of `mark_read` for the current epoch: all receipts, then all notifications, then their entries. */
    method MarkAllRead(
      receipts: seq<Receipt>, notifIds: seq<Id>, now: nat,
      paneDeltas: seq<Delta<PaneView>>, notifDeltas: seq<Delta<NotifView>>, ghost before: Ledger)
      returns (p: seq<Delta<PaneView>>, n: seq<Delta<NotifView>>, results: seq<TargetResult>, acceptedAny: bool)
      requires Valid() && Invariant(before, log) && State() == Expire(before, now)
      requires Describes(paneDeltas, PaneViews(before.panes), PaneViews(panes))
      requires Minimal(paneDeltas, PaneViews(before.panes), PaneViews(panes))
      requires Describes(notifDeltas, NotifViews(before.notifs), NotifViews(notifs))
      requires Minimal(notifDeltas, NotifViews(before.notifs), NotifViews(notifs))
      modifies this`panes, this`notifs
      ensures Valid()
      ensures panes == MarkPanes(old(panes), receipts, now) && notifs == MarkNotifs(old(notifs), notifIds, now)
      ensures results == Verdicts(before, epoch, receipts, notifIds, now)
      ensures acceptedAny <==> exists i :: 0 <= i < |results| && results[i].status == Applied
      ensures Describes(p, PaneViews(before.panes), PaneViews(panes))
      ensures Minimal(p, PaneViews(before.panes), PaneViews(panes))
      ensures Describes(n, NotifViews(before.notifs), NotifViews(notifs))
      ensures Minimal(n, NotifViews(before.notifs), NotifViews(notifs))
    {
      hide Invariant, ExpirePanes, ExpireNotifs, MarkPanes, MarkNotifs, Describes, Minimal, PaneViews, NotifViews;
      ghost var expired := State();
      MarksKeep(expired, log, receipts, notifIds, now);
      var paneResults, notifResults, anyPane, anyNotif;
      p, paneResults, anyPane := MarkPanesInto(receipts, now, paneDeltas, before);
      n, notifResults, anyNotif := MarkNotifsInto(notifIds, now, notifDeltas, before);
      results := paneResults + notifResults;
      acceptedAny := anyPane || anyNotif;
      AnyInConcat(paneResults, notifResults);
    }

    method MarkPanesInto(receipts: seq<Receipt>, now: nat, deltas: seq<Delta<PaneView>>, ghost before: Ledger)
      returns (r: seq<Delta<PaneView>>, results: seq<TargetResult>, acceptedAny: bool)
      requires Invariant(before, log) && before.epoch == epoch && panes == Expire(before, now).panes
      requires Describes(deltas, PaneViews(before.panes), PaneViews(panes))
      requires Minimal(deltas, PaneViews(before.panes), PaneViews(panes))
      modifies this`panes
      ensures panes == MarkPanes(old(panes), receipts, now)
      ensures results == PaneVerdicts(Expire(before, now), epoch, receipts)
      ensures acceptedAny <==> exists i :: 0 <= i < |results| && results[i].status == Applied
      ensures Describes(r, PaneViews(before.panes), PaneViews(panes))
      ensures Minimal(r, PaneViews(before.panes), PaneViews(panes))
    {
      hide PanesOk, NotifsOk, ExpirePanes, MarkPanes, Describes, Minimal, ViewOfPane;
      ghost var expired := panes;
      ExpireKeeps(before, log, now);
      PaneReadsShow(before, log, receipts, now);
      var changed;
      results, acceptedAny, changed := MarkPanesRead(receipts, now);
      assert forall i :: 0 <= i < |results| ==> results[i].status == ReceiptStatus(expired, receipts[i]);
      r := ListAlso(deltas, changed, PaneViews(panes), PaneViews(before.panes), PaneViews(expired));
    }

    method MarkNotifsInto(notifIds: seq<Id>, now: nat, deltas: seq<Delta<NotifView>>, ghost before: Ledger)
      returns (r: seq<Delta<NotifView>>, results: seq<TargetResult>, acceptedAny: bool)
      requires before.epoch == epoch && notifs == Expire(before, now).notifs
      requires Describes(deltas, NotifViews(before.notifs), NotifViews(notifs))
      requires Minimal(deltas, NotifViews(before.notifs), NotifViews(notifs))
      modifies this`notifs
      ensures notifs == MarkNotifs(old(notifs), notifIds, now)
      ensures results == NotifVerdicts(Expire(before, now), epoch, notifIds)
      ensures acceptedAny <==> exists i :: 0 <= i < |results| && results[i].status == Applied
      ensures Describes(r, NotifViews(before.notifs), NotifViews(notifs))
      ensures Minimal(r, NotifViews(before.notifs), NotifViews(notifs))
    {
      hide Describes, Minimal;
      ghost var expired := notifs;
      var changed;
      results, acceptedAny, changed := MarkNotifsRead(notifIds, now);
      assert forall i :: 0 <= i < |results| ==> results[i].status == NotifStatus(expired, notifIds[i]);
      r := ListAlso(deltas, changed, NotifViews(notifs), NotifViews(before.notifs), NotifViews(expired));
    }

    /** The common ending of the operations that may turn out to change nothing. */
    method CapAndFinish(paneDeltas: seq<Delta<PaneView>>, notifDeltas: seq<Delta<NotifView>>, ghost before: Ledger)
      returns (delta: Option<StateDelta>)
      requires Invariant(State(), log)
      requires before.epoch == epoch && before.revision == revision
      requires Describes(paneDeltas, PaneViews(before.panes), PaneViews(panes))
      requires Minimal(paneDeltas, PaneViews(before.panes), PaneViews(panes))
      requires Describes(notifDeltas, NotifViews(before.notifs), NotifViews(notifs))
      requires Minimal(notifDeltas, NotifViews(before.notifs), NotifViews(notifs))
      modifies this`panes, this`notifs, this`revision
      ensures State() == Commit(before, old(State())) && Valid()
      ensures IsUpdate(delta, before, State())
    {
      hide PanesOk, NotifsOk, Describes, Minimal;
      var p := EnforcePaneCap(paneDeltas, PaneViews(before.panes));
      var n := EnforceNotifCap(notifDeltas, NotifViews(before.notifs));
      delta := FinishDelta(p, n, before);
    }

    method PaneClosed(id: Id, now: nat) returns (delta: Option<StateDelta>)
      requires Valid()
      modifies this
      ensures Valid() && log == old(log)
      ensures State() == AttentionSpec.PaneClosed(old(State()), id, now)
      ensures IsUpdate(delta, old(State()), State())
    {
      hide Invariant, ExpirePanes, ExpireNotifs, Describes, Minimal, ViewOfPane, IsUpdate;
      ghost var before := State();
      var paneDeltas, notifDeltas := ExpireInto(now);
      ghost var expired := State();
      RemovalKeeps(expired, log, id);
      assert expired.panes.Keys <= before.panes.Keys by { ExpireOnlyRemoves(before, now); }
      if id in panes {
        panes := panes - {id};
        paneDeltas := ListAlso(paneDeltas, [id], PaneViews(panes), PaneViews(before.panes), PaneViews(expired.panes));
      } else {
        assert panes - {id} == panes;
      }
      assert State() == expired.(panes := expired.panes - {id});
      delta := CapAndFinish(paneDeltas, notifDeltas, before);
    }

    method Sweep(now: nat) returns (delta: Option<StateDelta>)
      requires Valid()
      modifies this
      ensures Valid() && log == old(log)
      ensures State() == AttentionSpec.Sweep(old(State()), now)
      ensures IsUpdate(delta, old(State()), State())
    {
      ghost var before := State();
      var paneDeltas, notifDeltas := ExpireInto(now);
      delta := CapAndFinish(paneDeltas, notifDeltas, before);
    }

    method Reserve(clientId: string, requestId: string, payloadHash: nat, now: nat) returns (r: ReserveResult)
      requires Valid()
      modifies this`dedup, this`nextDedupGeneration
      ensures Valid()
      ensures var (table, result) := Dedup.Reserve(old(State()).dedup, (clientId, requestId), payloadHash, now);
              r == result && State() == old(State()).(dedup := table)
    {
      hide PanesOk, NotifsOk;
      var key := (clientId, requestId);
      if key in dedup {
        var entry := dedup[key];
        match entry.state {
          case InFlight(reservedAt, _) =>
            if !IsExpired(reservedAt, RESERVATION_TIMEOUT, now) {
              return if entry.payloadHash != payloadHash then KeyConflict else Busy;
            }
          case Done(doneAt, outcome) =>
            if !IsExpired(doneAt, DEDUP_TTL, now) {
              return if entry.payloadHash != payloadHash then KeyConflict else Replay(outcome);
            }
        }
      }
      var generation := nextDedupGeneration;
      nextDedupGeneration := nextDedupGeneration + 1;
      dedup := dedup[key := DedupEntry(payloadHash, InFlight(now, generation))];
      r := Reserved(generation);
    }

    method Complete(key: DedupKey, generation: nat, outcome: DedupOutcome, now: nat) returns (installed: bool)
      requires Valid()
      modifies this`dedup
      ensures Valid()
      ensures var (table, done) := Dedup.Complete(old(State()).dedup, key, generation, outcome, now);
              installed == done && State() == old(State()).(dedup := table)
    {
      hide PanesOk, NotifsOk;
      if key !in dedup {
        return false;
      }
      match dedup[key].state {
        case InFlight(_, active) =>
          if active != generation {
            return false;
          }
          dedup := dedup[key := dedup[key].(state := Done(now, outcome))];
          installed := true;
        case Done(_, _) =>
          installed := false;
      }
    }

    function Snapshot(): AttentionTypes.Snapshot
      reads this
    {
      SnapshotOf(State())
    }
  }

  lemma ExpireOnlyRemoves(s: Ledger, now: nat)
    ensures Expire(s, now).panes.Keys <= s.panes.Keys
  {
    hide ExpirePane, PaneCollectable;
  }

  lemma AnyInConcat(a: seq<TargetResult>, b: seq<TargetResult>)
    ensures (exists i :: 0 <= i < |a + b| && (a + b)[i].status == Applied) <==>
            (exists i :: 0 <= i < |a| && a[i].status == Applied) || (exists i :: 0 <= i < |b| && b[i].status == Applied)
  {
    if i :| 0 <= i < |a| && a[i].status == Applied {
      assert (a + b)[i].status == Applied;
    } else if i :| 0 <= i < |b| && b[i].status == Applied {
      assert (a + b)[|a| + i].status == Applied;
    }
  }

  /** Whatever a mark-read call changes after the expiry step shows against the state before the call. */
  lemma PaneReadsShow(s: Ledger, log: Log, receipts: seq<Receipt>, now: nat)
    requires Invariant(s, log)
    ensures var e := Expire(s, now); var panes := MarkPanes(e.panes, receipts, now);
            && panes.Keys == e.panes.Keys <= s.panes.Keys
            && forall id :: id in panes && panes[id] != e.panes[id] ==> ViewOfPane(panes[id]) != ViewOfPane(s.panes[id])
  {
    hide PaneOk, PaneOwned, MarkPanes, ExpirePane;
    var e := Expire(s, now);
    ExpireKeeps(s, log, now);
    MarkPanesKeeps(e.panes, log, receipts, now);
    forall id | id in e.panes
      ensures e.panes[id].readThroughSeq >= s.panes[id].readThroughSeq
    {
      ExpirePaneKeeps(id, s.panes[id], log, now);
    }
  }

  lemma SameStatus(a: map<Id, PaneAttention>, b: map<Id, PaneAttention>, receipt: Receipt)
    requires a.Keys == b.Keys && forall id :: id in a ==> a[id].latestEventSeq == b[id].latestEventSeq
    ensures ReceiptStatus(a, receipt) == ReceiptStatus(b, receipt)
  {
  }

  lemma MarkPaneInvalid(pane: PaneAttention, throughSeq: nat, now: nat)
    requires throughSeq > pane.latestEventSeq
    ensures MarkPane(pane, throughSeq, now) == pane
  {
  }

  lemma NotifQueuedOk(s: Ledger, log: Log, id: Id, notif: NotifAttention)
    requires Invariant(s, log) && notif.eventSeq == s.nextEventSeq && !notif.read && notif.readAt == None
    ensures NotifsOk(s.notifs[id := notif], log + [Notif(id)]) && |s.notifs[id := notif]| <= IDENTITY_CAP + 1
    ensures PanesOk(s.panes, log + [Notif(id)]) && |s.panes| <= IDENTITY_CAP
    ensures Eviction.CapPanes(s.panes) == s.panes
  {
    hide PaneOk, PaneOwned;
    PanesOkGrows(s.panes, log, Notif(id));
    NotifsOkGrows(s.notifs, log, Notif(id));
    InsertSize(s.notifs, id, notif);
  }

  /** Removing one identity, with its entry. */
  lemma Dropped<V(!new)>(deltas: seq<Delta<V>>, before: map<Id, V>, mid: map<Id, V>, after: map<Id, V>, id: Id)
    requires Describes(deltas, before, mid) && after == mid - {id}
    ensures Describes(Upsert(deltas, Delta(id, None)), before, after)
  {
    UpsertSettles(deltas, before, mid, after, {}, id);
    assert {} - {id} == {};
  }

  /** Setting one identity, with its entry. */
  lemma Changed<V(!new)>(deltas: seq<Delta<V>>, before: map<Id, V>, mid: map<Id, V>, after: map<Id, V>, id: Id)
    requires Describes(deltas, before, mid) && id in after && after == mid[id := after[id]]
    ensures Describes(Upsert(deltas, Delta(id, Some(after[id]))), before, after)
  {
    UpsertSettles(deltas, before, mid, after, {}, id);
    assert {} - {id} == {};
  }

  /** The tables just after an event was queued, before the caps are enforced. */
  lemma QueuedOk(s: Ledger, log: Log, id: Id, event: UnreadEvent)
    requires Invariant(s, log) && event.seqNo == s.nextEventSeq
    ensures var panes := s.panes[id := PushEvent(if id in s.panes then s.panes[id] else FRESH_PANE, event)];
            PanesOk(panes, log + [Pane(id)]) && |panes| <= IDENTITY_CAP + 1
    ensures NotifsOk(s.notifs, log + [Pane(id)]) && |s.notifs| <= IDENTITY_CAP
    ensures Eviction.CapNotifs(s.notifs) == s.notifs
  {
    hide PaneOk, PaneOwned, PushEvent;
    var pane := if id in s.panes then s.panes[id] else FRESH_PANE;
    PushEventKeeps(id, pane, log, event);
    PanesOkGrows(s.panes, log, Pane(id));
    NotifsOkGrows(s.notifs, log, Pane(id));
    InsertSize(s.panes, id, PushEvent(pane, event));
  }
}
