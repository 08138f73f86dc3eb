/**
 * What each operation does to each pane, event by event, without the queues and passes that do it:
 * which panes are there afterwards, which events are still unread, and the watermark.
 */
module PaneEffects {
  import opened Common
  import opened AttentionTypes
  import opened AttentionSpec
  import opened AttentionInvariant
  import opened AttentionRuns
  import Eviction
  import Retention
  import ReadReceipts

  /** Every operation but the two on the table of answered requests begins with expiry. */
  predicate Touches(op: Op) {
    !op.OpReserve? && !op.OpComplete?
  }

  predicate Records(op: Op, id: Id) {
    op.OpRecordPane? && op.id == id
  }

  predicate Closes(op: Op, id: Id) {
    op.OpPaneClosed? && op.id == id
  }

  predicate Old(time: nat, now: nat) {
    now >= time + UNREAD_TTL
  }

  /** A pane that was read a whole retention period ago. */
  predicate Collected(s: Ledger, op: Op, id: Id) {
    && Touches(op) && id in s.panes
    && s.panes[id].unread == [] && s.panes[id].readAt.Some? && Old(s.panes[id].readAt.value, op.now)
  }

  /** The panes just before the cap is enforced. */
  ghost function Uncapped(s: Ledger, op: Op): map<Id, PaneAttention>
    requires op.OpRecordPane?
  {
    var panes := Expire(s, op.now).panes;
    var pane := if op.id in panes then panes[op.id] else FRESH_PANE;
    panes[op.id := PushEvent(pane, UnreadEvent(s.nextEventSeq, op.occurredAt, op.severity))]
  }

  ghost predicate Evicted(s: Ledger, op: Op, id: Id) {
    op.OpRecordPane? && |Uncapped(s, op)| > IDENTITY_CAP && Eviction.PaneVictim(Uncapped(s, op), id)
  }

  lemma ExpiredIsOld(time: nat, now: nat)
    ensures IsExpired(time, UNREAD_TTL, now) <==> Old(time, now)
  {
  }

  // ---- which panes are there ----

  lemma UncappedOk(s: Ledger, log: Log, op: Op)
    requires Invariant(s, log) && op.OpRecordPane?
    ensures PanesOk(Uncapped(s, op), log + [Pane(op.id)]) && |Uncapped(s, op)| <= IDENTITY_CAP + 1
  {
    hide PaneOk, PaneOwned, PushEvent, ExpirePanes, ExpireNotifs, NotifOk;
    ExpireKeeps(s, log, op.now);
    var e := Expire(s, op.now);
    var event := UnreadEvent(s.nextEventSeq, op.occurredAt, op.severity);
    var pane := if op.id in e.panes then e.panes[op.id] else FRESH_PANE;
    PushEventKeeps(op.id, pane, log, event);
    PanesOkGrows(e.panes, log, Pane(op.id));
    InsertSize(e.panes, op.id, PushEvent(pane, event));
  }

  /** Recording leaves every pane but the victim as it was before the cap. */
  lemma CappedExactly(s: Ledger, log: Log, op: Op)
    requires Invariant(s, log) && op.OpRecordPane?
    ensures forall id :: id in Step(s, op).panes <==> id in Uncapped(s, op) && !Evicted(s, op, id)
    ensures forall id :: id in Step(s, op).panes ==> Step(s, op).panes[id] == Uncapped(s, op)[id]
  {
    hide PanesOk, ExpirePanes, ExpireNotifs, PushEvent, Eviction.PaneVictim, PaneOk, PaneOwned;
    UncappedOk(s, log, op);
    var panes := Uncapped(s, op);
    assert Step(s, op).panes == Eviction.CapPanes(panes);
    if |panes| > IDENTITY_CAP {
      var victim := CapPanesKeeps(panes, log + [Pane(op.id)]);
    }
  }

  /**
   * A pane is there after an operation exactly if it was recorded for just now, or was there before and
   * neither collected nor closed; less the victim of the cap.
   */
  lemma PanePresence(s: Ledger, log: Log, op: Op, id: Id)
    requires Invariant(s, log)
    ensures id in Step(s, op).panes <==>
            (Records(op, id) || (id in s.panes && !Collected(s, op, id) && !Closes(op, id))) && !Evicted(s, op, id)
  {
    hide Invariant, Step, Evicted, Collected;
    if op.OpRecordPane? {
      RecordedPresence(s, log, op, id);
    } else {
      NotEvicted(s, op, id);
      if Touches(op) {
        TouchedPresence(s, log, op, id);
      } else {
        NotCollected(s, op, id);
        SamePanes(s, op);
      }
    }
  }

  lemma RecordedPresence(s: Ledger, log: Log, op: Op, id: Id)
    requires Invariant(s, log) && op.OpRecordPane?
    ensures id in Step(s, op).panes <==>
            (Records(op, id) || (id in s.panes && !Collected(s, op, id))) && !Evicted(s, op, id)
  {
    hide Invariant, Step, Evicted, Collected, Uncapped, Expire;
    ExpiredPresence(s, log, op, id);
    CappedExactly(s, log, op);
    UncappedPresence(s, op, id);
  }

  lemma TouchedPresence(s: Ledger, log: Log, op: Op, id: Id)
    requires Invariant(s, log) && Touches(op) && !op.OpRecordPane?
    ensures id in Step(s, op).panes <==> id in s.panes && !Collected(s, op, id) && !Closes(op, id)
  {
    hide Invariant, Collected, ExpirePanes, ExpireNotifs, MarkPanes, MarkNotifs, PaneViews, NotifViews,
         Eviction.CapNotifs;
    ExpiredPresence(s, log, op, id);
    if op.OpMarkRead? {
      MarkedPresence(s, log, op.receipts, op.now);
    }
  }

  lemma SamePanes(s: Ledger, op: Op)
    requires !Touches(op)
    ensures Step(s, op).panes == s.panes
  {
    hide Invariant;
  }

  lemma ExpiredPresence(s: Ledger, log: Log, op: Op, id: Id)
    requires Invariant(s, log) && Touches(op)
    ensures id in Expire(s, op.now).panes <==> id in s.panes && !Collected(s, op, id)
  {
    hide ExpirePane, PaneOwned, NotifsOk;
    if id in s.panes {
      assert PaneOk(s.panes[id]);
      Retention.PaneGoneIff(s, log, id, op.now);
    }
  }

  lemma UncappedPresence(s: Ledger, op: Op, id: Id)
    requires op.OpRecordPane?
    ensures id in Uncapped(s, op) <==> id in Expire(s, op.now).panes || id == op.id
  {
    hide ExpirePanes, PushEvent;
  }

  lemma NotEvicted(s: Ledger, op: Op, id: Id)
    requires !op.OpRecordPane?
    ensures !Evicted(s, op, id)
  {
  }

  lemma NotCollected(s: Ledger, op: Op, id: Id)
    requires !Touches(op)
    ensures !Collected(s, op, id)
  {
  }

  lemma MarkedPresence(s: Ledger, log: Log, receipts: seq<Receipt>, now: nat)
    requires Invariant(s, log)
    ensures MarkPanes(Expire(s, now).panes, receipts, now).Keys == Expire(s, now).panes.Keys
  {
    ExpireKeeps(s, log, now);
    MarkPanesKeeps(Expire(s, now).panes, log, receipts, now);
  }

  /** The pane just recorded for goes at once exactly if it is new and every other has a later unread event. */
  lemma EvictedAtOnceIff(s: Ledger, log: Log, op: Op)
    requires Invariant(s, log) && op.OpRecordPane?
    ensures Evicted(s, op, op.id) <==>
            var panes := Expire(s, op.now).panes;
            && op.id !in panes && |panes| == IDENTITY_CAP
            && forall id :: id in panes ==> panes[id].unread != [] && panes[id].unread[0].occurredAt > op.occurredAt
  {
    hide PaneOwned, NotifsOk, ExpirePanes, PushEvent, QueueOk, Eviction.Least, Eviction.PaneRank;
    ExpireKeeps(s, log, op.now);
    UncappedOk(s, log, op);
    var panes, all := Expire(s, op.now).panes, Uncapped(s, op);
    InsertSize(panes, op.id, all[op.id]);
    if op.id !in panes && |panes| == IDENTITY_CAP {
      NewestPane(s, op);
      if forall id :: id in panes ==> panes[id].unread != [] && panes[id].unread[0].occurredAt > op.occurredAt {
        NewcomerIsLeast(s, log, op);
      } else {
        var other :| other in panes
            && (panes[other].unread == [] || panes[other].unread[0].occurredAt <= op.occurredAt);
        NewcomerIsNotLeast(s, log, op, other);
      }
    }
  }

  /** The pane of a newcomer holds the one event. */
  lemma NewestPane(s: Ledger, op: Op)
    requires op.OpRecordPane? && op.id !in Expire(s, op.now).panes
    ensures op.id in Uncapped(s, op)
    ensures Uncapped(s, op)[op.id].unread == [UnreadEvent(s.nextEventSeq, op.occurredAt, op.severity)]
  {
    hide ExpirePanes;
    var event := UnreadEvent(s.nextEventSeq, op.occurredAt, op.severity);
    assert [] + [event] == [event];
  }

  lemma NewcomerIsLeast(s: Ledger, log: Log, op: Op)
    requires Invariant(s, log) && op.OpRecordPane? && op.id !in Expire(s, op.now).panes
    requires forall id :: id in Expire(s, op.now).panes ==>
               && Expire(s, op.now).panes[id].unread != []
               && Expire(s, op.now).panes[id].unread[0].occurredAt > op.occurredAt
    ensures Eviction.PaneVictim(Uncapped(s, op), op.id)
  {
    hide Invariant, ExpirePanes, PushEvent;
    NewestPane(s, op);
    var all := Uncapped(s, op);
    assert all.Keys == Expire(s, op.now).panes.Keys + {op.id};
    assert forall id :: id in all && id != op.id ==> all[id] == Expire(s, op.now).panes[id];
    var read := set id | id in all && all[id].unread == [];
    assert read == {};
    assert Eviction.PaneCandidates(all) == all.Keys;
  }

  lemma NewcomerIsNotLeast(s: Ledger, log: Log, op: Op, other: Id)
    requires Invariant(s, log) && op.OpRecordPane? && op.id !in Expire(s, op.now).panes
    requires other in Expire(s, op.now).panes
    requires var p := Expire(s, op.now).panes[other]; p.unread == [] || p.unread[0].occurredAt <= op.occurredAt
    ensures !Eviction.PaneVictim(Uncapped(s, op), op.id)
  {
    hide PaneOwned, NotifsOk, ExpirePanes, PushEvent;
    ExpireKeeps(s, log, op.now);
    NewestPane(s, op);
    UncappedOk(s, log, op);
    var all := Uncapped(s, op);
    assert all[other] == Expire(s, op.now).panes[other];
    HeadBelow(Expire(s, op.now), log, other);
    if Eviction.PaneVictim(all, op.id) {
      VictimBefore(all, op.id, other);
    }
  }

  lemma HeadBelow(s: Ledger, log: Log, id: Id)
    requires Invariant(s, log) && id in s.panes
    ensures s.panes[id].unread != [] ==> s.panes[id].unread[0].seqNo < s.nextEventSeq
  {
    assert PaneOwned(id, s.panes[id], log);
  }

  lemma VictimBefore(panes: map<Id, PaneAttention>, victim: Id, other: Id)
    requires Eviction.PaneVictim(panes, victim) && other in panes && other != victim && panes[victim].unread != []
    ensures victim in panes && panes[other].unread != []
    ensures var a, b := panes[victim].unread[0], panes[other].unread[0];
            a.occurredAt < b.occurredAt || (a.occurredAt == b.occurredAt && a.seqNo <= b.seqNo)
  {
    var read := set id | id in panes && panes[id].unread == [];
    assert victim !in read;
    assert read == {};
    assert other !in read;
    assert Eviction.PaneRanks(panes)[other] == Eviction.PaneRank(other, panes[other]);
  }

  // ---- what a pane is like ----

  /** The pane an operation starts from. */
  function Before(s: Ledger, op: Op, id: Id): PaneAttention {
    if id in s.panes && !Collected(s, op, id) then s.panes[id] else PaneAttention(0, 0, [], None)
  }

  /** The event at position `k` or one before it is live, so expiry stops before it gets past `k`. */
  ghost predicate Sheltered(unread: seq<UnreadEvent>, k: nat, now: nat)
    requires k < |unread|
  {
    exists j :: 0 <= j <= k && !Old(unread[j].occurredAt, now)
  }

  ghost predicate AllOld(unread: seq<UnreadEvent>, now: nat) {
    forall k :: 0 <= k < |unread| ==> Old(unread[k].occurredAt, now)
  }

  /** No valid receipt of the operation reaches the event. */
  ghost predicate Unreached(epoch: string, op: Op, id: Id, latest: nat, seqNo: nat) {
    op.OpMarkRead? && op.epoch == epoch ==>
      forall r :: r in op.receipts && r.paneId == id && r.throughSeq <= latest ==> r.throughSeq < seqNo
  }

  /** Whether the event at position `k` is still unread after the operation. */
  ghost predicate Kept(epoch: string, op: Op, id: Id, pane: PaneAttention, k: nat)
    requires k < |pane.unread|
  {
    Touches(op) ==>
      && Sheltered(pane.unread, k, op.now)
      && (Records(op, id) ==> |pane.unread| - k < UNREAD_CAP)
      && Unreached(epoch, op, id, pane.latestEventSeq, pane.unread[k].seqNo)
  }

  /** The watermark before receipts: expiry of all events counts as reading them. */
  ghost function Base(op: Op, pane: PaneAttention): nat {
    if Touches(op) && AllOld(pane.unread, op.now)
    then pane.latestEventSeq else pane.readThroughSeq
  }

  function ReadUpTo(epoch: string, op: Op, id: Id, latest: nat): nat {
    if op.OpMarkRead? && op.epoch == epoch then ReadReceipts.Largest(op.receipts, id, latest) else 0
  }

  /** Which events are unread afterwards. */
  ghost predicate EventsAfter(s: Ledger, op: Op, id: Id, before: PaneAttention, pane: PaneAttention) {
    && (forall k :: 0 <= k < |before.unread| ==>
          (before.unread[k] in pane.unread <==> Kept(s.epoch, op, id, before, k)))
    && (forall event :: event in pane.unread ==>
          event in before.unread
          || (Records(op, id) && event == UnreadEvent(s.nextEventSeq, op.occurredAt, op.severity)))
    && (Records(op, id) ==>
          pane.unread != []
          && pane.unread[|pane.unread| - 1] == UnreadEvent(s.nextEventSeq, op.occurredAt, op.severity))
  }

  ghost predicate MarksAfter(s: Ledger, op: Op, id: Id, before: PaneAttention, pane: PaneAttention) {
    && pane.latestEventSeq == (if Records(op, id) then s.nextEventSeq else before.latestEventSeq)
    && pane.readThroughSeq ==
       (if pane.unread == [] then pane.latestEventSeq
        else Max(Base(op, before), ReadUpTo(s.epoch, op, id, before.latestEventSeq)))
    && pane.readAt ==
       (if pane.unread != [] then None else if before.unread == [] then before.readAt else Some(op.now))
  }

  /** `pane` is what the operation makes of `before`. */
  ghost predicate IsAfter(s: Ledger, op: Op, id: Id, before: PaneAttention, pane: PaneAttention) {
    EventsAfter(s, op, id, before, pane) && MarksAfter(s, op, id, before, pane)
  }

  ghost predicate Increasing(unread: seq<UnreadEvent>) {
    forall i, j :: 0 <= i < j < |unread| ==> unread[i].seqNo < unread[j].seqNo
  }

  /** How many events expiry takes: all before the first sheltered one. */
  lemma ExpiryCut(unread: seq<UnreadEvent>, now: nat)
    ensures var m := LeadingExpired(unread, now, 0);
            && (forall k :: 0 <= k < |unread| ==> (k >= m <==> Sheltered(unread, k, now)))
            && (m == |unread| <==> AllOld(unread, now))
  {
    var m := LeadingExpired(unread, now, 0);
    assert m < |unread| ==> !Old(unread[m].occurredAt, now);
  }

  /** What expiry makes of a pane. */
  lemma ExpiredPaneIs(pane: PaneAttention, now: nat)
    requires pane == FRESH_PANE || PaneOk(pane)
    ensures var m := LeadingExpired(pane.unread, now, 0); var e := ExpirePane(pane, now);
            && e.unread == pane.unread[m..] && e.latestEventSeq == pane.latestEventSeq
            && e.readThroughSeq == (if AllOld(pane.unread, now) then pane.latestEventSeq else pane.readThroughSeq)
            && e.readAt == (if AllOld(pane.unread, now) && pane.unread != [] then Some(now) else pane.readAt)
  {
    hide LeadingExpired;
    ExpiryCut(pane.unread, now);
  }

  /** Numbers are different, so an event is in a part of the queue iff its position is. */
  lemma InSuffix(unread: seq<UnreadEvent>, m: nat, k: nat)
    requires m <= |unread| && k < |unread| && Increasing(unread)
    ensures unread[k] in unread[m..] <==> k >= m
  {
    if k >= m {
      assert unread[m..][k - m] == unread[k];
    }
    forall i | 0 <= i < |unread[m..]| && unread[m..][i] == unread[k]
      ensures k >= m
    {
      assert unread[m..][i] == unread[m + i];
    }
  }

  lemma QueueFacts(pane: PaneAttention)
    requires PaneOk(pane)
    ensures Increasing(pane.unread)
    ensures pane.unread == [] ==> pane.readThroughSeq == pane.latestEventSeq
    ensures pane.unread != [] ==> pane.readAt == None && pane.readThroughSeq < pane.latestEventSeq
  {
  }

  /** Operations that do no more to a pane than expire it. */
  lemma AfterExpiry(s: Ledger, op: Op, id: Id, before: PaneAttention)
    requires PaneOk(before) && Touches(op) && !Records(op, id) && (op.OpMarkRead? ==> op.epoch != s.epoch)
    ensures IsAfter(s, op, id, before, ExpirePane(before, op.now))
  {
    hide PaneOk, ExpirePane, LeadingExpired, Sheltered, Increasing;
    QueueFacts(before);
    ExpiredPaneIs(before, op.now);
    ExpiryCut(before.unread, op.now);
    ExpiredEvents(s, op, id, before);
  }

  lemma ExpiredEvents(s: Ledger, op: Op, id: Id, before: PaneAttention)
    requires PaneOk(before) && Touches(op) && !Records(op, id) && (op.OpMarkRead? ==> op.epoch != s.epoch)
    ensures EventsAfter(s, op, id, before, ExpirePane(before, op.now))
  {
    hide PaneOk, ExpirePane, LeadingExpired, Sheltered, AllOld, Increasing;
    QueueFacts(before);
    ExpiredPaneIs(before, op.now);
    ExpiryCut(before.unread, op.now);
    var m := LeadingExpired(before.unread, op.now, 0);
    forall k | 0 <= k < |before.unread|
      ensures before.unread[k] in before.unread[m..] <==> k >= m
    {
      InSuffix(before.unread, m, k);
    }
  }

  lemma AfterMark(s: Ledger, log: Log, op: Op, id: Id, before: PaneAttention)
    requires PaneOk(before) && PaneOwned(id, before, log) && op.OpMarkRead? && op.epoch == s.epoch
    ensures var n := ReadReceipts.Largest(op.receipts, id, before.latestEventSeq);
            IsAfter(s, op, id, before, MarkPane(ExpirePane(before, op.now), n, op.now))
  {
    hide EventsAfter, MarksAfter;
    MarkedEvents(s, log, op, id, before);
    MarkedMarks(s, log, op, id, before);
  }

  lemma MarkedMarks(s: Ledger, log: Log, op: Op, id: Id, before: PaneAttention)
    requires PaneOk(before) && PaneOwned(id, before, log) && op.OpMarkRead? && op.epoch == s.epoch
    ensures var n := ReadReceipts.Largest(op.receipts, id, before.latestEventSeq);
            MarksAfter(s, op, id, before, MarkPane(ExpirePane(before, op.now), n, op.now))
  {
    hide PaneOk, PaneOwned, ExpirePane, MarkPane, AllOld, ReadReceipts.Largest, MarksAfter;
    var n := ReadReceipts.Largest(op.receipts, id, before.latestEventSeq);
    var e := ExpirePane(before, op.now);
    QueueFacts(before);
    ExpiredPaneIs(before, op.now);
    ExpiredOk(id, before, log, op.now);
    MarkedPaneIs(e, n, op.now);
    EmptiedByExpiry(before, op.now);
    MarksCompose(s, op, id, before, e, MarkPane(e, n, op.now));
  }

  /** Expiry, then receipts. */
  lemma MarksCompose(s: Ledger, op: Op, id: Id, before: PaneAttention, e: PaneAttention, p: PaneAttention)
    requires op.OpMarkRead? && op.epoch == s.epoch
    requires e.latestEventSeq == before.latestEventSeq == p.latestEventSeq
    requires e.readThroughSeq == Base(op, before)
    requires e.readAt == if AllOld(before.unread, op.now) && before.unread != [] then Some(op.now) else before.readAt
    requires e.unread == [] ==> AllOld(before.unread, op.now)
    requires before.unread == [] ==> e.unread == []
    requires p.readThroughSeq ==
             if p.unread == [] then p.latestEventSeq
             else Max(e.readThroughSeq, ReadReceipts.Largest(op.receipts, id, before.latestEventSeq))
    requires p.readAt == if p.unread != [] then None else if e.unread == [] then e.readAt else Some(op.now)
    ensures MarksAfter(s, op, id, before, p)
  {
    hide AllOld, ReadReceipts.Largest, Base;
  }

  lemma ExpiredOk(id: Id, pane: PaneAttention, log: Log, now: nat)
    requires PaneOk(pane) && PaneOwned(id, pane, log)
    ensures PaneOk(ExpirePane(pane, now))
  {
    hide PaneOk, PaneOwned, ExpirePane, ViewOfPane;
    ExpirePaneKeeps(id, pane, log, now);
  }

  lemma EmptiedByExpiry(pane: PaneAttention, now: nat)
    ensures ExpirePane(pane, now).unread == [] ==> AllOld(pane.unread, now)
    ensures pane.unread == [] ==> ExpirePane(pane, now).unread == []
  {
    hide LeadingExpired;
    ExpiryCut(pane.unread, now);
  }

  lemma NothingOld(now: nat)
    ensures AllOld([], now)
  {
  }

  lemma MarkedEvents(s: Ledger, log: Log, op: Op, id: Id, before: PaneAttention)
    requires PaneOk(before) && PaneOwned(id, before, log) && op.OpMarkRead? && op.epoch == s.epoch
    ensures var n := ReadReceipts.Largest(op.receipts, id, before.latestEventSeq);
            EventsAfter(s, op, id, before, MarkPane(ExpirePane(before, op.now), n, op.now))
  {
    hide PaneOk, PaneOwned, ExpirePane, MarkPane, LeadingExpired, Kept;
    var n := ReadReceipts.Largest(op.receipts, id, before.latestEventSeq);
    var e := ExpirePane(before, op.now);
    ExpiredPaneIs(before, op.now);
    ExpiredOk(id, before, log, op.now);
    MarkedEvent(e, n, op.now);
    forall k | 0 <= k < |before.unread|
      ensures before.unread[k] in MarkPane(e, n, op.now).unread <==> Kept(s.epoch, op, id, before, k)
    {
      MarkedOrKept(s, log, op, id, before, k);
    }
  }

  /** A receipt leaves exactly the newer events. */
  lemma MarkedEvent(pane: PaneAttention, throughSeq: nat, now: nat)
    requires PaneOk(pane) && throughSeq <= pane.latestEventSeq
    ensures forall event :: event in MarkPane(pane, throughSeq, now).unread <==>
              event in pane.unread && event.seqNo > throughSeq
  {
    hide PaneOk, MarkPane;
    MarkedPaneIs(pane, throughSeq, now);
    forall event | event in pane.unread
      ensures event in MarkPane(pane, throughSeq, now).unread <==> event.seqNo > throughSeq
    {
      var i :| 0 <= i < |pane.unread| && pane.unread[i] == event;
      ReadReceipts.OnlyReadEventsCleared(pane, throughSeq, now, i);
    }
  }

  lemma MarkedOrKept(s: Ledger, log: Log, op: Op, id: Id, before: PaneAttention, k: nat)
    requires PaneOk(before) && PaneOwned(id, before, log) && op.OpMarkRead? && op.epoch == s.epoch
    requires k < |before.unread|
    ensures var n := ReadReceipts.Largest(op.receipts, id, before.latestEventSeq);
            before.unread[k] in MarkPane(ExpirePane(before, op.now), n, op.now).unread <==>
            Kept(s.epoch, op, id, before, k)
  {
    hide PaneOk, PaneOwned, ExpirePane, MarkPane, LeadingExpired, Sheltered, Increasing, Unreached;
    var n := ReadReceipts.Largest(op.receipts, id, before.latestEventSeq);
    ExpiredPaneIs(before, op.now);
    ExpiredOk(id, before, log, op.now);
    MarkedEvent(ExpirePane(before, op.now), n, op.now);
    ExpiredEvent(before, op.now, k);
    UnreachedIff(s.epoch, op, id, before.latestEventSeq, before.unread[k].seqNo);
    InQueue(before, log, id, k);
  }

  /** Expiry leaves exactly the sheltered events. */
  lemma ExpiredEvent(pane: PaneAttention, now: nat, k: nat)
    requires PaneOk(pane) && k < |pane.unread|
    ensures pane.unread[k] in ExpirePane(pane, now).unread <==> Sheltered(pane.unread, k, now)
  {
    hide PaneOk, ExpirePane, LeadingExpired, Sheltered, Increasing, AllOld;
    QueueFacts(pane);
    ExpiredPaneIs(pane, now);
    ExpiryCut(pane.unread, now);
    InSuffix(pane.unread, LeadingExpired(pane.unread, now, 0), k);
  }

  lemma InQueue(pane: PaneAttention, log: Log, id: Id, k: nat)
    requires PaneOwned(id, pane, log) && k < |pane.unread|
    ensures pane.unread[k].seqNo > 0
  {
    assert Recorded(log, pane.unread[k].seqNo, Pane(id));
  }

  /** No valid receipt reaches an event iff the largest one does not. */
  lemma UnreachedIff(epoch: string, op: Op, id: Id, latest: nat, seqNo: nat)
    requires op.OpMarkRead? && op.epoch == epoch
    ensures seqNo > 0 ==>
              (Unreached(epoch, op, id, latest, seqNo) <==> seqNo > ReadReceipts.Largest(op.receipts, id, latest))
  {
    hide ReadReceipts.Largest;
    var n := ReadReceipts.Largest(op.receipts, id, latest);
    ReadReceipts.LargestIsLargest(op.receipts, id, latest);
    if n > 0 && Unreached(epoch, op, id, latest, seqNo) {
      assert Receipt(id, n) in op.receipts;
    }
  }

  /** What a valid receipt makes of a pane. */
  lemma MarkedPaneIs(pane: PaneAttention, throughSeq: nat, now: nat)
    requires PaneOk(pane) && throughSeq <= pane.latestEventSeq
    ensures var p := MarkPane(pane, throughSeq, now);
            && p.latestEventSeq == pane.latestEventSeq
            && (forall event :: event in p.unread ==> event in pane.unread)
            && p.readThroughSeq ==
               (if p.unread == [] then p.latestEventSeq else Max(pane.readThroughSeq, throughSeq))
            && p.readAt == (if p.unread != [] then None else if pane.unread == [] then pane.readAt else Some(now))
  {
    hide LeadingRead;
    ReadReceipts.EmptiedIff(pane, Max(pane.readThroughSeq, throughSeq));
  }

  lemma AfterPush(s: Ledger, log: Log, op: Op, before: PaneAttention, e: PaneAttention)
    requires op.OpRecordPane? && e == ExpirePane(before, op.now) && s.nextEventSeq == |log| + 1
    requires before == FRESH_PANE || (PaneOk(before) && PaneOwned(op.id, before, log))
    ensures IsAfter(s, op, op.id, before, PushEvent(e, UnreadEvent(s.nextEventSeq, op.occurredAt, op.severity)))
  {
    hide PaneOk, PaneOwned, ExpirePane, LeadingExpired, Sheltered, AllOld, KeepNewest;
    var event := UnreadEvent(s.nextEventSeq, op.occurredAt, op.severity);
    var pane := PushEvent(e, event);
    ExpiredPaneIs(before, op.now);
    ExpiryCut(before.unread, op.now);
    NumbersBelow(op.id, before, log);
    var m := LeadingExpired(before.unread, op.now, 0);
    NewestIsLast(before.unread[m..], event);
    forall k | 0 <= k < |before.unread|
      ensures before.unread[k] in pane.unread <==> k >= m && |before.unread| - k < UNREAD_CAP
    {
      PushedOrDropped(before.unread, event, m, k);
    }
    NothingReached(s.epoch, op);
  }

  lemma NothingReached(epoch: string, op: Op)
    requires op.OpRecordPane?
    ensures forall id, latest, seqNo :: Unreached(epoch, op, id, latest, seqNo)
  {
  }

  lemma NewestIsLast(unread: seq<UnreadEvent>, event: UnreadEvent)
    ensures var kept := KeepNewest(unread + [event]);
            && kept != [] && kept[|kept| - 1] == event
            && forall other :: other in kept ==> other in unread || other == event
  {
    var all := unread + [event];
    assert all[|all| - 1] == event;
  }

  lemma NumbersBelow(id: Id, pane: PaneAttention, log: Log)
    requires pane == FRESH_PANE || (PaneOk(pane) && PaneOwned(id, pane, log))
    ensures Increasing(pane.unread)
    ensures forall i :: 0 <= i < |pane.unread| ==> pane.unread[i].seqNo <= |log|
    ensures pane.readThroughSeq <= pane.latestEventSeq <= |log|
  {
  }

  lemma PushedOrDropped(unread: seq<UnreadEvent>, event: UnreadEvent, m: nat, k: nat)
    requires m <= |unread| && k < |unread| && Increasing(unread)
    requires forall i :: 0 <= i < |unread| ==> unread[i].seqNo < event.seqNo
    ensures unread[k] in KeepNewest(unread[m..] + [event]) <==> k >= m && |unread| - k < UNREAD_CAP
  {
    var longer := unread + [event];
    var start := Max(m, |unread| + 1 - UNREAD_CAP);
    assert unread[m..] + [event] == longer[m..];
    assert KeepNewest(unread[m..] + [event]) == longer[start..];
    assert longer[k] == unread[k];
    InSuffix(longer, start, k);
  }

  /** Every pane there is after an operation is what the operation makes of the pane before. */
  lemma PaneAfter(s: Ledger, log: Log, op: Op, id: Id)
    requires Invariant(s, log) && id in Step(s, op).panes
    ensures IsAfter(s, op, id, Before(s, op, id), Step(s, op).panes[id])
  {
    hide Invariant, IsAfter, Collected, Evicted, ExpirePanes, ExpireNotifs, MarkPanes, MarkNotifs, RecordPane, Uncapped,
      PaneViews, NotifViews;
    PanePresence(s, log, op, id);
    if Touches(op) {
      ExpiredPresence(s, log, op, id);
    }
    OkBefore(s, log, op, id);
    var before := Before(s, op, id);
    match op
    case OpRecordPane(_, _, _, _) => RecordedAfter(s, log, op, id);
    case OpMarkRead(epoch, receipts, notifIds, now) => MarkedAfter(s, log, op, id);
    case OpReserve(_, _, _) => AfterNothing(s, op, id, before);
    case OpComplete(_, _, _, _) => AfterNothing(s, op, id, before);
    case _ =>
      ExpiredValue(s, op, id);
      AfterExpiry(s, op, id, before);
  }

  lemma OkBefore(s: Ledger, log: Log, op: Op, id: Id)
    requires Invariant(s, log)
    ensures s.nextEventSeq == |log| + 1
    ensures id in s.panes ==> PaneOk(s.panes[id]) && PaneOwned(id, s.panes[id], log)
  {
  }

  lemma ExpiredValue(s: Ledger, op: Op, id: Id)
    requires id in Expire(s, op.now).panes
    ensures id in s.panes && Expire(s, op.now).panes[id] == ExpirePane(s.panes[id], op.now)
  {
  }

  lemma AfterNothing(s: Ledger, op: Op, id: Id, before: PaneAttention)
    requires !Touches(op) && PaneOk(before)
    ensures IsAfter(s, op, id, before, before)
  {
    hide PaneOk;
    QueueFacts(before);
  }

  lemma MarkedAfter(s: Ledger, log: Log, op: Op, id: Id)
    requires Invariant(s, log) && op.OpMarkRead? && id in Expire(s, op.now).panes && id in Step(s, op).panes
    requires id in s.panes && PaneOk(s.panes[id]) && PaneOwned(id, s.panes[id], log)
    requires Before(s, op, id) == s.panes[id]
    ensures IsAfter(s, op, id, s.panes[id], Step(s, op).panes[id])
  {
    hide Invariant, IsAfter, ExpirePanes, ExpireNotifs, MarkPanes, MarkNotifs, MarkPane, ExpirePane, PaneViews,
      NotifViews, PaneOk, PaneOwned;
    ExpiredValue(s, op, id);
    if op.epoch != s.epoch {
      AfterExpiry(s, op, id, s.panes[id]);
    } else {
      var e := Expire(s, op.now);
      ExpireKeeps(s, log, op.now);
      assert PanesOk(e.panes, log) by { OkPanes(e, log); }
      ReadReceipts.ReceiptsJoin(e.panes, log, op.receipts, op.now);
      SameLatest(s.panes[id], op.now);
      AfterMark(s, log, op, id, s.panes[id]);
    }
  }

  lemma OkPanes(s: Ledger, log: Log)
    requires Invariant(s, log)
    ensures PanesOk(s.panes, log)
  {
  }

  lemma SameLatest(pane: PaneAttention, now: nat)
    ensures ExpirePane(pane, now).latestEventSeq == pane.latestEventSeq
  {
  }

  lemma RecordedAfter(s: Ledger, log: Log, op: Op, id: Id)
    requires Invariant(s, log) && op.OpRecordPane? && id in Step(s, op).panes
    ensures IsAfter(s, op, id, Before(s, op, id), Step(s, op).panes[id])
  {
    hide Invariant, IsAfter, ExpirePanes, ExpireNotifs, RecordPane, PushEvent, ExpirePane, Evicted, Collected, PaneOk,
      PaneOwned;
    CappedExactly(s, log, op);
    ExpiredPresence(s, log, op, id);
    OkBefore(s, log, op, id);
    var before := Before(s, op, id);
    var panes := Expire(s, op.now).panes;
    if id in panes {
      ExpiredValue(s, op, id);
    }
    if id == op.id {
      FreshExpires(op.now);
      AfterPush(s, log, op, before, if id in panes then panes[id] else FRESH_PANE);
    } else {
      AfterExpiry(s, op, id, before);
    }
  }

  lemma FreshExpires(now: nat)
    ensures ExpirePane(FRESH_PANE, now) == FRESH_PANE
  {
    assert FRESH_PANE.unread[0..] == [];
  }
}
