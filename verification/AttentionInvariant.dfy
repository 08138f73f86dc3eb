/**
 * The global invariant of the ledger, and that every operation keeps it.
 *
 * `log` is ghost: entry `n - 1` says for whom event number `n` was recorded. An event number thus has
 * one owner, so no number is ever used by two identities.
 */
module AttentionInvariant {
  import opened Common
  import opened AttentionTypes
  import opened AttentionSpec
  import Eviction

  type Log = seq<Target>

  predicate Recorded(log: Log, seqNo: nat, target: Target) {
    1 <= seqNo <= |log| && log[seqNo - 1] == target
  }

  /** The queue's numbers increase strictly, lie in (watermark, latest], and end at latest. */
  ghost predicate QueueOk(unread: seq<UnreadEvent>, watermark: nat, latest: nat) {
    && (forall i :: 0 <= i < |unread| ==> watermark < unread[i].seqNo <= latest)
    && (forall i, j :: 0 <= i < j < |unread| ==> unread[i].seqNo < unread[j].seqNo)
    && (unread != [] ==> unread[|unread| - 1].seqNo == latest)
  }

  ghost predicate PaneOk(pane: PaneAttention) {
    && pane.readThroughSeq <= pane.latestEventSeq
    && QueueOk(pane.unread, pane.readThroughSeq, pane.latestEventSeq)
    && |pane.unread| <= UNREAD_CAP
    && (pane.unread == [] <==> pane.readThroughSeq == pane.latestEventSeq)
    && (pane.unread == [] <==> pane.readAt.Some?)
  }

  ghost predicate PaneOwned(id: Id, pane: PaneAttention, log: Log) {
    && Recorded(log, pane.latestEventSeq, Pane(id))
    && forall i :: 0 <= i < |pane.unread| ==> Recorded(log, pane.unread[i].seqNo, Pane(id))
  }

  ghost predicate PanesOk(panes: map<Id, PaneAttention>, log: Log) {
    forall id :: id in panes ==> PaneOk(panes[id]) && PaneOwned(id, panes[id], log)
  }

  ghost predicate NotifOk(id: Id, notif: NotifAttention, log: Log) {
    Recorded(log, notif.eventSeq, Notif(id)) && (notif.read <==> notif.readAt.Some?)
  }

  ghost predicate NotifsOk(notifs: map<Id, NotifAttention>, log: Log) {
    forall id :: id in notifs ==> NotifOk(id, notifs[id], log)
  }

  ghost predicate Invariant(s: Ledger, log: Log) {
    && s.nextEventSeq == |log| + 1
    && PanesOk(s.panes, log) && |s.panes| <= IDENTITY_CAP
    && NotifsOk(s.notifs, log) && |s.notifs| <= IDENTITY_CAP
  }

  function InitialLedger(epoch: string): Ledger {
    Ledger(epoch, 1, 0, map[], map[], DedupTable(1, map[]))
  }

  lemma InitialLedgerOk(epoch: string)
    ensures Invariant(InitialLedger(epoch), [])
  {
  }

  /** No event number belongs to two panes, or to a pane and a notification, or to two notifications. */
  lemma SeqsUniqueAcrossIdentities(s: Ledger, log: Log)
    requires Invariant(s, log)
    ensures forall a, b, i, j ::
              a in s.panes && b in s.panes && a != b && 0 <= i < |s.panes[a].unread| && 0 <= j < |s.panes[b].unread| ==>
                s.panes[a].unread[i].seqNo != s.panes[b].unread[j].seqNo
    ensures forall a, n, i ::
              a in s.panes && n in s.notifs && 0 <= i < |s.panes[a].unread| ==>
                s.panes[a].unread[i].seqNo != s.notifs[n].eventSeq
    ensures Eviction.DistinctSeqs(Eviction.PaneRanks(s.panes)) && Eviction.DistinctSeqs(Eviction.NotifRanks(s.notifs))
    ensures forall id :: id in s.panes ==> s.panes[id].latestEventSeq < s.nextEventSeq
    ensures forall id :: id in s.notifs ==> s.notifs[id].eventSeq < s.nextEventSeq
  {
    PaneRanksDistinct(s.panes, log);
    NotifRanksDistinct(s.notifs, log);
  }

  lemma PaneRanksDistinct(panes: map<Id, PaneAttention>, log: Log)
    requires PanesOk(panes, log)
    ensures Eviction.DistinctSeqs(Eviction.PaneRanks(panes))
  {
    var ranks := Eviction.PaneRanks(panes);
    forall id | id in panes
      ensures Recorded(log, ranks[id].seqNo, Pane(id))
    {
      assert PaneOwned(id, panes[id], log);
    }
  }

  lemma NotifRanksDistinct(notifs: map<Id, NotifAttention>, log: Log)
    requires NotifsOk(notifs, log)
    ensures Eviction.DistinctSeqs(Eviction.NotifRanks(notifs))
  {
    var ranks := Eviction.NotifRanks(notifs);
    forall id | id in notifs
      ensures Recorded(log, ranks[id].seqNo, Notif(id))
    {
      assert NotifOk(id, notifs[id], log);
    }
  }

  // ---- one pane at a time ----

  /** Dropping the first `k` events and raising the watermark below the rest keeps a pane well formed. */
  lemma DropKeeps(pane: PaneAttention, k: nat, watermark: nat, now: nat)
    requires PaneOk(pane) && k <= |pane.unread|
    requires pane.readThroughSeq <= watermark <= pane.latestEventSeq
    requires forall i :: k <= i < |pane.unread| ==> pane.unread[i].seqNo > watermark
    ensures PaneOk(Settle(pane.(readThroughSeq := watermark), pane.unread[k..], now))
  {
    var rest := pane.unread[k..];
    if rest != [] {
      assert rest[|rest| - 1] == pane.unread[|pane.unread| - 1];
    }
  }

  lemma DropOwned(id: Id, pane: PaneAttention, k: nat, watermark: nat, log: Log, now: nat)
    requires PaneOwned(id, pane, log) && k <= |pane.unread|
    ensures PaneOwned(id, Settle(pane.(readThroughSeq := watermark), pane.unread[k..], now), log)
  {
  }

  /** Expiry keeps a pane well formed, never lowers its watermark, and every change it makes shows. */
  lemma ExpirePaneKeeps(id: Id, pane: PaneAttention, log: Log, now: nat)
    requires PaneOk(pane) && PaneOwned(id, pane, log)
    ensures var p := ExpirePane(pane, now);
            && PaneOk(p) && PaneOwned(id, p, log)
            && p.latestEventSeq == pane.latestEventSeq
            && p.readThroughSeq >= pane.readThroughSeq
            && (p != pane ==> ViewOfPane(p) != ViewOfPane(pane))
            && (p != pane <==> |p.unread| < |pane.unread|)
            && (p != pane ==> !PaneCollectable(p, now))
  {
    var k := LeadingExpired(pane.unread, now, 0);
    DropKeeps(pane, k, pane.readThroughSeq, now);
    DropOwned(id, pane, k, pane.readThroughSeq, log, now);
    assert pane.(readThroughSeq := pane.readThroughSeq) == pane;
    assert k == 0 ==> pane.unread[k..] == pane.unread;
  }

  /** A receipt keeps a pane well formed, and it changes something exactly when it moves the watermark. */
  lemma MarkPaneKeeps(id: Id, pane: PaneAttention, log: Log, throughSeq: nat, now: nat)
    requires PaneOk(pane) && PaneOwned(id, pane, log)
    ensures var p := MarkPane(pane, throughSeq, now);
            && PaneOk(p) && PaneOwned(id, p, log)
            && p.latestEventSeq == pane.latestEventSeq
            && p.readThroughSeq >= pane.readThroughSeq
            && (p != pane <==> p.readThroughSeq > pane.readThroughSeq)
            && (throughSeq <= pane.latestEventSeq ==> p.readThroughSeq >= throughSeq)
  {
    if throughSeq <= pane.latestEventSeq {
      var watermark := Max(pane.readThroughSeq, throughSeq);
      var k := LeadingRead(pane.unread, watermark, 0);
      DropKeeps(pane, k, watermark, now);
      DropOwned(id, pane, k, watermark, log, now);
      assert k == 0 ==> pane.unread[k..] == pane.unread;
    }
  }

  lemma PushKeepsQueue(pane: PaneAttention, event: UnreadEvent)
    requires QueueOk(pane.unread, pane.readThroughSeq, pane.latestEventSeq)
    requires pane.readThroughSeq <= pane.latestEventSeq < event.seqNo
    ensures PaneOk(PushEvent(pane, event))
  {
    hide QueueOk;
    var all := pane.unread + [event];
    var k := if |all| > UNREAD_CAP then |all| - UNREAD_CAP else 0;
    LongerOk(pane.unread, event, pane.readThroughSeq, pane.latestEventSeq);
    SuffixOk(all, k, pane.readThroughSeq, event.seqNo);
    assert KeepNewest(all) == all[k..];
  }

  lemma LongerOk(queue: seq<UnreadEvent>, event: UnreadEvent, watermark: nat, latest: nat)
    requires QueueOk(queue, watermark, latest) && watermark <= latest < event.seqNo
    ensures QueueOk(queue + [event], watermark, event.seqNo)
  {
    var all := queue + [event];
    assert forall i :: 0 <= i < |all| ==> all[i] == if i < |queue| then queue[i] else event;
  }

  lemma SuffixOk(queue: seq<UnreadEvent>, k: nat, watermark: nat, latest: nat)
    requires QueueOk(queue, watermark, latest) && k < |queue|
    ensures QueueOk(queue[k..], watermark, latest)
  {
  }

  lemma PushKeepsOwner(id: Id, pane: PaneAttention, log: Log, event: UnreadEvent)
    requires forall i :: 0 <= i < |pane.unread| ==> Recorded(log, pane.unread[i].seqNo, Pane(id))
    requires event.seqNo == |log| + 1
    ensures PaneOwned(id, PushEvent(pane, event), log + [Pane(id)])
  {
    var log' := log + [Pane(id)];
    var all := pane.unread + [event];
    forall i | 0 <= i < |all|
      ensures Recorded(log', all[i].seqNo, Pane(id))
    {
      assert i < |pane.unread| ==> Recorded(log, all[i].seqNo, Pane(id));
    }
    var kept := KeepNewest(all);
    forall i | 0 <= i < |kept|
      ensures Recorded(log', kept[i].seqNo, Pane(id))
    {
      assert kept[i] == all[i + |all| - |kept|];
    }
  }

  lemma PushEventKeeps(id: Id, pane: PaneAttention, log: Log, event: UnreadEvent)
    requires event.seqNo == |log| + 1
    requires pane == FRESH_PANE || (PaneOk(pane) && PaneOwned(id, pane, log))
    ensures PaneOk(PushEvent(pane, event)) && PaneOwned(id, PushEvent(pane, event), log + [Pane(id)])
  {
    PushKeepsQueue(pane, event);
    PushKeepsOwner(id, pane, log, event);
  }

  // ---- the tables ----

  lemma PanesOkGrows(panes: map<Id, PaneAttention>, log: Log, target: Target)
    requires PanesOk(panes, log)
    ensures PanesOk(panes, log + [target])
  {
    forall id | id in panes
      ensures PaneOwned(id, panes[id], log + [target])
    {
      assert PaneOwned(id, panes[id], log);
    }
  }

  lemma NotifsOkGrows(notifs: map<Id, NotifAttention>, log: Log, target: Target)
    requires NotifsOk(notifs, log)
    ensures NotifsOk(notifs, log + [target])
  {
    forall id | id in notifs
      ensures NotifOk(id, notifs[id], log + [target])
    {
      assert NotifOk(id, notifs[id], log);
    }
  }

  lemma SubmapSize<V>(small: map<Id, V>, big: map<Id, V>)
    requires small.Keys <= big.Keys
    ensures |small| <= |big|
  {
    SubsetSize(small.Keys, big.Keys);
  }

  lemma {:induction false} SubsetSize<T>(a: set<T>, b: set<T>)
    requires a <= b
    ensures |a| <= |b|
  {
    assert b == a + (b - a);
    assert a !! (b - a);
  }

  lemma ExpireKeeps(s: Ledger, log: Log, now: nat)
    requires Invariant(s, log)
    ensures Invariant(Expire(s, now), log)
  {
    hide PaneOk, PaneOwned, ExpirePane;
    var e := Expire(s, now);
    forall id | id in e.panes
      ensures PaneOk(e.panes[id]) && PaneOwned(id, e.panes[id], log)
    {
      ExpirePaneKeeps(id, s.panes[id], log, now);
    }
    forall id | id in e.notifs
      ensures NotifOk(id, e.notifs[id], log)
    {
      assert NotifOk(id, s.notifs[id], log);
    }
    SubmapSize(e.panes, s.panes);
    SubmapSize(e.notifs, s.notifs);
  }

  lemma {:induction false} MarkPanesKeeps(panes: map<Id, PaneAttention>, log: Log, receipts: seq<Receipt>, now: nat)
    requires PanesOk(panes, log)
    ensures PanesOk(MarkPanes(panes, receipts, now), log)
    ensures MarkPanes(panes, receipts, now).Keys == panes.Keys
    ensures forall id :: id in panes ==>
              var p := MarkPanes(panes, receipts, now)[id];
              && p.latestEventSeq == panes[id].latestEventSeq
              && p.readThroughSeq >= panes[id].readThroughSeq
              && (p != panes[id] <==> p.readThroughSeq > panes[id].readThroughSeq)
    decreases |receipts|
  {
    hide PaneOk, PaneOwned, MarkPane;
    if receipts != [] {
      var r := receipts[|receipts| - 1];
      MarkPanesKeeps(panes, log, receipts[..|receipts| - 1], now);
      var before := MarkPanes(panes, receipts[..|receipts| - 1], now);
      if r.paneId in before {
        MarkPaneKeeps(r.paneId, before[r.paneId], log, r.throughSeq, now);
      }
    }
  }

  lemma MarkNotifsKeeps(notifs: map<Id, NotifAttention>, log: Log, ids: seq<Id>, now: nat)
    requires NotifsOk(notifs, log)
    ensures NotifsOk(MarkNotifs(notifs, ids, now), log) && MarkNotifs(notifs, ids, now).Keys == notifs.Keys
  {
    forall id | id in notifs
      ensures NotifOk(id, MarkNotifs(notifs, ids, now)[id], log)
    {
      assert NotifOk(id, notifs[id], log);
    }
  }

  /** Eviction takes the one identity that is over the cap, never an unread one while a read one exists. */
  lemma CapPanesKeeps(panes: map<Id, PaneAttention>, log: Log) returns (victim: Id)
    requires PanesOk(panes, log) && |panes| == IDENTITY_CAP + 1
    ensures Eviction.PaneVictim(panes, victim)
    ensures forall other :: Eviction.PaneVictim(panes, other) ==> other == victim
    ensures Eviction.CapPanes(panes) == panes - {victim}
    ensures |Eviction.CapPanes(panes)| == IDENTITY_CAP
    ensures victim in panes && (panes[victim].unread != [] ==> forall id :: id in panes ==> panes[id].unread != [])
  {
    hide PaneOk, PaneOwned, Eviction.PaneRank, Eviction.Least, Eviction.DistinctSeqs;
    PaneRanksDistinct(panes, log);
    var candidates := Eviction.PaneCandidates(panes);
    var ranks := Eviction.PaneRanks(panes);
    assert panes.Keys != {};
    Eviction.LeastExists(candidates, ranks);
    victim :| victim in candidates && Eviction.Least(candidates, ranks, victim);
    forall other | Eviction.PaneVictim(panes, other)
      ensures other == victim
    {
      Eviction.LeastUnique(candidates, ranks, victim, other);
    }
    assert (panes - {victim}).Keys == panes.Keys - {victim};
    if panes[victim].unread != [] {
      var read := set id | id in panes && panes[id].unread == [];
      assert victim !in read && read == {};
      assert forall id :: id in panes ==> id !in read;
    }
  }

  lemma CapNotifsKeeps(notifs: map<Id, NotifAttention>, log: Log) returns (victim: Id)
    requires NotifsOk(notifs, log) && |notifs| == IDENTITY_CAP + 1
    ensures Eviction.NotifVictim(notifs, victim)
    ensures forall other :: Eviction.NotifVictim(notifs, other) ==> other == victim
    ensures Eviction.CapNotifs(notifs) == notifs - {victim}
    ensures |Eviction.CapNotifs(notifs)| == IDENTITY_CAP
    ensures victim in notifs && (!notifs[victim].read ==> forall id :: id in notifs ==> !notifs[id].read)
  {
    hide NotifOk, Eviction.NotifRank, Eviction.Least, Eviction.DistinctSeqs;
    NotifRanksDistinct(notifs, log);
    var candidates := Eviction.NotifCandidates(notifs);
    var ranks := Eviction.NotifRanks(notifs);
    assert notifs.Keys != {};
    Eviction.LeastExists(candidates, ranks);
    victim :| victim in candidates && Eviction.Least(candidates, ranks, victim);
    forall other | Eviction.NotifVictim(notifs, other)
      ensures other == victim
    {
      Eviction.LeastUnique(candidates, ranks, victim, other);
    }
    assert (notifs - {victim}).Keys == notifs.Keys - {victim};
    if !notifs[victim].read {
      var read := set id | id in notifs && notifs[id].read;
      assert victim !in read && read == {};
      assert forall id :: id in notifs ==> id !in read;
    }
  }

  /** Read panes go in the order they were read, unread ones in the order of their oldest unread event. */
  lemma PaneVictimIsOldest(panes: map<Id, PaneAttention>, log: Log, victim: Id, other: Id)
    requires PanesOk(panes, log) && Eviction.PaneVictim(panes, victim) && other in panes && other != victim
    ensures victim in panes
    ensures panes[victim].unread == [] && panes[other].unread == [] ==>
            panes[victim].readAt.value <= panes[other].readAt.value
    ensures panes[victim].unread != [] ==> panes[other].unread != []
    ensures panes[victim].unread != [] ==>
              var a, b := panes[victim].unread[0], panes[other].unread[0];
              a.occurredAt < b.occurredAt || (a.occurredAt == b.occurredAt && a.seqNo < b.seqNo)
  {
    PaneRanksDistinct(panes, log);
    hide PaneOwned;
    assert PaneOk(panes[victim]) && PaneOk(panes[other]);
    var read := set id | id in panes && panes[id].unread == [];
    if panes[victim].unread == [] {
      assert victim in read && (panes[other].unread == [] ==> other in read);
      assert Eviction.PaneCandidates(panes) == read;
      assert Eviction.PaneRanks(panes)[other] == Eviction.PaneRank(other, panes[other]);
    } else {
      assert victim !in read;
      assert read == {};
      assert other !in read;
    }
  }

  lemma NotifVictimIsOldest(notifs: map<Id, NotifAttention>, log: Log, victim: Id, other: Id)
    requires NotifsOk(notifs, log) && Eviction.NotifVictim(notifs, victim) && other in notifs && other != victim
    ensures victim in notifs
    ensures notifs[victim].read && notifs[other].read ==> notifs[victim].readAt.value <= notifs[other].readAt.value
    ensures !notifs[victim].read ==> !notifs[other].read
    ensures !notifs[victim].read ==>
              var a, b := notifs[victim], notifs[other];
              a.occurredAt < b.occurredAt || (a.occurredAt == b.occurredAt && a.eventSeq < b.eventSeq)
  {
    NotifRanksDistinct(notifs, log);
    assert NotifOk(victim, notifs[victim], log) && NotifOk(other, notifs[other], log);
    var read := set id | id in notifs && notifs[id].read;
    if notifs[victim].read {
      assert victim in read && (notifs[other].read ==> other in read);
      assert Eviction.NotifCandidates(notifs) == read;
      assert Eviction.NotifRanks(notifs)[other] == Eviction.NotifRank(other, notifs[other]);
    } else {
      assert victim !in read;
      assert read == {};
      assert other !in read;
    }
  }

  lemma InsertSize<V>(m: map<Id, V>, id: Id, v: V)
    ensures |m[id := v]| == if id in m then |m| else |m| + 1
  {
    assert m[id := v].Keys == m.Keys + {id};
    if id in m {
      assert m.Keys + {id} == m.Keys;
    }
  }

  /** From what replicas see they can tell that a pane has unread events: its latest event is past the watermark. */
  lemma ViewTellsUnread(pane: PaneAttention)
    requires PaneOk(pane)
    ensures var view := ViewOfPane(pane);
            && (pane.unread != [] <==> view.latestEventSeq > view.readThroughSeq)
            && (pane.unread != [] <==> view.firstUnreadAt.Some?)
            && (pane.unread != [] <==> view.severity.Some?)
            && (forall i :: 0 <= i < |pane.unread| ==>
                  view.readThroughSeq < pane.unread[i].seqNo <= view.latestEventSeq)
            && (pane.unread != [] ==> view.firstUnreadAt == Some(pane.unread[0].occurredAt))
  {
    hide MaxSeverity;
    MaxSeverityIsMax(pane.unread, |pane.unread|);
  }

  // ---- the operations ----

  lemma RecordPaneKeeps(s: Ledger, log: Log, id: Id, occurredAt: nat, severity: Severity, now: nat)
    requires Invariant(s, log)
    ensures Invariant(RecordPane(s, id, occurredAt, severity, now), log + [Pane(id)])
  {
    hide PaneOk, PaneOwned, PushEvent, ExpirePanes, ExpireNotifs, NotifOk, Eviction.PaneVictim;
    ExpireKeeps(s, log, now);
    var e := Expire(s, now);
    var log' := log + [Pane(id)];
    var pane := if id in e.panes then e.panes[id] else FRESH_PANE;
    var event := UnreadEvent(s.nextEventSeq, occurredAt, severity);
    PushEventKeeps(id, pane, log, event);
    PanesOkGrows(e.panes, log, Pane(id));
    NotifsOkGrows(e.notifs, log, Pane(id));
    var panes := e.panes[id := PushEvent(pane, event)];
    InsertSize(e.panes, id, PushEvent(pane, event));
    if |panes| > IDENTITY_CAP {
      var victim := CapPanesKeeps(panes, log');
    }
  }

  lemma RecordNotifKeeps(s: Ledger, log: Log, id: Id, occurredAt: nat, severity: Severity, now: nat)
    requires Invariant(s, log)
    ensures Invariant(RecordNotif(s, id, occurredAt, severity, now), log + [Notif(id)])
  {
    hide PaneOk, PaneOwned, ExpirePanes, ExpireNotifs, Eviction.NotifVictim;
    ExpireKeeps(s, log, now);
    var e := Expire(s, now);
    var log' := log + [Notif(id)];
    var notif := NotifAttention(s.nextEventSeq, occurredAt, severity, false, None);
    PanesOkGrows(e.panes, log, Notif(id));
    NotifsOkGrows(e.notifs, log, Notif(id));
    var notifs := e.notifs[id := notif];
    InsertSize(e.notifs, id, notif);
    assert NotifsOk(notifs, log');
    if |notifs| > IDENTITY_CAP {
      var victim := CapNotifsKeeps(notifs, log');
    }
  }

  lemma MarksKeep(e: Ledger, log: Log, receipts: seq<Receipt>, notifIds: seq<Id>, now: nat)
    requires Invariant(e, log)
    ensures var panes, notifs := MarkPanes(e.panes, receipts, now), MarkNotifs(e.notifs, notifIds, now);
            Invariant(e.(panes := panes, notifs := notifs), log)
  {
    hide PaneOk, PaneOwned, MarkPanes, MarkNotifs, NotifOk;
    MarkPanesKeeps(e.panes, log, receipts, now);
    MarkNotifsKeeps(e.notifs, log, notifIds, now);
    SubmapSize(MarkPanes(e.panes, receipts, now), e.panes);
    SubmapSize(MarkNotifs(e.notifs, notifIds, now), e.notifs);
  }

  lemma RemovalKeeps(e: Ledger, log: Log, id: Id)
    requires Invariant(e, log)
    ensures Invariant(e.(panes := e.panes - {id}), log)
  {
    hide PaneOk, PaneOwned, NotifOk;
    SubmapSize(e.panes - {id}, e.panes);
  }

  lemma MarkReadKeeps(s: Ledger, log: Log, epoch: string, receipts: seq<Receipt>, notifIds: seq<Id>, now: nat)
    requires Invariant(s, log)
    ensures Invariant(MarkRead(s, epoch, receipts, notifIds, now), log)
  {
    hide PanesOk, NotifsOk, Expire, MarkPanes, MarkNotifs, PaneViews, NotifViews;
    ExpireKeeps(s, log, now);
    MarksKeep(Expire(s, now), log, receipts, notifIds, now);
  }

  lemma PaneClosedKeeps(s: Ledger, log: Log, id: Id, now: nat)
    requires Invariant(s, log)
    ensures Invariant(PaneClosed(s, id, now), log)
  {
    hide PanesOk, NotifsOk, Expire, PaneViews, NotifViews;
    ExpireKeeps(s, log, now);
    RemovalKeeps(Expire(s, now), log, id);
  }

  lemma SweepKeeps(s: Ledger, log: Log, now: nat)
    requires Invariant(s, log)
    ensures Invariant(Sweep(s, now), log)
  {
    hide PanesOk, NotifsOk, Expire, PaneViews, NotifViews;
    ExpireKeeps(s, log, now);
  }
}
