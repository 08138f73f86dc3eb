/**
 * What each ledger operation does to the ledger as a value. The class in `LiveLedger` is proved
 * to compute these functions; the properties of whole runs are proved about them.
 */
module AttentionSpec {
  import opened Common
  import opened AttentionTypes
  import Dedup
  import Eviction

  // ---- one pane ----

  /** How many events, from position `from` on, have expired before the first one that has not. */
  function LeadingExpired(unread: seq<UnreadEvent>, now: nat, from: nat): (k: nat)
    requires from <= |unread|
    ensures from <= k <= |unread|
    ensures forall i :: from <= i < k ==> IsExpired(unread[i].occurredAt, UNREAD_TTL, now)
    ensures k < |unread| ==> !IsExpired(unread[k].occurredAt, UNREAD_TTL, now)
    decreases |unread| - from
  {
    if from < |unread| && IsExpired(unread[from].occurredAt, UNREAD_TTL, now)
    then LeadingExpired(unread, now, from + 1)
    else from
  }

  /** How many events, from position `from` on, lie at or below the watermark before the first that does not. */
  function LeadingRead(unread: seq<UnreadEvent>, watermark: nat, from: nat): (k: nat)
    requires from <= |unread|
    ensures from <= k <= |unread|
    ensures forall i :: from <= i < k ==> unread[i].seqNo <= watermark
    ensures k < |unread| ==> unread[k].seqNo > watermark
    decreases |unread| - from
  {
    if from < |unread| && unread[from].seqNo <= watermark
    then LeadingRead(unread, watermark, from + 1)
    else from
  }

  function LiveSuffix(unread: seq<UnreadEvent>, now: nat): seq<UnreadEvent> {
    unread[LeadingExpired(unread, now, 0)..]
  }

  function AfterSeq(unread: seq<UnreadEvent>, watermark: nat): seq<UnreadEvent> {
    unread[LeadingRead(unread, watermark, 0)..]
  }

  /** A pane whose queue has just run empty counts as read up to its latest event. */
  function Settle(pane: PaneAttention, rest: seq<UnreadEvent>, now: nat): PaneAttention {
    if rest == [] && pane.unread != [] then
      pane.(unread := rest, readThroughSeq := pane.latestEventSeq, readAt := Some(now))
    else
      pane.(unread := rest)
  }

  function ExpirePane(pane: PaneAttention, now: nat): PaneAttention {
    Settle(pane, LiveSuffix(pane.unread, now), now)
  }

  function MarkPane(pane: PaneAttention, throughSeq: nat, now: nat): PaneAttention {
    if throughSeq > pane.latestEventSeq then pane
    else
      var watermark := Max(pane.readThroughSeq, throughSeq);
      Settle(pane.(readThroughSeq := watermark), AfterSeq(pane.unread, watermark), now)
  }

  const FRESH_PANE := PaneAttention(0, 0, [], None)

  function KeepNewest(unread: seq<UnreadEvent>): seq<UnreadEvent> {
    if |unread| > UNREAD_CAP then unread[|unread| - UNREAD_CAP..] else unread
  }

  function PushEvent(pane: PaneAttention, event: UnreadEvent): PaneAttention {
    pane.(latestEventSeq := event.seqNo, unread := KeepNewest(pane.unread + [event]), readAt := None)
  }

  predicate PaneCollectable(pane: PaneAttention, now: nat) {
    pane.unread == [] && pane.readAt.Some? && IsExpired(pane.readAt.value, UNREAD_TTL, now)
  }

  // ---- one notification ----

  function ReadNotif(notif: NotifAttention, now: nat): NotifAttention {
    if notif.read then notif else notif.(read := true, readAt := Some(now))
  }

  function ExpireNotif(notif: NotifAttention, now: nat): NotifAttention {
    if IsExpired(notif.occurredAt, UNREAD_TTL, now) then ReadNotif(notif, now) else notif
  }

  predicate NotifCollectable(notif: NotifAttention, now: nat) {
    notif.read && notif.readAt.Some? && IsExpired(notif.readAt.value, UNREAD_TTL, now)
  }

  // ---- the tables ----

  function ExpirePanes(panes: map<Id, PaneAttention>, now: nat): map<Id, PaneAttention> {
    map id | id in panes && !PaneCollectable(ExpirePane(panes[id], now), now) :: ExpirePane(panes[id], now)
  }

  function ExpireNotifs(notifs: map<Id, NotifAttention>, now: nat): map<Id, NotifAttention> {
    map id | id in notifs && !NotifCollectable(ExpireNotif(notifs[id], now), now) :: ExpireNotif(notifs[id], now)
  }

  function Expire(s: Ledger, now: nat): Ledger {
    s.(panes := ExpirePanes(s.panes, now), notifs := ExpireNotifs(s.notifs, now), dedup := Dedup.Sweep(s.dedup, now))
  }

  function MarkPanes(panes: map<Id, PaneAttention>, receipts: seq<Receipt>, now: nat): map<Id, PaneAttention>
    decreases |receipts|
  {
    if receipts == [] then panes
    else
      var before := MarkPanes(panes, receipts[..|receipts| - 1], now);
      MarkOne(before, receipts[|receipts| - 1], now)
  }

  function MarkOne(panes: map<Id, PaneAttention>, receipt: Receipt, now: nat): map<Id, PaneAttention> {
    if receipt.paneId in panes
    then panes[receipt.paneId := MarkPane(panes[receipt.paneId], receipt.throughSeq, now)]
    else panes
  }

  function MarkNotifs(notifs: map<Id, NotifAttention>, ids: seq<Id>, now: nat): map<Id, NotifAttention> {
    map id | id in notifs :: if id in ids then ReadNotif(notifs[id], now) else notifs[id]
  }

  /** The verdict on a receipt; it depends only on what no receipt changes. */
  function ReceiptStatus(panes: map<Id, PaneAttention>, receipt: Receipt): TargetStatus {
    if receipt.paneId !in panes then NotFound
    else if receipt.throughSeq > panes[receipt.paneId].latestEventSeq then Invalid
    else Applied
  }

  function NotifStatus(notifs: map<Id, NotifAttention>, id: Id): TargetStatus {
    if id in notifs then Applied else NotFound
  }

  // ---- the operations ----

  /** The revision moves exactly when something visible to replicas changed. */
  function Commit(before: Ledger, after: Ledger): Ledger {
    if PaneViews(before.panes) == PaneViews(after.panes) && NotifViews(before.notifs) == NotifViews(after.notifs)
    then after
    else after.(revision := before.revision + 1)
  }

  ghost function RecordPane(s: Ledger, id: Id, occurredAt: nat, severity: Severity, now: nat): Ledger {
    var e := Expire(s, now);
    var pane := if id in e.panes then e.panes[id] else FRESH_PANE;
    var event := UnreadEvent(s.nextEventSeq, occurredAt, severity);
    e.(nextEventSeq := s.nextEventSeq + 1,
       revision := s.revision + 1,
       panes := Eviction.CapPanes(e.panes[id := PushEvent(pane, event)]))
  }

  ghost function RecordNotif(s: Ledger, id: Id, occurredAt: nat, severity: Severity, now: nat): Ledger {
    var e := Expire(s, now);
    e.(nextEventSeq := s.nextEventSeq + 1,
       revision := s.revision + 1,
       notifs := Eviction.CapNotifs(e.notifs[id := NotifAttention(s.nextEventSeq, occurredAt, severity, false, None)]))
  }

  function MarkRead(s: Ledger, epoch: string, receipts: seq<Receipt>, notifIds: seq<Id>, now: nat): Ledger {
    var e := Expire(s, now);
    Commit(s,
           if epoch != s.epoch then e
           else e.(panes := MarkPanes(e.panes, receipts, now), notifs := MarkNotifs(e.notifs, notifIds, now)))
  }

  function PaneVerdicts(s: Ledger, epoch: string, receipts: seq<Receipt>): seq<TargetResult> {
    seq(|receipts|, i requires 0 <= i < |receipts| =>
      TargetResult(Pane(receipts[i].paneId),
                   if epoch != s.epoch then StaleEpoch else ReceiptStatus(s.panes, receipts[i])))
  }

  function NotifVerdicts(s: Ledger, epoch: string, notifIds: seq<Id>): seq<TargetResult> {
    seq(|notifIds|, i requires 0 <= i < |notifIds| =>
      TargetResult(Notif(notifIds[i]), if epoch != s.epoch then StaleEpoch else NotifStatus(s.notifs, notifIds[i])))
  }

  /** The answers to a mark-read request, in request order: panes first, then notifications. */
  function Verdicts(s: Ledger, epoch: string, receipts: seq<Receipt>, notifIds: seq<Id>, now: nat): seq<TargetResult> {
    var e := Expire(s, now);
    PaneVerdicts(e, epoch, receipts) + NotifVerdicts(e, epoch, notifIds)
  }

  function AppliedAt(s: Ledger, results: seq<TargetResult>): Option<nat> {
    if exists i :: 0 <= i < |results| && results[i].status == Applied then Some(s.revision) else None
  }

  function PaneClosed(s: Ledger, id: Id, now: nat): Ledger {
    var e := Expire(s, now);
    Commit(s, e.(panes := e.panes - {id}))
  }

  function Sweep(s: Ledger, now: nat): Ledger {
    Commit(s, Expire(s, now))
  }
}
