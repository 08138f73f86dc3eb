/** The data of the attention ledger: `src/attention/types.rs`. */
module AttentionTypes {
  import opened Common
  import opened Deltas

  datatype Severity = Info | Success | Warning | Error | Urgent {
    function Rank(): nat {
      match this
      case Info => 0
      case Success => 1
      case Warning => 2
      case Error => 3
      case Urgent => 4
    }
  }

  datatype UnreadEvent = UnreadEvent(seqNo: nat, occurredAt: nat, severity: Severity)

  datatype PaneAttention = PaneAttention(
    readThroughSeq: nat, latestEventSeq: nat, unread: seq<UnreadEvent>, readAt: Option<nat>)

  datatype NotifAttention = NotifAttention(
    eventSeq: nat, occurredAt: nat, severity: Severity, read: bool, readAt: Option<nat>)

  /** What replicas see of a pane and of a pane-less notification. */
  datatype PaneView = PaneView(
    latestEventSeq: nat, readThroughSeq: nat, firstUnreadAt: Option<nat>, severity: Option<Severity>)

  datatype NotifView = NotifView(read: bool)

  datatype StateDelta = StateDelta(
    epoch: string, revision: nat, panes: seq<Delta<PaneView>>, notifs: seq<Delta<NotifView>>)

  datatype Snapshot = Snapshot(epoch: string, revision: nat, panes: map<Id, PaneView>, notifs: map<Id, NotifView>)

  datatype Target = Pane(paneId: Id) | Notif(notifId: Id)

  datatype TargetStatus = Applied | StaleEpoch | Invalid | NotFound | Conflict

  datatype TargetResult = TargetResult(target: Target, status: TargetStatus)

  datatype Receipt = Receipt(paneId: Id, throughSeq: nat)

  datatype MarkReadResult = MarkReadResult(
    requestId: string, epoch: string, appliedAtRevision: Option<nat>, results: seq<TargetResult>)

  datatype ProducerOutcome =
    | AcceptedPane(paneId: Id, eventSeq: nat, revision: nat)
    | AcceptedNotif(notifId: Id, eventSeq: nat, revision: nat)
    | Suppressed(reason: string)
    | PaneNotFound

  datatype DedupOutcome = MarkReadDone(markRead: MarkReadResult) | ProducerDone(producer: ProducerOutcome)

  /** Client id and request id. */
  type DedupKey = (string, string)

  datatype DedupState =
    | InFlight(reservedAt: nat, generation: nat)
    | Done(doneAt: nat, outcome: DedupOutcome)

  datatype DedupEntry = DedupEntry(payloadHash: nat, state: DedupState)

  datatype DedupTable = DedupTable(nextGeneration: nat, entries: map<DedupKey, DedupEntry>)

  datatype ReserveResult = Reserved(generation: nat) | Replay(outcome: DedupOutcome) | KeyConflict | Busy

  /** The fields of `AttentionLedger` as one value. */
  datatype Ledger = Ledger(
    epoch: string,
    nextEventSeq: nat,
    revision: nat,
    panes: map<Id, PaneAttention>,
    notifs: map<Id, NotifAttention>,
    dedup: DedupTable)

  /** Times are milliseconds; the durations are those of `ledger.rs`. */
  const UNREAD_CAP: nat := 100
  const UNREAD_TTL: nat := 72 * 60 * 60 * 1000
  const IDENTITY_CAP: nat := 512
  const DEDUP_TTL: nat := 10 * 60 * 1000
  const RESERVATION_TIMEOUT: nat := 30 * 1000

  /** `now_ms.saturating_sub(start) >= duration`: a clock that went back never expires anything. */
  predicate IsExpired(start: nat, duration: nat, now: nat) {
    (if now >= start then now - start else 0) >= duration
  }

  /** Something expires when its duration is over, whatever the clock did in between. */
  lemma ExpiredIff(start: nat, duration: nat, now: nat)
    requires duration > 0
    ensures IsExpired(start, duration, now) <==> now >= start + duration
  {
  }

  function MoreSevere(a: Severity, b: Severity): Severity {
    if b.Rank() > a.Rank() then b else a
  }

  /** The most severe of the first `n` unread events. */
  function MaxSeverity(unread: seq<UnreadEvent>, n: nat): Option<Severity>
    requires n <= |unread|
  {
    if n == 0 then None
    else
      var before := MaxSeverity(unread, n - 1);
      Some(if before.Some? then MoreSevere(before.value, unread[n - 1].severity) else unread[n - 1].severity)
  }

  lemma {:induction false} MaxSeverityIsMax(unread: seq<UnreadEvent>, n: nat)
    requires n <= |unread|
    ensures MaxSeverity(unread, n).None? <==> n == 0
    ensures n > 0 ==> exists i :: 0 <= i < n && unread[i].severity == MaxSeverity(unread, n).value
    ensures forall i :: 0 <= i < n ==> unread[i].severity.Rank() <= MaxSeverity(unread, n).value.Rank()
  {
    if n > 0 {
      MaxSeverityIsMax(unread, n - 1);
      assert unread[n - 1].severity == unread[n - 1].severity;
    }
  }

  /** In words: urgent if anything is, info only if everything is. */
  lemma SeverityShown(unread: seq<UnreadEvent>)
    requires unread != []
    ensures var shown := MaxSeverity(unread, |unread|).value;
            && (shown == Urgent <==> exists i :: 0 <= i < |unread| && unread[i].severity == Urgent)
            && (shown in {Urgent, Error} <==> exists i :: 0 <= i < |unread| && unread[i].severity in {Urgent, Error})
            && (shown in {Info, Severity.Success} <==>
                  forall i :: 0 <= i < |unread| ==> unread[i].severity in {Info, Severity.Success})
            && (shown == Info <==> forall i :: 0 <= i < |unread| ==> unread[i].severity == Info)
  {
    hide MaxSeverity;
    MaxSeverityIsMax(unread, |unread|);
  }

  function FirstUnreadAt(pane: PaneAttention): Option<nat> {
    if pane.unread == [] then None else Some(pane.unread[0].occurredAt)
  }

  function ViewOfPane(pane: PaneAttention): PaneView {
    PaneView(pane.latestEventSeq, pane.readThroughSeq, FirstUnreadAt(pane), MaxSeverity(pane.unread, |pane.unread|))
  }

  function PaneViews(panes: map<Id, PaneAttention>): map<Id, PaneView> {
    map id | id in panes :: ViewOfPane(panes[id])
  }

  function NotifViews(notifs: map<Id, NotifAttention>): map<Id, NotifView> {
    map id | id in notifs :: NotifView(notifs[id].read)
  }

  function SnapshotOf(s: Ledger): Snapshot {
    Snapshot(s.epoch, s.revision, PaneViews(s.panes), NotifViews(s.notifs))
  }
}
