/** What the protocol layer answers, and what its answers say about the ledger after the call. */
module NotificationAnswers {
  import opened Common
  import opened AttentionTypes
  import opened AttentionInvariant
  import opened NotificationSpec
  import opened NotificationRuns
  import AttentionRuns
  import AttentionSpec
  import Dedup
  import NotifHistory
  import PaneEffects
  import ReadReceipts

  predicate NamesPane(req: NotifyRequest) {
    req.paneId.Some? && req.paneId.value != ""
  }

  predicate MeansSeverity(notificationType: string, severity: Severity) {
    match severity
    case Info => notificationType in {"info", "bell"}
    case Success => notificationType == "success"
    case Warning => notificationType == "warning"
    case Error => notificationType == "error"
    case Urgent => notificationType == "urgent"
  }

  predicate WellTyped(req: NotifyRequest) {
    req.notificationType in {"info", "bell", "success", "warning", "error", "urgent"}
  }

  // ---- before the ledger is consulted ----

  /**
   * A request is malformed exactly for its type, its source, or, unless it is an idle reminder that is
   * switched off, for its identifiers. It then leaves no trace, and neither does such a reminder.
   */
  lemma TurnedAwayIff(s: Ledger, req: NotifyRequest, env: Env)
    requires env.freshClient != "" && env.freshRequest != ""
    ensures var (after, result) := ProcessNotify(s, req, env);
            var wellFormed := WellTyped(req) && (req.source.None? || req.source.value == "plugin");
            var silenced := env.cfg.enabled && req.category == Some("idle_reminder") && !env.cfg.idleReminder;
            var identified :=
              && (req.clientId.Some? <==> req.requestId.Some?) && req.clientId != Some("") && req.requestId != Some("")
              && (NamesPane(req) ==> env.paneIdIsUuid);
            && (result.Malformed? <==> !wellFormed || (!silenced && !identified))
            && (wellFormed && silenced ==> result == Outcome(Suppressed("idle_reminder_disabled")))
            && (EarlyAnswer(req, env).None? <==> wellFormed && !silenced && identified)
            && (EarlyAnswer(req, env).Some? ==> after == s)
  {
    hide Produce, Dedup.Reserve, Dedup.Complete;
  }

  // ---- a request that gets its reservation ----

  /** No room for another identity: every one there is holds something unread from a later time. */
  predicate FullOfLaterPanes(s: Ledger, now: nat) {
    var panes := AttentionSpec.Expire(s, now).panes;
    |panes| == IDENTITY_CAP && forall id :: id in panes ==>
        panes[id].unread != [] && panes[id].unread[0].occurredAt > now
  }

  predicate FullOfLaterNotifs(s: Ledger, now: nat) {
    var notifs := AttentionSpec.Expire(s, now).notifs;
    |notifs| == IDENTITY_CAP && forall id :: id in notifs ==> !notifs[id].read && notifs[id].occurredAt > now
  }

  /** The event stands in the ledger as the newest of its pane. */
  predicate PaneStands(after: Ledger, id: Id, event: UnreadEvent) {
    && id in after.panes && after.panes[id].unread != []
    && after.panes[id].unread[|after.panes[id].unread| - 1] == event
    && after.panes[id].latestEventSeq == event.seqNo
  }

  /** Nothing a client could see has changed. */
  predicate Unchanged(s: Ledger, after: Ledger) {
    && after.panes == s.panes && after.notifs == s.notifs
    && after.nextEventSeq == s.nextEventSeq && after.revision == s.revision && after.epoch == s.epoch
  }

  /** What the answer of a newly reserved request says. */
  ghost predicate AnswerTells(s: Ledger, req: NotifyRequest, env: Env, after: Ledger, outcome: ProducerOutcome) {
    match outcome
    case Suppressed(reason) => !env.cfg.enabled && reason == "notification_disabled" && Unchanged(s, after)
    case PaneNotFound => env.cfg.enabled && NamesPane(req) && !env.paneIsLive && Unchanged(s, after)
    case AcceptedPane(id, eventSeq, revision) =>
      && env.cfg.enabled && NamesPane(req) && env.paneIsLive && id == req.paneId.value
      && eventSeq == s.nextEventSeq && after.nextEventSeq == s.nextEventSeq + 1
      && revision == after.revision == s.revision + 1
      && (id in after.panes <==> !(id !in AttentionSpec.Expire(s, env.now).panes && FullOfLaterPanes(s, env.now)))
      && (id in after.panes ==>
            exists severity :: MeansSeverity(req.notificationType, severity)
                               && PaneStands(after, id, UnreadEvent(eventSeq, env.now, severity)))
    case AcceptedNotif(id, eventSeq, revision) =>
      && env.cfg.enabled && !NamesPane(req) && id == env.freshNotif
      && eventSeq == s.nextEventSeq && after.nextEventSeq == s.nextEventSeq + 1
      && revision == after.revision == s.revision + 1
      && (id in after.notifs <==> !(id !in AttentionSpec.Expire(s, env.now).notifs && FullOfLaterNotifs(s, env.now)))
      && (id in after.notifs ==>
            exists severity :: MeansSeverity(req.notificationType, severity)
                               && after.notifs[id] == NotifAttention(eventSeq, env.now, severity, false, None))
  }

  /**
   * Suppressed exactly if notifications are off; "not found" exactly for a pane that is not live; and
   * otherwise accepted, and the answer names identity, number and revision of the one new event.
   */
  lemma NotifyAnswers(s: Ledger, log: Log, req: NotifyRequest, env: Env)
    requires Invariant(s, log) && EarlyAnswer(req, env).None?
    requires Dedup.Reserve(s.dedup, KeyOf(req, env), req.payloadHash, env.now).1.Reserved?
    ensures ProcessNotify(s, req, env).1.Outcome?
    ensures AnswerTells(s, req, env, ProcessNotify(s, req, env).0, ProcessNotify(s, req, env).1.outcome)
  {
    hide Invariant, AnswerTells, Produce, Dedup.Reserve, Dedup.Complete, KeyOf;
    var (table, _) := Dedup.Reserve(s.dedup, KeyOf(req, env), req.payloadHash, env.now);
    var reserved := s.(dedup := table);
    assert Invariant(reserved, log) by { OtherTable(s, log, table); }
    ProduceTells(reserved, log, req, env);
    var (mid, outcome) := Produce(reserved, req, env);
    SameButTable(s, reserved, req, env, mid, ProcessNotify(s, req, env).0, outcome);
  }

  lemma OtherTable(s: Ledger, log: Log, table: DedupTable)
    requires Invariant(s, log)
    ensures Invariant(s.(dedup := table), log)
  {
  }

  /** The table of answered requests plays no part in what the answer says. */
  lemma SameButTable(
    s: Ledger, s': Ledger, req: NotifyRequest, env: Env, a: Ledger, a': Ledger, outcome: ProducerOutcome)
    requires AnswerTells(s', req, env, a, outcome) && s' == s.(dedup := s'.dedup) && a' == a.(dedup := a'.dedup)
    ensures AnswerTells(s, req, env, a', outcome)
  {
    hide AttentionSpec.ExpirePanes, AttentionSpec.ExpireNotifs, MeansSeverity;
  }

  lemma ProduceTells(s: Ledger, log: Log, req: NotifyRequest, env: Env)
    requires Invariant(s, log) && EarlyAnswer(req, env).None?
    ensures AnswerTells(s, req, env, Produce(s, req, env).0, Produce(s, req, env).1)
  {
    hide Invariant, AnswerTells, AttentionSpec.RecordPane, AttentionSpec.RecordNotif;
    assert SeverityFromType(req.notificationType).Some?;
    var severity := SeverityFromType(req.notificationType).value;
    var (after, outcome) := Produce(s, req, env);
    if outcome.AcceptedPane? {
      assert MeansSeverity(req.notificationType, severity);
      PaneRecorded(s, log, outcome.paneId, severity, env.now);
      PaneTells(s, req, env, after, outcome, severity);
    } else if outcome.AcceptedNotif? {
      assert MeansSeverity(req.notificationType, severity);
      NotifRecorded(s, log, outcome.notifId, severity, env.now);
      NotifTells(s, req, env, after, outcome, severity);
    } else {
      NothingTells(s, req, env, outcome);
    }
  }

  lemma NothingTells(s: Ledger, req: NotifyRequest, env: Env, outcome: ProducerOutcome)
    requires outcome.Suppressed? ==> !env.cfg.enabled && outcome.reason == "notification_disabled"
    requires outcome.PaneNotFound? ==> env.cfg.enabled && NamesPane(req) && !env.paneIsLive
    requires outcome.Suppressed? || outcome.PaneNotFound?
    ensures AnswerTells(s, req, env, s, outcome)
  {
  }

  lemma PaneTells(s: Ledger, req: NotifyRequest, env: Env, after: Ledger, outcome: ProducerOutcome, severity: Severity)
    requires outcome.AcceptedPane? && outcome == AcceptedPane(outcome.paneId, s.nextEventSeq, s.revision + 1)
    requires env.cfg.enabled && NamesPane(req) && env.paneIsLive && outcome.paneId == req.paneId.value
    requires MeansSeverity(req.notificationType, severity)
    requires after.nextEventSeq == s.nextEventSeq + 1 && after.revision == s.revision + 1
    requires outcome.paneId in after.panes <==>
             !(outcome.paneId !in AttentionSpec.Expire(s, env.now).panes && FullOfLaterPanes(s, env.now))
    requires outcome.paneId in after.panes ==>
               PaneStands(after, outcome.paneId, UnreadEvent(s.nextEventSeq, env.now, severity))
    ensures AnswerTells(s, req, env, after, outcome)
  {
    hide FullOfLaterPanes, PaneStands, MeansSeverity, AttentionSpec.ExpirePanes;
  }

  lemma NotifTells(s: Ledger, req: NotifyRequest, env: Env, after: Ledger, outcome: ProducerOutcome, severity: Severity)
    requires outcome.AcceptedNotif? && outcome == AcceptedNotif(outcome.notifId, s.nextEventSeq, s.revision + 1)
    requires env.cfg.enabled && !NamesPane(req) && outcome.notifId == env.freshNotif
    requires MeansSeverity(req.notificationType, severity)
    requires after.nextEventSeq == s.nextEventSeq + 1 && after.revision == s.revision + 1
    requires outcome.notifId in after.notifs <==>
             !(outcome.notifId !in AttentionSpec.Expire(s, env.now).notifs && FullOfLaterNotifs(s, env.now))
    requires outcome.notifId in after.notifs ==>
               after.notifs[outcome.notifId] == NotifAttention(s.nextEventSeq, env.now, severity, false, None)
    ensures AnswerTells(s, req, env, after, outcome)
  {
    hide FullOfLaterNotifs, MeansSeverity, AttentionSpec.ExpireNotifs;
  }

  /** The pane recorded for stands, with the new event last, unless there is no room for it. */
  lemma PaneRecorded(s: Ledger, log: Log, id: Id, severity: Severity, now: nat)
    requires Invariant(s, log)
    ensures var after := AttentionSpec.RecordPane(s, id, now, severity, now);
            && (id in after.panes <==> !(id !in AttentionSpec.Expire(s, now).panes && FullOfLaterPanes(s, now)))
            && (id in after.panes ==> PaneStands(after, id, UnreadEvent(s.nextEventSeq, now, severity)))
            && after.nextEventSeq == s.nextEventSeq + 1 && after.revision == s.revision + 1
  {
    hide Invariant, AttentionSpec.Expire, PaneEffects.Evicted, PaneEffects.EventsAfter;
    var op := AttentionRuns.OpRecordPane(id, now, severity, now);
    PaneEffects.PanePresence(s, log, op, id);
    PaneEffects.EvictedAtOnceIff(s, log, op);
    AttentionRuns.RevisionMovesByOne(s, op);
    if id in AttentionRuns.Step(s, op).panes {
      PaneEffects.PaneAfter(s, log, op, id);
      assert PaneStands(AttentionRuns.Step(s, op), id, UnreadEvent(s.nextEventSeq, now, severity)) by {
        StandsLast(s, op);
      }
    }
  }

  lemma StandsLast(s: Ledger, op: AttentionRuns.Op)
    requires op.OpRecordPane? && op.id in AttentionRuns.Step(s, op).panes
    requires var before := PaneEffects.Before(s, op, op.id);
             PaneEffects.IsAfter(s, op, op.id, before, AttentionRuns.Step(s, op).panes[op.id])
    ensures PaneStands(AttentionRuns.Step(s, op), op.id, UnreadEvent(s.nextEventSeq, op.occurredAt, op.severity))
  {
    hide AttentionRuns.Step, PaneEffects.Kept, PaneEffects.Base, PaneEffects.Before;
  }

  lemma NotifRecorded(s: Ledger, log: Log, id: Id, severity: Severity, now: nat)
    requires Invariant(s, log)
    ensures var after := AttentionSpec.RecordNotif(s, id, now, severity, now);
            && (id in after.notifs <==> !(id !in AttentionSpec.Expire(s, now).notifs && FullOfLaterNotifs(s, now)))
            && (id in after.notifs ==> after.notifs[id] == NotifAttention(s.nextEventSeq, now, severity, false, None))
            && after.nextEventSeq == s.nextEventSeq + 1 && after.revision == s.revision + 1
  {
    hide Invariant, AttentionSpec.Expire, NotifHistory.NotifEvicted;
    var op := AttentionRuns.OpRecordNotif(id, now, severity, now);
    NotifHistory.NotifAfter(s, log, op, id);
    NotifHistory.NotifEvictedAtOnceIff(s, log, op);
    AttentionRuns.RevisionMovesByOne(s, op);
  }

  // ---- read requests ----

  /** The targets with a watermark that is a number are the receipts, and nothing else is. */
  lemma {:induction false} ParsedExactly(targets: seq<ReadTarget>)
    ensures forall r :: r in Parsed(targets) <==> ReadTarget(r.paneId, Some(r.throughSeq)) in targets
    decreases |targets|
  {
    if targets != [] {
      var init, last := targets[..|targets| - 1], targets[|targets| - 1];
      ParsedExactly(init);
      assert targets == init + [last];
    }
  }

  /** What the verdict on a pane says about the ledger after the call. */
  predicate PaneVerdict(current: bool, after: Ledger, r: Receipt, status: TargetStatus) {
    && (status == StaleEpoch <==> !current)
    && (status == NotFound <==> current && r.paneId !in after.panes)
    && (status == Invalid <==>
        current && r.paneId in after.panes && r.throughSeq > after.panes[r.paneId].latestEventSeq)
    && (status == Applied <==> current && ReadReceipts.PaneShowsRead(after, r))
  }

  predicate NotifVerdict(current: bool, after: Ledger, id: Id, status: TargetStatus) {
    && (status == StaleEpoch <==> !current)
    && (status == NotFound <==> current && id !in after.notifs)
    && (status == Applied <==> current && ReadReceipts.NotifShowsRead(after, id))
  }

  /** Every target of the request is answered, truly. */
  ghost predicate TargetsTold(s: Ledger, req: MarkReadRequest, after: Ledger, reply: MarkReadResult) {
    var current := req.epoch == s.epoch;
    && (forall t :: t in req.panes && t.parsed.Some? ==>
          exists i :: 0 <= i < |reply.results| && reply.results[i].target == Pane(t.paneId)
                      && PaneVerdict(current, after, Receipt(t.paneId, t.parsed.value), reply.results[i].status))
    && (forall id :: id in req.notifs ==>
          exists i :: 0 <= i < |reply.results| && reply.results[i].target == Notif(id)
                      && NotifVerdict(current, after, id, reply.results[i].status))
  }

  /** A revision is given exactly if a target shows as read, in the request's own epoch, and is the present one. */
  ghost predicate AppliedTold(s: Ledger, req: MarkReadRequest, after: Ledger, reply: MarkReadResult) {
    && (reply.appliedAtRevision.Some? <==>
        && req.epoch == s.epoch
        && ((exists t :: t in req.panes && t.parsed.Some?
                         && ReadReceipts.PaneShowsRead(after, Receipt(t.paneId, t.parsed.value)))
            || (exists id :: id in req.notifs && ReadReceipts.NotifShowsRead(after, id))))
    && (reply.appliedAtRevision.Some? ==> reply.appliedAtRevision.value == after.revision)
  }

  ghost predicate ReplyTells(s: Ledger, req: MarkReadRequest, after: Ledger, reply: MarkReadResult) {
    && reply.requestId == req.requestId && reply.epoch == s.epoch
    && TargetsTold(s, req, after, reply) && AppliedTold(s, req, after, reply)
  }

  /** The answer to a newly reserved read request says of every target how the ledger stands now. */
  lemma MarkReadAnswers(s: Ledger, log: Log, req: MarkReadRequest, now: nat)
    requires Invariant(s, log) && Dedup.Reserve(s.dedup, ReadKey(req), req.payloadHash, now).1.Reserved?
    ensures ApplyMarkRead(s, req, now).1.Some?
    ensures ReplyTells(s, req, ApplyMarkRead(s, req, now).0, ApplyMarkRead(s, req, now).1.value)
  {
    hide Invariant, ReplyTells, AttentionSpec.MarkRead, AttentionSpec.Verdicts, AttentionSpec.AppliedAt, Parsed,
      Dedup.Reserve, Dedup.Complete;
    var (table, _) := Dedup.Reserve(s.dedup, ReadKey(req), req.payloadHash, now);
    var before := s.(dedup := table);
    assert Invariant(before, log) by { OtherTable(s, log, table); }
    var (after, reply) := ApplyMarkRead(s, req, now);
    var mid := AttentionSpec.MarkRead(before, req.epoch, Parsed(req.panes), req.notifs, now);
    EveryTargetTold(before, log, req, now);
    ReadReceipts.AppliedAtTrue(before, log, req.epoch, Parsed(req.panes), req.notifs, now);
    AppliedAtTold(before, req, now, mid);
    SameReply(s, before, req, mid, after, reply.value);
  }

  /** The reply as it is put together from the ledger's answers. */
  function ReplyOf(s: Ledger, req: MarkReadRequest, now: nat): MarkReadResult {
    var after := AttentionSpec.MarkRead(s, req.epoch, Parsed(req.panes), req.notifs, now);
    var results := AttentionSpec.Verdicts(s, req.epoch, Parsed(req.panes), req.notifs, now);
    MarkReadResult(req.requestId, s.epoch, AttentionSpec.AppliedAt(after, results), results)
  }

  lemma EveryTargetTold(s: Ledger, log: Log, req: MarkReadRequest, now: nat)
    requires Invariant(s, log)
    ensures TargetsTold(s, req, AttentionSpec.MarkRead(s, req.epoch, Parsed(req.panes), req.notifs, now),
            ReplyOf(s, req, now))
  {
    hide Invariant, AttentionSpec.MarkRead, AttentionSpec.Verdicts, AttentionSpec.AppliedAt, Parsed,
      ReadReceipts.PaneShowsRead, ReadReceipts.NotifShowsRead, PaneVerdict, NotifVerdict;
    var after := AttentionSpec.MarkRead(s, req.epoch, Parsed(req.panes), req.notifs, now);
    var receipts, results := Parsed(req.panes), ReplyOf(s, req, now).results;
    ParsedExactly(req.panes);
    assert |results| == |receipts| + |req.notifs| by {
      ReadReceipts.VerdictCount(s, req.epoch, receipts, req.notifs, now);
    }
    forall t | t in req.panes && t.parsed.Some?
      ensures exists i :: 0 <= i < |results| && results[i].target == Pane(t.paneId)
                && PaneVerdict(req.epoch == s.epoch, after, Receipt(t.paneId, t.parsed.value), results[i].status)
    {
      assert t == ReadTarget(t.paneId, Some(t.parsed.value));
      assert Receipt(t.paneId, t.parsed.value) in receipts;
      var i :| 0 <= i < |receipts| && receipts[i] == Receipt(t.paneId, t.parsed.value);
      OnePaneTold(s, log, req.epoch, receipts, req.notifs, now, i);
    }
    forall id | id in req.notifs
      ensures exists i :: 0 <= i < |results| && results[i].target == Notif(id)
                && NotifVerdict(req.epoch == s.epoch, after, id, results[i].status)
    {
      var i :| 0 <= i < |req.notifs| && req.notifs[i] == id;
      OneNotifTold(s, req.epoch, receipts, req.notifs, now, i);
      assert results[|receipts| + i].target == Notif(id);
    }
  }

  lemma OnePaneTold(s: Ledger, log: Log, epoch: string, receipts: seq<Receipt>, notifIds: seq<Id>, now: nat, i: nat)
    requires Invariant(s, log) && i < |receipts|
    ensures var results := AttentionSpec.Verdicts(s, epoch, receipts, notifIds, now);
            && |results| == |receipts| + |notifIds|
            && results[i].target == Pane(receipts[i].paneId)
            && PaneVerdict(epoch == s.epoch, AttentionSpec.MarkRead(s, epoch, receipts, notifIds, now), receipts[i],
                           results[i].status)
  {
    hide Invariant, AttentionSpec.MarkRead, AttentionSpec.Verdicts, ReadReceipts.PaneShowsRead;
    ReadReceipts.VerdictCount(s, epoch, receipts, notifIds, now);
    ReadReceipts.PaneVerdictTrue(s, log, epoch, receipts, notifIds, now, i);
  }

  lemma OneNotifTold(s: Ledger, epoch: string, receipts: seq<Receipt>, notifIds: seq<Id>, now: nat, i: nat)
    requires i < |notifIds|
    ensures var results := AttentionSpec.Verdicts(s, epoch, receipts, notifIds, now);
            && |results| == |receipts| + |notifIds|
            && results[|receipts| + i].target == Notif(notifIds[i])
            && NotifVerdict(epoch == s.epoch, AttentionSpec.MarkRead(s, epoch, receipts, notifIds, now), notifIds[i],
                            results[|receipts| + i].status)
  {
    hide AttentionSpec.MarkRead, AttentionSpec.Verdicts, ReadReceipts.NotifShowsRead;
    ReadReceipts.NotifVerdictTrue(s, epoch, receipts, notifIds, now, i);
  }

  lemma AppliedAtTold(s: Ledger, req: MarkReadRequest, now: nat, after: Ledger)
    requires after == AttentionSpec.MarkRead(s, req.epoch, Parsed(req.panes), req.notifs, now)
    requires var applied := AttentionSpec.AppliedAt(after, ReplyOf(s, req, now).results);
             && (applied.Some? <==>
                 && req.epoch == s.epoch
                 && ((exists r :: r in Parsed(req.panes) && ReadReceipts.PaneShowsRead(after, r))
                     || (exists id :: id in req.notifs && ReadReceipts.NotifShowsRead(after, id))))
             && (applied.Some? ==> applied.value == after.revision)
    ensures AppliedTold(s, req, after, ReplyOf(s, req, now))
  {
    hide AttentionSpec.MarkRead, AttentionSpec.Verdicts, AttentionSpec.AppliedAt, Parsed, ReadReceipts.PaneShowsRead,
      ReadReceipts.NotifShowsRead;
    ParsedExactly(req.panes);
    if r :| r in Parsed(req.panes) && ReadReceipts.PaneShowsRead(after, r) {
      var t := ReadTarget(r.paneId, Some(r.throughSeq));
      assert t in req.panes && Receipt(t.paneId, t.parsed.value) == r;
    }
    if t :| t in req.panes && t.parsed.Some? && ReadReceipts.PaneShowsRead(after, Receipt(t.paneId, t.parsed.value)) {
      assert t == ReadTarget(t.paneId, Some(t.parsed.value));
      assert Receipt(t.paneId, t.parsed.value) in Parsed(req.panes);
    }
  }

  lemma SameReply(s: Ledger, s': Ledger, req: MarkReadRequest, a: Ledger, a': Ledger, reply: MarkReadResult)
    requires s' == s.(dedup := s'.dedup) && a' == a.(dedup := a'.dedup)
    requires TargetsTold(s', req, a, reply) && AppliedTold(s', req, a, reply)
    requires reply.requestId == req.requestId && reply.epoch == s.epoch
    ensures ReplyTells(s, req, a', reply)
  {
    TargetsSame(s, s', req, a, a', reply);
    AppliedSame(s, s', req, a, a', reply);
  }

  lemma TargetsSame(s: Ledger, s': Ledger, req: MarkReadRequest, a: Ledger, a': Ledger, reply: MarkReadResult)
    requires s' == s.(dedup := s'.dedup) && a' == a.(dedup := a'.dedup) && TargetsTold(s', req, a, reply)
    ensures TargetsTold(s, req, a', reply)
  {
    var current := req.epoch == s.epoch;
    assert forall r, status :: PaneVerdict(current, a, r, status) ==> PaneVerdict(current, a', r, status);
    assert forall id, status :: NotifVerdict(current, a, id, status) ==> NotifVerdict(current, a', id, status);
    hide PaneVerdict, NotifVerdict;
  }

  lemma AppliedSame(s: Ledger, s': Ledger, req: MarkReadRequest, a: Ledger, a': Ledger, reply: MarkReadResult)
    requires s' == s.(dedup := s'.dedup) && a' == a.(dedup := a'.dedup) && AppliedTold(s', req, a, reply)
    ensures AppliedTold(s, req, a', reply)
  {
    assert forall r :: ReadReceipts.PaneShowsRead(a, r) <==> ReadReceipts.PaneShowsRead(a', r);
    assert forall id :: ReadReceipts.NotifShowsRead(a, id) <==> ReadReceipts.NotifShowsRead(a', id);
    hide ReadReceipts.PaneShowsRead, ReadReceipts.NotifShowsRead;
  }

  // ---- the same key for another payload ----

  /** A notify request that reuses a key for something else is a conflict, and changes nothing. */
  lemma ChangedNotifyConflicts(
    s: Ledger, req: NotifyRequest, env: Env, between: seq<ServiceCall>, again: NotifyRequest, env': Env)
    requires EarlyAnswer(req, env).None? && EarlyAnswer(again, env').None?
    requires Dedup.Reserve(s.dedup, KeyOf(req, env), req.payloadHash, env.now).1.Reserved?
    requires forall i :: 0 <= i < |between| ==> TimeOf(between[i]) < env.now + DEDUP_TTL
    requires KeyOf(again, env') == KeyOf(req, env) && again.payloadHash != req.payloadHash
    requires env'.now < env.now + DEDUP_TTL
    ensures var later := ServeAll(ProcessNotify(s, req, env).0, between);
            ProcessNotify(later, again, env') == (later, RequestConflict)
  {
    hide EarlyAnswer, KeyOf, ProcessNotify, Dedup.Reserve;
    var (first, result) := ProcessNotify(s, req, env);
    NotifyCompletes(s, req, env);
    HoldsThroughAll(first, between, KeyOf(req, env), req.payloadHash, env.now, ProducerDone(result.outcome));
    HeldConflicts(ServeAll(first, between), again, env', req.payloadHash, env.now, ProducerDone(result.outcome));
  }

  lemma HeldConflicts(s: Ledger, req: NotifyRequest, env: Env, payloadHash: nat, doneAt: nat, outcome: DedupOutcome)
    requires EarlyAnswer(req, env).None? && Holds(s, KeyOf(req, env), payloadHash, doneAt, outcome)
    requires payloadHash != req.payloadHash && env.now < doneAt + DEDUP_TTL
    ensures ProcessNotify(s, req, env) == (s, RequestConflict)
  {
    hide EarlyAnswer, KeyOf, Produce;
  }

  /** A read request that does so is refused target by target: every target once, all conflicts, nothing applied. */
  lemma ChangedReadConflicts(
    s: Ledger, req: MarkReadRequest, now: nat, between: seq<ServiceCall>, again: MarkReadRequest, now': nat)
    requires Dedup.Reserve(s.dedup, ReadKey(req), req.payloadHash, now).1.Reserved?
    requires forall i :: 0 <= i < |between| ==> TimeOf(between[i]) < now + DEDUP_TTL
    requires ReadKey(again) == ReadKey(req) && again.payloadHash != req.payloadHash && now' < now + DEDUP_TTL
    ensures var later := ServeAll(ApplyMarkRead(s, req, now).0, between);
            var (after, reply) := ApplyMarkRead(later, again, now');
            && after == later && reply.Some?
            && reply.value.requestId == again.requestId && reply.value.appliedAtRevision == None
            && |reply.value.results| == |again.panes| + |again.notifs|
            && (forall i :: 0 <= i < |reply.value.results| ==> reply.value.results[i].status == Conflict)
            && (forall i :: 0 <= i < |again.panes| ==> reply.value.results[i].target == Pane(again.panes[i].paneId))
            && (forall i :: 0 <= i < |again.notifs| ==>
                  reply.value.results[|again.panes| + i].target == Notif(again.notifs[i]))
  {
    hide ReadKey, ApplyMarkRead, Dedup.Reserve;
    var (first, reply) := ApplyMarkRead(s, req, now);
    MarkReadCompletes(s, req, now);
    HoldsThroughAll(first, between, ReadKey(req), req.payloadHash, now, MarkReadDone(reply.value));
    HeldReadConflicts(ServeAll(first, between), again, req.payloadHash, now, MarkReadDone(reply.value), now');
  }

  lemma HeldReadConflicts(
    s: Ledger, req: MarkReadRequest, payloadHash: nat, doneAt: nat, outcome: DedupOutcome, now: nat)
    requires Holds(s, ReadKey(req), payloadHash, doneAt, outcome)
    requires payloadHash != req.payloadHash && now < doneAt + DEDUP_TTL
    ensures ApplyMarkRead(s, req, now) == (s, Some(ConflictResult(req, s.epoch)))
  {
    hide ConflictResult, AttentionSpec.MarkRead, AttentionSpec.Verdicts, AttentionSpec.AppliedAt;
  }

  // ---- keys are identifiers ----

  /** The call carries the client and request identifiers. */
  predicate Carries(call: ServiceCall, clientId: string, requestId: string) {
    match call
    case CallNotify(req, env) =>
      && (if req.clientId.Some? then req.clientId.value else env.freshClient) == clientId
      && (if req.requestId.Some? then req.requestId.value else env.freshRequest) == requestId
    case CallMarkRead(req, _) => req.clientId == clientId && req.requestId == requestId
    case _ => false
  }

  /** A call leaves no entry in the table but its own and those that were there. */
  lemma OnlyItsOwnKey(s: Ledger, call: ServiceCall, key: DedupKey)
    requires key in Serve(s, call).dedup.entries
    ensures key in s.dedup.entries || Carries(call, key.0, key.1)
  {
    hide Produce, EarlyAnswer, AttentionSpec.ExpirePanes, AttentionSpec.ExpireNotifs, AttentionSpec.MarkPanes,
         PaneViews,
      NotifViews, Dedup.EntryExpired;
    match call
    case CallNotify(req, env) =>
      if EarlyAnswer(req, env).None? && Dedup.Reserve(s.dedup, KeyOf(req, env), req.payloadHash, env.now).1.Reserved? {
        NotifyCompletes(s, req, env);
      }
    case CallMarkRead(req, now) =>
      if Dedup.Reserve(s.dedup, ReadKey(req), req.payloadHash, now).1.Reserved? {
        MarkReadCompletes(s, req, now);
      }
    case _ =>
  }

  lemma {:induction false} TableFromCalls(epoch: string, calls: seq<ServiceCall>, key: DedupKey)
    requires key in ServeAll(InitialLedger(epoch), calls).dedup.entries
    ensures exists i :: 0 <= i < |calls| && Carries(calls[i], key.0, key.1)
    decreases |calls|
  {
    hide Serve, Carries;
    if calls != [] {
      var init := calls[..|calls| - 1];
      OnlyItsOwnKey(ServeAll(InitialLedger(epoch), init), calls[|calls| - 1], key);
      if key in ServeAll(InitialLedger(epoch), init).dedup.entries {
        TableFromCalls(epoch, init, key);
        var i :| 0 <= i < |init| && Carries(init[i], key.0, key.1);
        assert Carries(calls[i], key.0, key.1);
      }
    }
  }

  /** Whoever comes with identifiers that no call has carried before gets a reservation: nobody is taken for another. */
  lemma NewIdsAreServed(
    epoch: string, calls: seq<ServiceCall>, req: NotifyRequest, env: Env, read: MarkReadRequest, now: nat)
    ensures var s := ServeAll(InitialLedger(epoch), calls);
            && ((forall i :: 0 <= i < |calls| ==> !Carries(calls[i], KeyOf(req, env).0, KeyOf(req, env).1)) ==>
                  Dedup.Reserve(s.dedup, KeyOf(req, env), req.payloadHash, env.now).1.Reserved?)
            && ((forall i :: 0 <= i < |calls| ==> !Carries(calls[i], read.clientId, read.requestId)) ==>
                  Dedup.Reserve(s.dedup, ReadKey(read), read.payloadHash, now).1.Reserved?)
    ensures Carries(CallNotify(req, env), KeyOf(req, env).0, KeyOf(req, env).1)
    ensures ReadKey(read) == (read.clientId, read.requestId)
  {
    hide ServeAll;
    var s := ServeAll(InitialLedger(epoch), calls);
    if KeyOf(req, env) in s.dedup.entries {
      TableFromCalls(epoch, calls, KeyOf(req, env));
    }
    if ReadKey(read) in s.dedup.entries {
      TableFromCalls(epoch, calls, ReadKey(read));
    }
  }

  /** A key taken by a read request is a conflict for a producer, and nothing changes. */
  lemma ReadKeyConflicts(
    s: Ledger, read: MarkReadRequest, now: nat, between: seq<ServiceCall>, req: NotifyRequest, env: Env)
    requires Dedup.Reserve(s.dedup, ReadKey(read), read.payloadHash, now).1.Reserved?
    requires forall i :: 0 <= i < |between| ==> TimeOf(between[i]) < now + DEDUP_TTL
    requires EarlyAnswer(req, env).None? && KeyOf(req, env) == ReadKey(read) && env.now < now + DEDUP_TTL
    ensures var later := ServeAll(ApplyMarkRead(s, read, now).0, between);
            ProcessNotify(later, req, env) == (later, RequestConflict)
  {
    hide ReadKey, KeyOf, EarlyAnswer, ApplyMarkRead, ProcessNotify, Dedup.Reserve;
    var (first, reply) := ApplyMarkRead(s, read, now);
    MarkReadCompletes(s, read, now);
    HoldsThroughAll(first, between, ReadKey(read), read.payloadHash, now, MarkReadDone(reply.value));
    HeldByReader(ServeAll(first, between), req, env, read.payloadHash, now, reply.value);
  }

  lemma HeldByReader(s: Ledger, req: NotifyRequest, env: Env, payloadHash: nat, doneAt: nat, result: MarkReadResult)
    requires EarlyAnswer(req, env).None? && Holds(s, KeyOf(req, env), payloadHash, doneAt, MarkReadDone(result))
    requires env.now < doneAt + DEDUP_TTL
    ensures ProcessNotify(s, req, env) == (s, RequestConflict)
  {
    hide EarlyAnswer, KeyOf, Produce;
  }

  /** A program's own request has the severity of its type, and is informational if it has none. */
  lemma UntypedIsInfo(req: NotifyRequest)
    ensures MeansSeverity(req.notificationType, SeverityOrInfo(req.notificationType)) <==> WellTyped(req)
    ensures !WellTyped(req) ==> SeverityOrInfo(req.notificationType) == Info
  {
  }
}
