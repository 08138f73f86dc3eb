/**
 * The protocol layer over the ledger: `src/notification/broadcast.rs`. Every call reserves, mutates and
 * completes under one lock, so a call is one step of the state.
 *
 * What the calls read from outside is passed in: the clock, the settings, pane liveness, fresh
 * identifiers, and the payload hash.
 */
module NotificationSpec {
  import opened Common
  import opened AttentionTypes
  import AttentionSpec
  import Dedup

  datatype Config = Config(enabled: bool, bellEnabled: bool, oscNotify: bool, idleReminder: bool,
    bellDebounceMs: nat, oscDebounceMs: nat)

  datatype IngestSource = Bell(debounceDuplicate: bool) | OscNotify(debounceDuplicate: bool) | Plugin

  datatype GateResult = Accepted | Refused(reason: string)

  function EvaluateIngestGate(cfg: Config, source: IngestSource): GateResult {
    if !cfg.enabled then Refused("notification_disabled")
    else match source
      case Bell(duplicate) =>
        if !cfg.bellEnabled then Refused("bell_disabled")
        else if duplicate then Refused("bell_debounce_duplicate")
        else Accepted
      case OscNotify(duplicate) =>
        if duplicate then Refused("osc_debounce_duplicate")
        else if cfg.oscNotify then Accepted
        else Refused("osc_notify_disabled")
      case Plugin => Accepted
  }

  function SeverityFromType(value: string): Option<Severity> {
    if value == "info" || value == "bell" then Some(Info)
    else if value == "success" then Some(Severity.Success)
    else if value == "warning" then Some(Warning)
    else if value == "error" then Some(Error)
    else if value == "urgent" then Some(Urgent)
    else None
  }

  function SeverityOrInfo(value: string): Severity {
    if SeverityFromType(value).Some? then SeverityFromType(value).value else Info
  }

  datatype NotifyRequest = NotifyRequest(
    clientId: Option<string>, requestId: Option<string>, source: Option<string>, category: Option<string>,
    paneId: Option<Id>, notificationType: string, payloadHash: nat)

  /** `parsed` is the watermark as a number; entries that do not parse are skipped. */
  datatype ReadTarget = ReadTarget(paneId: Id, parsed: Option<nat>)

  datatype MarkReadRequest = MarkReadRequest(
    epoch: string, clientId: string, requestId: string, panes: seq<ReadTarget>, notifs: seq<Id>, payloadHash: nat)

  datatype Env = Env(
    now: nat, cfg: Config, paneIdIsUuid: bool, paneIsLive: bool,
    freshClient: string, freshRequest: string, freshNotif: Id)

  datatype ProcessResult = Outcome(outcome: ProducerOutcome) | RequestConflict | Retry | Malformed(message: string)

  /** Answers given before the ledger is consulted. */
  function EarlyAnswer(req: NotifyRequest, env: Env): Option<ProcessResult> {
    if SeverityFromType(req.notificationType).None? then Some(Malformed("invalid notification type"))
    else if req.source.Some? && req.source.value != "plugin" then Some(Malformed("invalid source"))
    else if env.cfg.enabled && req.category == Some("idle_reminder") && !env.cfg.idleReminder then
      Some(Outcome(Suppressed("idle_reminder_disabled")))
    else if req.clientId.Some? != req.requestId.Some? then
      Some(Malformed("clientId and requestId must be provided together"))
    else if PaneOf(req).Some? && !env.paneIdIsUuid then Some(Malformed("invalid paneId"))
    else if KeyOf(req, env).0 == "" || KeyOf(req, env).1 == "" then
      Some(Malformed("clientId/requestId must not be empty"))
    else None
  }

  function PaneOf(req: NotifyRequest): Option<Id> {
    if req.paneId == Some("") then None else req.paneId
  }

  function KeyOf(req: NotifyRequest, env: Env): DedupKey {
    (if req.clientId.Some? then req.clientId.value else env.freshClient,
     if req.requestId.Some? then req.requestId.value else env.freshRequest)
  }

  /** The mutation a newly reserved notify request makes, and its outcome. */
  ghost function Produce(s: Ledger, req: NotifyRequest, env: Env): (Ledger, ProducerOutcome)
    requires SeverityFromType(req.notificationType).Some?
  {
    var severity := SeverityFromType(req.notificationType).value;
    match EvaluateIngestGate(env.cfg, Plugin)
    case Refused(reason) => (s, Suppressed(reason))
    case Accepted =>
      if PaneOf(req).Some? then
        if !env.paneIsLive then (s, PaneNotFound)
        else (AttentionSpec.RecordPane(s, PaneOf(req).value, env.now, severity, env.now),
              AcceptedPane(PaneOf(req).value, s.nextEventSeq, s.revision + 1))
      else (AttentionSpec.RecordNotif(s, env.freshNotif, env.now, severity, env.now),
            AcceptedNotif(env.freshNotif, s.nextEventSeq, s.revision + 1))
  }

  ghost function ProcessNotify(s: Ledger, req: NotifyRequest, env: Env): (Ledger, ProcessResult) {
    if EarlyAnswer(req, env).Some? then (s, EarlyAnswer(req, env).value)
    else
      var (table, reserved) := Dedup.Reserve(s.dedup, KeyOf(req, env), req.payloadHash, env.now);
      match reserved
      case Replay(ProducerDone(outcome)) => (s, Outcome(outcome))
      case Replay(MarkReadDone(_)) => (s, RequestConflict)
      case KeyConflict => (s, RequestConflict)
      case Busy => (s, Retry)
      case Reserved(generation) =>
        var (after, outcome) := Produce(s.(dedup := table), req, env);
        (after.(dedup := Dedup.Complete(after.dedup, KeyOf(req, env), generation, ProducerDone(outcome), env.now).0),
         Outcome(outcome))
  }

  function Parsed(targets: seq<ReadTarget>): seq<Receipt> {
    if targets == [] then []
    else
      Parsed(targets[..|targets| - 1])
      + (if targets[|targets| - 1].parsed.Some?
         then [Receipt(targets[|targets| - 1].paneId, targets[|targets| - 1].parsed.value)] else [])
  }

  function ConflictResult(req: MarkReadRequest, epoch: string): MarkReadResult {
    MarkReadResult(req.requestId, epoch, None,
                   seq(|req.panes|, i requires 0 <= i < |req.panes| =>
                     TargetResult(Pane(req.panes[i].paneId), Conflict))
                   + seq(|req.notifs|, i requires 0 <= i < |req.notifs| =>
                     TargetResult(Notif(req.notifs[i]), Conflict)))
  }

  function ReadKey(req: MarkReadRequest): DedupKey {
    (req.clientId, req.requestId)
  }

  /** The new ledger and the reply, if one is sent. */
  function ApplyMarkRead(s: Ledger, req: MarkReadRequest, now: nat): (Ledger, Option<MarkReadResult>) {
    var (table, reserved) := Dedup.Reserve(s.dedup, ReadKey(req), req.payloadHash, now);
    match reserved
    case Replay(MarkReadDone(result)) => (s, Some(result))
    case Replay(ProducerDone(_)) => (s, Some(ConflictResult(req, s.epoch)))
    case KeyConflict => (s, Some(ConflictResult(req, s.epoch)))
    case Busy => (s, None)
    case Reserved(generation) =>
      var before := s.(dedup := table);
      var after := AttentionSpec.MarkRead(before, req.epoch, Parsed(req.panes), req.notifs, now);
      var results := AttentionSpec.Verdicts(before, req.epoch, Parsed(req.panes), req.notifs, now);
      var result := MarkReadResult(req.requestId, s.epoch, AttentionSpec.AppliedAt(after, results), results);
      (after.(dedup := Dedup.Complete(after.dedup, ReadKey(req), generation, MarkReadDone(result), now).0),
          Some(result))
  }
}
