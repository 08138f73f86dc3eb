/** The protocol layer as the object the source has: `NotificationBroadcast` of `src/notification/broadcast.rs`. */
module Notification {
  import opened Common
  import opened AttentionTypes
  import opened AttentionInvariant
  import opened LiveLedger
  import opened NotificationSpec
  import AttentionSpec
  import NotificationRuns
  import Debounce
  import Dedup
  import Deltas

  /** What a call published is its one step: nothing if replicas see no difference. */
  ghost predicate PublishesStep(sent: seq<StateDelta>, sent': seq<StateDelta>, before: Ledger, after: Ledger) {
    || (sent' == sent && SnapshotOf(before) == SnapshotOf(after))
    || (|sent'| == |sent| + 1 && sent' == sent + [sent'[|sent|]] && IsDelta(sent'[|sent|], before, after))
  }

  class NotificationBroadcast {
    const ledger: AttentionLedger
    /** The state deltas broadcast so far. */
    var sent: seq<StateDelta>
    var bellDebounce: map<Id, nat>
    var oscDebounce: map<(Id, nat), nat>

    ghost predicate Valid()
      reads this, ledger
    {
      ledger.Valid()
    }

    constructor (ledger: AttentionLedger)
      requires ledger.Valid()
      ensures Valid() && this.ledger == ledger && sent == [] && bellDebounce == map[] && oscDebounce == map[]
    {
      this.ledger := ledger;
      sent, bellDebounce, oscDebounce := [], map[], map[];
    }

    /** Gate, liveness check and recording: what a newly reserved request does. */
    method Produce(req: NotifyRequest, env: Env) returns (outcome: ProducerOutcome)
      requires Valid() && SeverityFromType(req.notificationType).Some?
      modifies ledger, this`sent
      ensures Valid()
      ensures (ledger.State(), outcome) == NotificationSpec.Produce(old(ledger.State()), req, env)
      ensures PublishesStep(old(sent), sent, old(ledger.State()), ledger.State())
    {
      hide Invariant, Deltas.Describes, PaneViews, NotifViews, AttentionSpec.RecordPane, AttentionSpec.RecordNotif;
      var severity := SeverityFromType(req.notificationType).value;
      match EvaluateIngestGate(env.cfg, Plugin) {
        case Refused(reason) =>
          outcome := Suppressed(reason);
        case Accepted =>
          if PaneOf(req).Some? {
            if !env.paneIsLive {
              return PaneNotFound;
            }
            var eventSeq, delta := ledger.RecordPaneEvent(PaneOf(req).value, env.now, severity, env.now);
            sent := sent + [delta];
            outcome := AcceptedPane(PaneOf(req).value, eventSeq, delta.revision);
          } else {
            var eventSeq, delta := ledger.RecordNotifEvent(env.freshNotif, env.now, severity, env.now);
            sent := sent + [delta];
            outcome := AcceptedNotif(env.freshNotif, eventSeq, delta.revision);
          }
      }
    }

    method ProcessNotify(req: NotifyRequest, env: Env) returns (result: ProcessResult)
      requires Valid()
      modifies ledger, this`sent
      ensures Valid()
      ensures (ledger.State(), result) == NotificationSpec.ProcessNotify(old(ledger.State()), req, env)
      ensures PublishesStep(old(sent), sent, old(ledger.State()), ledger.State())
    {
      hide Invariant, Deltas.Describes, PaneViews, NotifViews, NotificationSpec.Produce, EvaluateIngestGate,
           SeverityFromType, Dedup.EntryExpired, Dedup.Complete, Dedup.Sweep;
      if EarlyAnswer(req, env).Some? {
        return EarlyAnswer(req, env).value;
      }
      var key := KeyOf(req, env);
      ghost var before := ledger.State();
      var reserved := ledger.Reserve(key.0, key.1, req.payloadHash, env.now);
      match reserved {
        case Replay(ProducerDone(outcome)) =>
          result := Outcome(outcome);
        case Replay(MarkReadDone(_)) =>
          result := RequestConflict;
        case KeyConflict =>
          result := RequestConflict;
        case Busy =>
          result := Retry;
        case Reserved(generation) =>
          ghost var reservedState := ledger.State();
          var outcome := Produce(req, env);
          ghost var mid := ledger.State().dedup;
          var installed := ledger.Complete(key, generation, ProducerDone(outcome), env.now);
          assert installed by {
            NotificationRuns.ProduceSweeps(reservedState, req, env);
            NotificationRuns.CompleteInstalls(before.dedup, key, req.payloadHash, env.now, mid, ProducerDone(outcome));
          }
          result := Outcome(outcome);
      }
    }

    method ApplyMarkRead(req: MarkReadRequest, now: nat) returns (reply: Option<MarkReadResult>)
      requires Valid()
      modifies ledger, this`sent
      ensures Valid()
      ensures (ledger.State(), reply) == NotificationSpec.ApplyMarkRead(old(ledger.State()), req, now)
      ensures PublishesStep(old(sent), sent, old(ledger.State()), ledger.State())
    {
      hide Invariant, Deltas.Describes, PaneViews, NotifViews, AttentionSpec.MarkRead, AttentionSpec.Verdicts,
           Dedup.EntryExpired, Dedup.Complete;
      ghost var before := ledger.State();
      var reserved := ledger.Reserve(req.clientId, req.requestId, req.payloadHash, now);
      match reserved {
        case Replay(MarkReadDone(result)) =>
          reply := Some(result);
        case Replay(ProducerDone(_)) =>
          reply := Some(ConflictResult(req, ledger.epoch));
        case KeyConflict =>
          reply := Some(ConflictResult(req, ledger.epoch));
        case Busy =>
          reply := None;
        case Reserved(generation) =>
          ghost var reservedState := ledger.State();
          var receipts := ParseReceipts(req.panes);
          var delta, results, appliedAt := ledger.MarkRead(req.epoch, receipts, req.notifs, now);
          var result := MarkReadResult(req.requestId, ledger.epoch, appliedAt, results);
          ghost var mid := ledger.State().dedup;
          var installed := ledger.Complete((req.clientId, req.requestId), generation, MarkReadDone(result), now);
          assert installed by {
            NotificationRuns.ReadSweeps(reservedState, req.epoch, receipts, req.notifs, now);
            NotificationRuns.CompleteInstalls(before.dedup, NotificationSpec.ReadKey(req), req.payloadHash, now, mid,
                MarkReadDone(result));
          }
          if delta.Some? {
            sent := sent + [delta.value];
          }
          reply := Some(result);
      }
    }

    method ParseReceipts(targets: seq<ReadTarget>) returns (receipts: seq<Receipt>)
      ensures receipts == Parsed(targets)
    {
      receipts := [];
      for i := 0 to |targets|
        invariant receipts == Parsed(targets[..i])
      {
        assert targets[..i + 1][..i] == targets[..i];
        if targets[i].parsed.Some? {
          receipts := receipts + [Receipt(targets[i].paneId, targets[i].parsed.value)];
        }
      }
      assert targets[..|targets|] == targets;
    }

    method Sweep(now: nat)
      requires Valid()
      modifies ledger, this`sent
      ensures Valid() && ledger.State() == AttentionSpec.Sweep(old(ledger.State()), now)
      ensures PublishesStep(old(sent), sent, old(ledger.State()), ledger.State())
    {
      hide Invariant, Deltas.Describes, PaneViews, NotifViews, AttentionSpec.Sweep;
      var delta := ledger.Sweep(now);
      if delta.Some? {
        sent := sent + [delta.value];
      }
    }

    method PaneClosed(id: Id, now: nat)
      requires Valid()
      modifies ledger, this`sent
      ensures Valid() && ledger.State() == AttentionSpec.PaneClosed(old(ledger.State()), id, now)
      ensures PublishesStep(old(sent), sent, old(ledger.State()), ledger.State())
    {
      hide Invariant, Deltas.Describes, PaneViews, NotifViews, AttentionSpec.PaneClosed;
      var delta := ledger.PaneClosed(id, now);
      if delta.Some? {
        sent := sent + [delta.value];
      }
    }

    // ---- debounced producers; `instant` is the monotonic clock in nanoseconds ----

    method CheckOscDebounce(key: (Id, nat), instant: nat, debounceMs: nat) returns (duplicate: bool)
      modifies this`oscDebounce
      ensures duplicate == Debounce.Duplicate(old(oscDebounce), key, instant, debounceMs)
      ensures oscDebounce == Debounce.Checked(old(oscDebounce), key, instant, debounceMs)
    {
      duplicate := key in oscDebounce && Debounce.Elapsed(instant, oscDebounce[key]) / Debounce.NS_PER_MS < debounceMs;
      oscDebounce := Debounce.Retained(oscDebounce, instant);
      if !duplicate {
        oscDebounce := oscDebounce[key := instant];
      }
    }

    /** Both layers read the settings and the clock for themselves. */
    method SendDetectedBell(
      paneId: Id, bellHash: nat, cfg: Config, instant: nat, bellCfg: Config, bellInstant: nat, now: nat)
      requires Valid()
      modifies ledger, this
      ensures Valid()
      ensures oscDebounce == Debounce.Checked(old(oscDebounce), (paneId, bellHash), instant, cfg.oscDebounceMs)
      ensures Debounce.Duplicate(old(oscDebounce), (paneId, bellHash), instant, cfg.oscDebounceMs) ==>
                ledger.State() == old(ledger.State()) && sent == old(sent) && bellDebounce == old(bellDebounce)
      ensures !Debounce.Duplicate(old(oscDebounce), (paneId, bellHash), instant, cfg.oscDebounceMs) ==>
                && bellDebounce == Debounce.Checked(old(bellDebounce), paneId, bellInstant, bellCfg.bellDebounceMs)
                && ledger.State() == BellEffect(old(ledger.State()), old(bellDebounce), paneId, bellCfg, bellInstant,
                    now)
      ensures PublishesStep(old(sent), sent, old(ledger.State()), ledger.State())
    {
      hide Invariant, IsDelta, PaneViews, NotifViews, BellEffect, Debounce.Duplicate, Debounce.Checked;
      var duplicate := CheckOscDebounce((paneId, bellHash), instant, cfg.oscDebounceMs);
      if duplicate {
        return;
      }
      SendBell(paneId, bellCfg, bellInstant, now);
    }

    /** A bell is recorded when the gate accepts it: notifications on, bells on, and no recent bell on this pane. */
    static ghost function BellEffect(
      s: Ledger, bells: map<Id, nat>, paneId: Id, cfg: Config, instant: nat, now: nat): Ledger {
      if cfg.enabled && cfg.bellEnabled && !Debounce.Duplicate(bells, paneId, instant, cfg.bellDebounceMs)
      then AttentionSpec.RecordPane(s, paneId, now, Info, now)
      else s
    }

    method SendBell(paneId: Id, cfg: Config, instant: nat, now: nat)
      requires Valid()
      modifies ledger, this`sent, this`bellDebounce
      ensures Valid()
      ensures bellDebounce == Debounce.Checked(old(bellDebounce), paneId, instant, cfg.bellDebounceMs)
      ensures ledger.State() == BellEffect(old(ledger.State()), old(bellDebounce), paneId, cfg, instant, now)
      ensures PublishesStep(old(sent), sent, old(ledger.State()), ledger.State())
    {
      hide Invariant, IsDelta, PaneViews, NotifViews, AttentionSpec.RecordPane;
      var duplicate := paneId in bellDebounce
                       && Debounce.Elapsed(instant, bellDebounce[paneId]) / Debounce.NS_PER_MS < cfg.bellDebounceMs;
      bellDebounce := Debounce.Retained(bellDebounce, instant);
      if !duplicate {
        bellDebounce := bellDebounce[paneId := instant];
      }
      if EvaluateIngestGate(cfg, Bell(duplicate)) != Accepted {
        return;
      }
      var _, delta := ledger.RecordPaneEvent(paneId, now, Info, now);
      sent := sent + [delta];
    }

    /**
     * An explicit request of a program becomes a pane-less notification, unless it repeats itself or is
     * switched off.
     */
    method SendNotify(
      paneId: Id, textHash: nat, notificationType: string, freshNotif: Id, cfg: Config, instant: nat, now: nat)
      requires Valid()
      modifies ledger, this`sent, this`oscDebounce
      ensures Valid()
      ensures oscDebounce == Debounce.Checked(old(oscDebounce), (paneId, textHash), instant, cfg.oscDebounceMs)
      ensures var duplicate := Debounce.Duplicate(old(oscDebounce), (paneId, textHash), instant, cfg.oscDebounceMs);
              ledger.State() ==
              if cfg.enabled && cfg.oscNotify && !duplicate
              then AttentionSpec.RecordNotif(old(ledger.State()), freshNotif, now, SeverityOrInfo(notificationType),
                  now)
              else old(ledger.State())
      ensures PublishesStep(old(sent), sent, old(ledger.State()), ledger.State())
    {
      hide Invariant, IsDelta, PaneViews, NotifViews, AttentionSpec.RecordNotif, Debounce.Duplicate, Debounce.Checked,
           SeverityFromType;
      var duplicate := CheckOscDebounce((paneId, textHash), instant, cfg.oscDebounceMs);
      if EvaluateIngestGate(cfg, OscNotify(duplicate)) != Accepted {
        return;
      }
      var _, delta := ledger.RecordNotifEvent(freshNotif, now, SeverityOrInfo(notificationType), now);
      sent := sent + [delta];
    }
  }
}
