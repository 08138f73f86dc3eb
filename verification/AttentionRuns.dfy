/** Whole runs of the ledger: a list of operations from an empty ledger. */
module AttentionRuns {
  import opened Common
  import opened AttentionTypes
  import opened AttentionSpec
  import opened AttentionInvariant
  import Dedup

  datatype Op =
    | OpRecordPane(id: Id, occurredAt: nat, severity: Severity, now: nat)
    | OpRecordNotif(id: Id, occurredAt: nat, severity: Severity, now: nat)
    | OpMarkRead(epoch: string, receipts: seq<Receipt>, notifIds: seq<Id>, now: nat)
    | OpPaneClosed(id: Id, now: nat)
    | OpSweep(now: nat)
    | OpReserve(key: DedupKey, payloadHash: nat, now: nat)
    | OpComplete(key: DedupKey, generation: nat, outcome: DedupOutcome, now: nat)

  ghost function Step(s: Ledger, op: Op): Ledger {
    match op
    case OpRecordPane(id, t, severity, now) => RecordPane(s, id, t, severity, now)
    case OpRecordNotif(id, t, severity, now) => RecordNotif(s, id, t, severity, now)
    case OpMarkRead(epoch, receipts, notifIds, now) => MarkRead(s, epoch, receipts, notifIds, now)
    case OpPaneClosed(id, now) => PaneClosed(s, id, now)
    case OpSweep(now) => Sweep(s, now)
    case OpReserve(key, hash, now) => s.(dedup := Dedup.Reserve(s.dedup, key, hash, now).0)
    case OpComplete(key, generation, outcome, now) =>
      s.(dedup := Dedup.Complete(s.dedup, key, generation, outcome, now).0)
  }

  function LogOf(op: Op): Log {
    match op
    case OpRecordPane(id, _, _, _) => [Pane(id)]
    case OpRecordNotif(id, _, _, _) => [Notif(id)]
    case _ => []
  }

  ghost function Run(epoch: string, ops: seq<Op>): Ledger {
    if ops == [] then InitialLedger(epoch) else Step(Run(epoch, ops[..|ops| - 1]), ops[|ops| - 1])
  }

  function RunLog(ops: seq<Op>): Log {
    if ops == [] then [] else RunLog(ops[..|ops| - 1]) + LogOf(ops[|ops| - 1])
  }

  lemma StepKeeps(s: Ledger, log: Log, op: Op)
    requires Invariant(s, log)
    ensures Invariant(Step(s, op), log + LogOf(op))
  {
    hide PanesOk, NotifsOk, RecordPane, RecordNotif, MarkRead, PaneClosed, Sweep;
    assert log + [] == log;
    match op
    case OpRecordPane(id, t, severity, now) => RecordPaneKeeps(s, log, id, t, severity, now);
    case OpRecordNotif(id, t, severity, now) => RecordNotifKeeps(s, log, id, t, severity, now);
    case OpMarkRead(epoch, receipts, notifIds, now) => MarkReadKeeps(s, log, epoch, receipts, notifIds, now);
    case OpPaneClosed(id, now) => PaneClosedKeeps(s, log, id, now);
    case OpSweep(now) => SweepKeeps(s, log, now);
    case _ =>
  }

  /** The global invariant holds after every run, whatever the clock does. */
  lemma {:induction false} InvariantHolds(epoch: string, ops: seq<Op>)
    ensures Invariant(Run(epoch, ops), RunLog(ops))
    decreases |ops|
  {
    hide Invariant, Step;
    if ops == [] {
      InitialLedgerOk(epoch);
    } else {
      InvariantHolds(epoch, ops[..|ops| - 1]);
      StepKeeps(Run(epoch, ops[..|ops| - 1]), RunLog(ops[..|ops| - 1]), ops[|ops| - 1]);
    }
  }

  /** Revisions and event numbers never go back; a new revision is one step. */
  lemma RevisionMovesByOne(s: Ledger, op: Op)
    ensures s.revision <= Step(s, op).revision <= s.revision + 1
    ensures Step(s, op).nextEventSeq == s.nextEventSeq + |LogOf(op)|
    ensures Step(s, op).revision == s.revision ==> SnapshotOf(Step(s, op)) == SnapshotOf(s)
  {
    hide PaneViews, NotifViews, ExpirePanes, ExpireNotifs;
  }
}
