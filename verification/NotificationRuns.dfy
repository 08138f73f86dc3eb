/** Runs of the protocol layer: retried requests are no-ops, and no reservation outlives its call. */
module NotificationRuns {
  import opened Common
  import opened AttentionTypes
  import opened NotificationSpec
  import AttentionInvariant
  import AttentionSpec
  import Dedup

  datatype ServiceCall =
    | CallNotify(req: NotifyRequest, env: Env)
    | CallMarkRead(read: MarkReadRequest, now: nat)
    | CallSweep(now: nat)
    | CallPaneClosed(id: Id, now: nat)
    | CallBell(id: Id, now: nat)
    | CallOsc(id: Id, severity: Severity, now: nat)

  function TimeOf(call: ServiceCall): nat {
    match call
    case CallNotify(_, env) => env.now
    case _ => call.now
  }

  ghost function Serve(s: Ledger, call: ServiceCall): Ledger {
    match call
    case CallNotify(req, env) => ProcessNotify(s, req, env).0
    case CallMarkRead(req, now) => ApplyMarkRead(s, req, now).0
    case CallSweep(now) => AttentionSpec.Sweep(s, now)
    case CallPaneClosed(id, now) => AttentionSpec.PaneClosed(s, id, now)
    case CallBell(id, now) => AttentionSpec.RecordPane(s, id, now, Info, now)
    case CallOsc(id, severity, now) => AttentionSpec.RecordNotif(s, id, now, severity, now)
  }

  ghost function ServeAll(s: Ledger, calls: seq<ServiceCall>): Ledger
    decreases |calls|
  {
    if calls == [] then s else Serve(ServeAll(s, calls[..|calls| - 1]), calls[|calls| - 1])
  }

  ghost predicate NoInFlight(s: Ledger) {
    forall key :: key in s.dedup.entries ==> s.dedup.entries[key].state.Done?
  }

  /** The table holds the outcome of a finished request. */
  ghost predicate Holds(s: Ledger, key: DedupKey, payloadHash: nat, doneAt: nat, outcome: DedupOutcome) {
    key in s.dedup.entries && s.dedup.entries[key] == DedupEntry(payloadHash, Done(doneAt, outcome))
  }

  /** The table `after` a call that answered `key` anew: its entry is done, the others are as before or swept. */
  ghost predicate Finished(
    t: DedupTable, after: DedupTable, key: DedupKey, payloadHash: nat, now: nat, outcome: DedupOutcome) {
    && key in after.entries && after.entries[key] == DedupEntry(payloadHash, Done(now, outcome))
    && (forall k :: k in after.entries && k != key ==> k in t.entries && after.entries[k] == t.entries[k])
    && (forall k :: k in t.entries && k != key && !Dedup.EntryExpired(t.entries[k], now) ==>
          k in after.entries && after.entries[k] == t.entries[k])
  }

  /** Between reserving and completing only a sweep at the same time happens, so completion finds its reservation. */
  lemma CompleteInstalls(
    t: DedupTable, key: DedupKey, payloadHash: nat, now: nat, mid: DedupTable, outcome: DedupOutcome)
    requires Dedup.Reserve(t, key, payloadHash, now).1.Reserved?
    requires mid in {Dedup.Reserve(t, key, payloadHash, now).0,
                     Dedup.Sweep(Dedup.Reserve(t, key, payloadHash, now).0, now)}
    ensures Dedup.Reserve(t, key, payloadHash, now).1 == Reserved(t.nextGeneration)
    ensures var (after, installed) := Dedup.Complete(mid, key, t.nextGeneration, outcome, now);
            installed && Finished(t, after, key, payloadHash, now, outcome)
  {
  }

  lemma ProduceSweeps(s: Ledger, req: NotifyRequest, env: Env)
    requires SeverityFromType(req.notificationType).Some?
    ensures Produce(s, req, env).0.dedup in {s.dedup, Dedup.Sweep(s.dedup, env.now)}
  {
    hide AttentionSpec.ExpirePanes, AttentionSpec.ExpireNotifs, Dedup.Sweep;
  }

  lemma ReadSweeps(s: Ledger, epoch: string, receipts: seq<Receipt>, notifIds: seq<Id>, now: nat)
    ensures AttentionSpec.MarkRead(s, epoch, receipts, notifIds, now).dedup == Dedup.Sweep(s.dedup, now)
  {
    hide AttentionSpec.ExpirePanes, AttentionSpec.ExpireNotifs, AttentionSpec.MarkPanes, PaneViews, NotifViews,
         Dedup.Sweep;
  }

  lemma NotifyCompletes(s: Ledger, req: NotifyRequest, env: Env)
    requires EarlyAnswer(req, env).None?
    requires Dedup.Reserve(s.dedup, KeyOf(req, env), req.payloadHash, env.now).1.Reserved?
    ensures var (after, result) := ProcessNotify(s, req, env);
            result.Outcome? && Finished(s.dedup, after.dedup, KeyOf(req, env), req.payloadHash, env.now,
                ProducerDone(result.outcome))
  {
    hide Produce, Dedup.Reserve, Dedup.Complete, Dedup.Sweep, Finished;
    var (table, _) := Dedup.Reserve(s.dedup, KeyOf(req, env), req.payloadHash, env.now);
    var (mid, outcome) := Produce(s.(dedup := table), req, env);
    ProduceSweeps(s.(dedup := table), req, env);
    CompleteInstalls(s.dedup, KeyOf(req, env), req.payloadHash, env.now, mid.dedup, ProducerDone(outcome));
  }

  lemma MarkReadCompletes(s: Ledger, req: MarkReadRequest, now: nat)
    requires Dedup.Reserve(s.dedup, ReadKey(req), req.payloadHash, now).1.Reserved?
    ensures var (after, reply) := ApplyMarkRead(s, req, now);
            reply.Some? && Finished(s.dedup, after.dedup, ReadKey(req), req.payloadHash, now, MarkReadDone(reply.value))
  {
    hide AttentionSpec.MarkRead, AttentionSpec.Verdicts, AttentionSpec.AppliedAt, Dedup.Reserve, Dedup.Complete,
         Dedup.Sweep, Finished;
    var before := s.(dedup := Dedup.Reserve(s.dedup, ReadKey(req), req.payloadHash, now).0);
    var mid := AttentionSpec.MarkRead(before, req.epoch, Parsed(req.panes), req.notifs, now);
    var results := AttentionSpec.Verdicts(before, req.epoch, Parsed(req.panes), req.notifs, now);
    ReadSweeps(before, req.epoch, Parsed(req.panes), req.notifs, now);
    CompleteInstalls(s.dedup, ReadKey(req), req.payloadHash, now, mid.dedup,
                     MarkReadDone(MarkReadResult(req.requestId, s.epoch, AttentionSpec.AppliedAt(mid, results),
                         results)));
  }

  /** A call either answers some key anew, or sweeps the table, or leaves the ledger alone. */
  lemma ServeCases(s: Ledger, call: ServiceCall)
    ensures || Serve(s, call) == s
            || Serve(s, call).dedup == Dedup.Sweep(s.dedup, TimeOf(call))
            || exists key, hash, outcome ::
                 Dedup.Reserve(s.dedup, key, hash, TimeOf(call)).1.Reserved?
                 && Finished(s.dedup, Serve(s, call).dedup, key, hash, TimeOf(call), outcome)
  {
    hide Finished, Produce, AttentionSpec.ExpirePanes, AttentionSpec.ExpireNotifs, AttentionSpec.MarkPanes, PaneViews,
         NotifViews, Dedup.Sweep, Dedup.Complete;
    match call
    case CallNotify(req, env) =>
      if EarlyAnswer(req, env).None? && Dedup.Reserve(s.dedup, KeyOf(req, env), req.payloadHash, env.now).1.Reserved? {
        NotifyCompletes(s, req, env);
      }
    case CallMarkRead(req, now) =>
      if Dedup.Reserve(s.dedup, ReadKey(req), req.payloadHash, now).1.Reserved? {
        MarkReadCompletes(s, req, now);
      }
    case _ =>
  }

  /** No call leaves a reservation behind. */
  lemma NoReservationLeft(s: Ledger, call: ServiceCall)
    requires NoInFlight(s)
    ensures NoInFlight(Serve(s, call))
  {
    hide Serve;
    ServeCases(s, call);
  }

  /** A service that starts with an empty ledger has no reservation between calls. */
  lemma {:induction false} NoReservationEver(epoch: string, calls: seq<ServiceCall>)
    ensures NoInFlight(ServeAll(AttentionInvariant.InitialLedger(epoch), calls))
    decreases |calls|
  {
    hide Serve;
    if calls != [] {
      var init := calls[..|calls| - 1];
      NoReservationEver(epoch, init);
      NoReservationLeft(ServeAll(AttentionInvariant.InitialLedger(epoch), init), calls[|calls| - 1]);
    }
  }

  /** So no request is ever told to retry, and every mark-read request is answered. */
  lemma NobodyWaits(s: Ledger, req: NotifyRequest, env: Env, read: MarkReadRequest, now: nat)
    requires NoInFlight(s)
    ensures ProcessNotify(s, req, env).1 != Retry
    ensures ApplyMarkRead(s, read, now).1.Some?
  {
    hide Produce, AttentionSpec.MarkRead, AttentionSpec.Verdicts, Dedup.Complete;
  }

  /** A finished request stays in the table through every call stamped within the horizon. */
  lemma HoldsThrough(s: Ledger, call: ServiceCall, key: DedupKey, payloadHash: nat, doneAt: nat, outcome: DedupOutcome)
    requires Holds(s, key, payloadHash, doneAt, outcome) && TimeOf(call) < doneAt + DEDUP_TTL
    ensures Holds(Serve(s, call), key, payloadHash, doneAt, outcome)
  {
    hide Serve;
    ServeCases(s, call);
  }

  lemma {:induction false} HoldsThroughAll(
    s: Ledger, calls: seq<ServiceCall>, key: DedupKey, payloadHash: nat, doneAt: nat, outcome: DedupOutcome)
    requires Holds(s, key, payloadHash, doneAt, outcome)
    requires forall i :: 0 <= i < |calls| ==> TimeOf(calls[i]) < doneAt + DEDUP_TTL
    ensures Holds(ServeAll(s, calls), key, payloadHash, doneAt, outcome)
    decreases |calls|
  {
    hide Holds, Serve;
    if calls != [] {
      HoldsThroughAll(s, calls[..|calls| - 1], key, payloadHash, doneAt, outcome);
      HoldsThrough(ServeAll(s, calls[..|calls| - 1]), calls[|calls| - 1], key, payloadHash, doneAt, outcome);
    }
  }

  /** A request whose key is held with its own payload is answered from the table. */
  lemma HeldIsReplayed(s: Ledger, req: NotifyRequest, env: Env, doneAt: nat, outcome: ProducerOutcome)
    requires Holds(s, KeyOf(req, env), req.payloadHash, doneAt, ProducerDone(outcome)) && env.now < doneAt + DEDUP_TTL
    ensures ProcessNotify(s, req, env)
            == (s, if EarlyAnswer(req, env).Some? then EarlyAnswer(req, env).value else Outcome(outcome))
  {
    hide EarlyAnswer, KeyOf, Produce;
  }

  /**
   * A notify request sent again under the same key, with the same payload and within the horizon, leaves
   * the whole ledger untouched, whatever was served in between. It gets the first outcome, unless it is
   * turned away before the ledger is consulted.
   */
  lemma RetriedNotifyIsNoOp(
    s: Ledger, req: NotifyRequest, env: Env, between: seq<ServiceCall>, again: NotifyRequest, env': Env)
    requires EarlyAnswer(req, env).None?
    requires Dedup.Reserve(s.dedup, KeyOf(req, env), req.payloadHash, env.now).1.Reserved?
    requires forall i :: 0 <= i < |between| ==> TimeOf(between[i]) < env.now + DEDUP_TTL
    requires KeyOf(again, env') == KeyOf(req, env) && again.payloadHash == req.payloadHash
             && env'.now < env.now + DEDUP_TTL
    ensures var (first, result) := ProcessNotify(s, req, env); var later := ServeAll(first, between);
            ProcessNotify(later, again, env')
                == (later, if EarlyAnswer(again, env').Some? then EarlyAnswer(again, env').value else result)
  {
    hide EarlyAnswer, KeyOf, ProcessNotify, Dedup.Reserve;
    var (first, result) := ProcessNotify(s, req, env);
    NotifyCompletes(s, req, env);
    HoldsThroughAll(first, between, KeyOf(req, env), req.payloadHash, env.now, ProducerDone(result.outcome));
    HeldIsReplayed(ServeAll(first, between), again, env', env.now, result.outcome);
  }

  lemma RetriedMarkReadIsNoOp(
    s: Ledger, req: MarkReadRequest, now: nat, between: seq<ServiceCall>, again: MarkReadRequest, now': nat)
    requires Dedup.Reserve(s.dedup, ReadKey(req), req.payloadHash, now).1.Reserved?
    requires forall i :: 0 <= i < |between| ==> TimeOf(between[i]) < now + DEDUP_TTL
    requires ReadKey(again) == ReadKey(req) && again.payloadHash == req.payloadHash && now' < now + DEDUP_TTL
    ensures var (first, reply) := ApplyMarkRead(s, req, now); var later := ServeAll(first, between);
            reply.Some? && ApplyMarkRead(later, again, now') == (later, reply)
  {
    hide AttentionSpec.MarkRead, AttentionSpec.Verdicts, AttentionSpec.AppliedAt, Dedup.Complete;
    var (first, reply) := ApplyMarkRead(s, req, now);
    MarkReadCompletes(s, req, now);
    HoldsThroughAll(first, between, ReadKey(req), req.payloadHash, now, MarkReadDone(reply.value));
  }

  /** A mark-read request whose key is held by a producer is refused. */
  lemma HeldIsConflict(
    s: Ledger, read: MarkReadRequest, payloadHash: nat, doneAt: nat, outcome: ProducerOutcome, now: nat)
    requires Holds(s, ReadKey(read), payloadHash, doneAt, ProducerDone(outcome)) && now < doneAt + DEDUP_TTL
    ensures ApplyMarkRead(s, read, now) == (s, Some(ConflictResult(read, s.epoch)))
  {
    hide ConflictResult;
  }

  /** A key taken by a producer is a conflict for a mark-read request, target by target, and nothing changes. */
  lemma KindsDoNotMix(
    s: Ledger, req: NotifyRequest, env: Env, between: seq<ServiceCall>, read: MarkReadRequest, now: nat)
    requires EarlyAnswer(req, env).None?
    requires Dedup.Reserve(s.dedup, KeyOf(req, env), req.payloadHash, env.now).1.Reserved?
    requires forall i :: 0 <= i < |between| ==> TimeOf(between[i]) < env.now + DEDUP_TTL
    requires ReadKey(read) == KeyOf(req, env) && now < env.now + DEDUP_TTL
    ensures var later := ServeAll(ProcessNotify(s, req, env).0, between);
            ApplyMarkRead(later, read, now) == (later, Some(ConflictResult(read, later.epoch)))
  {
    hide EarlyAnswer, KeyOf, ProcessNotify, ApplyMarkRead, Dedup.Reserve, ConflictResult;
    var (first, result) := ProcessNotify(s, req, env);
    NotifyCompletes(s, req, env);
    HoldsThroughAll(first, between, KeyOf(req, env), req.payloadHash, env.now, ProducerDone(result.outcome));
    HeldIsConflict(ServeAll(first, between), read, req.payloadHash, env.now, result.outcome, now);
  }
}
