/** Runs of the deduplication table, and that a request key has its effect once. */
module DedupRuns {
  import opened AttentionTypes
  import opened Dedup
  import AttentionRuns
  import AttentionSpec

  /** `Touch` stands for any ledger mutation: each begins by sweeping the table. */
  datatype DedupOp =
    | TryReserve(key: DedupKey, payloadHash: nat, now: nat)
    | TryComplete(key: DedupKey, generation: nat, outcome: DedupOutcome, now: nat)
    | Touch(now: nat)

  function StepTable(t: DedupTable, op: DedupOp): DedupTable {
    match op
    case TryReserve(key, hash, now) => Reserve(t, key, hash, now).0
    case TryComplete(key, generation, outcome, now) => Complete(t, key, generation, outcome, now).0
    case Touch(now) => Sweep(t, now)
  }

  const EMPTY_TABLE := DedupTable(1, map[])

  /** The table after the first `n` operations. */
  function TableAt(ops: seq<DedupOp>, n: nat): DedupTable
    requires n <= |ops|
  {
    if n == 0 then EMPTY_TABLE else StepTable(TableAt(ops, n - 1), ops[n - 1])
  }

  /** Operation `i` obtained the reservation `generation`. */
  predicate ReservedAt(ops: seq<DedupOp>, i: nat, key: DedupKey, payloadHash: nat, generation: nat) {
    && i < |ops| && ops[i].TryReserve? && ops[i].key == key && ops[i].payloadHash == payloadHash
    && Reserve(TableAt(ops, i), key, payloadHash, ops[i].now).1 == Reserved(generation)
  }

  /** Operation `i` installed the outcome of the reservation `generation`. */
  predicate InstalledAt(ops: seq<DedupOp>, i: nat, key: DedupKey, generation: nat, outcome: DedupOutcome) {
    && i < |ops| && ops[i].TryComplete? && ops[i].key == key && ops[i].generation == generation
        && ops[i].outcome == outcome
    && Complete(TableAt(ops, i), key, generation, outcome, ops[i].now).1
  }

  /** No operation from `i` up to `n` reserves the key anew. */
  predicate NotReserved(ops: seq<DedupOp>, key: DedupKey, i: nat, n: nat)
    requires n <= |ops|
  {
    forall j :: i <= j < n && ops[j].TryReserve? && ops[j].key == key ==>
      !Reserve(TableAt(ops, j), key, ops[j].payloadHash, ops[j].now).1.Reserved?
  }

  // ---- once done, done for the whole horizon ----

  lemma {:induction false} DoneStays(
    ops: seq<DedupOp>, i: nat, n: nat, key: DedupKey, hash: nat, doneAt: nat, outcome: DedupOutcome)
    requires i <= n <= |ops|
    requires key in TableAt(ops, i).entries && TableAt(ops, i).entries[key] == DedupEntry(hash, Done(doneAt, outcome))
    requires forall j :: i <= j < n ==> ops[j].now < doneAt + DEDUP_TTL
    ensures key in TableAt(ops, n).entries && TableAt(ops, n).entries[key] == DedupEntry(hash, Done(doneAt, outcome))
    decreases n
  {
    if i < n {
      DoneStays(ops, i, n - 1, key, hash, doneAt, outcome);
    }
  }

  /**
   * After an outcome is installed, every reserve on its key within the horizon is answered from the
   * table: with that very outcome if the payload is the same, as a conflict if not. The clock may do
   * what it likes, as long as no operation in between is stamped beyond the horizon.
   */
  lemma ExactlyOnce(ops: seq<DedupOp>, i: nat, n: nat, key: DedupKey, generation: nat, outcome: DedupOutcome)
    requires InstalledAt(ops, i, key, generation, outcome)
    requires i < n < |ops| && ops[n].TryReserve? && ops[n].key == key
    requires forall j :: i < j <= n ==> ops[j].now < ops[i].now + DEDUP_TTL
    ensures Reserve(TableAt(ops, n), key, ops[n].payloadHash, ops[n].now) ==
            (TableAt(ops, n),
             if ops[n].payloadHash == TableAt(ops, i).entries[key].payloadHash then Replay(outcome) else KeyConflict)
  {
    var hash := TableAt(ops, i).entries[key].payloadHash;
    assert TableAt(ops, i + 1) == StepTable(TableAt(ops, i), ops[i]);
    DoneStays(ops, i + 1, n, key, hash, ops[i].now, outcome);
  }

  // ---- generations ----

  ghost predicate GenerationsOk(t: DedupTable) {
    forall key :: key in t.entries && t.entries[key].state.InFlight? ==>
        t.entries[key].state.generation < t.nextGeneration
  }

  lemma {:induction false} GenerationsGrow(ops: seq<DedupOp>, i: nat, n: nat)
    requires i <= n <= |ops|
    ensures TableAt(ops, i).nextGeneration <= TableAt(ops, n).nextGeneration
    ensures GenerationsOk(TableAt(ops, n))
    decreases n
  {
    if 0 < n {
      GenerationsGrow(ops, if i < n then i else n - 1, n - 1);
    }
  }

  /** No generation is handed out twice, whatever the keys. */
  lemma GenerationsNeverRepeat(
    ops: seq<DedupOp>, i: nat, j: nat, k1: DedupKey, h1: nat, g1: nat, k2: DedupKey, h2: nat, g2: nat)
    requires ReservedAt(ops, i, k1, h1, g1) && ReservedAt(ops, j, k2, h2, g2) && i < j
    ensures g1 < g2
  {
    assert TableAt(ops, i + 1) == StepTable(TableAt(ops, i), ops[i]);
    GenerationsGrow(ops, i + 1, j);
  }

  /** A completion by an owner that has lost its reservation, or for a finished entry, changes nothing. */
  lemma StaleCompletionRefused(t: DedupTable, key: DedupKey, generation: nat, outcome: DedupOutcome, now: nat)
    ensures Complete(t, key, generation, outcome, now).1 <==>
            (exists reservedAt, hash ::
                key in t.entries && t.entries[key] == DedupEntry(hash, InFlight(reservedAt, generation)))
    ensures !Complete(t, key, generation, outcome, now).1 ==> Complete(t, key, generation, outcome, now).0 == t
  {
    if key in t.entries && t.entries[key].state.InFlight? && t.entries[key].state.generation == generation {
      assert t.entries[key]
             == DedupEntry(t.entries[key].payloadHash, InFlight(t.entries[key].state.reservedAt, generation));
    }
  }

  // ---- where a replayed outcome comes from ----

  /** The table's entry is explained by the run so far: by the latest reservation of its key. */
  ghost predicate Explained(ops: seq<DedupOp>, n: nat, key: DedupKey, entry: DedupEntry)
    requires n <= |ops|
  {
    match entry.state
    case InFlight(reservedAt, generation) =>
      exists i :: 0 <= i < n && ops[i].now == reservedAt && ReservedAt(ops, i, key, entry.payloadHash, generation)
                  && NotReserved(ops, key, i + 1, n)
    case Done(doneAt, outcome) =>
      exists i, c, generation ::
        && 0 <= i < c < n && ops[c].now == doneAt && ReservedAt(ops, i, key, entry.payloadHash, generation)
        && InstalledAt(ops, c, key, generation, outcome) && NotReserved(ops, key, i + 1, n)
  }

  lemma StillExplained(ops: seq<DedupOp>, n: nat, key: DedupKey, entry: DedupEntry)
    requires n < |ops| && Explained(ops, n, key, entry) && NotReserved(ops, key, n, n + 1)
    ensures Explained(ops, n + 1, key, entry)
  {
    hide ReservedAt, InstalledAt;
    assert forall i :: NotReserved(ops, key, i, n) ==> NotReserved(ops, key, i, n + 1);
    match entry.state
    case InFlight(reservedAt, generation) =>
      var i :| 0 <= i < n && ops[i].now == reservedAt && ReservedAt(ops, i, key, entry.payloadHash, generation)
          && NotReserved(ops, key, i + 1, n);
      assert NotReserved(ops, key, i + 1, n + 1);
    case Done(doneAt, outcome) =>
      var i, c, generation :|
        && 0 <= i < c < n && ops[c].now == doneAt && ReservedAt(ops, i, key, entry.payloadHash, generation)
        && InstalledAt(ops, c, key, generation, outcome) && NotReserved(ops, key, i + 1, n);
      assert NotReserved(ops, key, i + 1, n + 1);
  }

  lemma {:induction false} EntriesExplained(ops: seq<DedupOp>, n: nat)
    requires n <= |ops|
    ensures forall key :: key in TableAt(ops, n).entries ==> Explained(ops, n, key, TableAt(ops, n).entries[key])
    decreases n
  {
    if n > 0 {
      EntriesExplained(ops, n - 1);
      forall key | key in TableAt(ops, n).entries
        ensures Explained(ops, n, key, TableAt(ops, n).entries[key])
      {
        EntryExplained(ops, n - 1, key);
      }
    }
  }

  lemma EntryExplained(ops: seq<DedupOp>, m: nat, key: DedupKey)
    requires m < |ops| && key in TableAt(ops, m + 1).entries
    requires key in TableAt(ops, m).entries ==> Explained(ops, m, key, TableAt(ops, m).entries[key])
    ensures Explained(ops, m + 1, key, TableAt(ops, m + 1).entries[key])
  {
    hide Explained, EntryExpired;
    var before := TableAt(ops, m);
    var after := TableAt(ops, m + 1);
    var op := ops[m];
    if op.TryReserve? && op.key == key && Reserve(before, key, op.payloadHash, op.now).1.Reserved? {
      FreshExplained(ops, m, key);
    } else if op.TryComplete? && op.key == key && Complete(before, key, op.generation, op.outcome, op.now).1 {
      InstalledExplained(ops, m, key);
    } else {
      assert key in before.entries && after.entries[key] == before.entries[key];
      StillExplained(ops, m, key, before.entries[key]);
    }
  }

  lemma FreshExplained(ops: seq<DedupOp>, m: nat, key: DedupKey)
    requires m < |ops| && ops[m].TryReserve? && ops[m].key == key
    requires Reserve(TableAt(ops, m), key, ops[m].payloadHash, ops[m].now).1.Reserved?
    ensures Explained(ops, m + 1, key, TableAt(ops, m + 1).entries[key])
  {
    assert ReservedAt(ops, m, key, ops[m].payloadHash, TableAt(ops, m).nextGeneration);
    assert NotReserved(ops, key, m + 1, m + 1);
  }

  lemma StillNotReserved(ops: seq<DedupOp>, key: DedupKey, i: nat, m: nat)
    requires m < |ops| && !ops[m].TryReserve? && NotReserved(ops, key, i, m)
    ensures NotReserved(ops, key, i, m + 1)
  {
    hide Reserve;
  }

  lemma InstalledExplained(ops: seq<DedupOp>, m: nat, key: DedupKey)
    requires m < |ops| && ops[m].TryComplete? && ops[m].key == key
    requires Complete(TableAt(ops, m), key, ops[m].generation, ops[m].outcome, ops[m].now).1
    requires Explained(ops, m, key, TableAt(ops, m).entries[key])
    ensures Explained(ops, m + 1, key, TableAt(ops, m + 1).entries[key])
  {
    var entry := TableAt(ops, m).entries[key];
    var i :| 0 <= i < m && ReservedAt(ops, i, key, entry.payloadHash, ops[m].generation)
        && NotReserved(ops, key, i + 1, m);
    assert InstalledAt(ops, m, key, ops[m].generation, ops[m].outcome);
    StillNotReserved(ops, key, i + 1, m);
  }

  /**
   * Every replayed outcome was installed for the latest reservation of that key, and that reservation
   * carried the same payload.
   */
  lemma ReplayIsGenuine(ops: seq<DedupOp>, n: nat, outcome: DedupOutcome)
    requires n < |ops| && ops[n].TryReserve?
    requires Reserve(TableAt(ops, n), ops[n].key, ops[n].payloadHash, ops[n].now).1 == Replay(outcome)
    ensures exists i, c, generation ::
              0 <= i < c < n && ReservedAt(ops, i, ops[n].key, ops[n].payloadHash, generation)
              && InstalledAt(ops, c, ops[n].key, generation, outcome) && NotReserved(ops, ops[n].key, i + 1, n)
  {
    hide ReservedAt, InstalledAt, NotReserved;
    EntriesExplained(ops, n);
  }

  // ---- an unfinished reservation ----

  /** The reservation `generation` of `key` is not completed by any operation from `i` up to `n`. */
  predicate NotInstalled(ops: seq<DedupOp>, key: DedupKey, generation: nat, i: nat, n: nat)
    requires n <= |ops|
  {
    forall j :: i <= j < n && ops[j].TryComplete? && ops[j].key == key && ops[j].generation == generation ==>
      !Complete(TableAt(ops, j), key, generation, ops[j].outcome, ops[j].now).1
  }

  lemma {:induction false} InFlightStays(
    ops: seq<DedupOp>, i: nat, n: nat, key: DedupKey, hash: nat, reservedAt: nat, generation: nat)
    requires i <= n <= |ops|
    requires key in TableAt(ops, i).entries
             && TableAt(ops, i).entries[key] == DedupEntry(hash, InFlight(reservedAt, generation))
    requires forall j :: i <= j < n ==> ops[j].now < reservedAt + RESERVATION_TIMEOUT
    requires NotInstalled(ops, key, generation, i, n)
    ensures key in TableAt(ops, n).entries
            && TableAt(ops, n).entries[key] == DedupEntry(hash, InFlight(reservedAt, generation))
    decreases n
  {
    if i < n {
      InFlightStays(ops, i, n - 1, key, hash, reservedAt, generation);
    }
  }

  /** While a reservation is neither completed nor timed out, others are told to wait, or that the payload differs. */
  lemma ReservationHolds(ops: seq<DedupOp>, i: nat, n: nat, key: DedupKey, hash: nat, generation: nat)
    requires ReservedAt(ops, i, key, hash, generation) && i < n < |ops| && ops[n].TryReserve? && ops[n].key == key
    requires forall j :: i < j <= n ==> ops[j].now < ops[i].now + RESERVATION_TIMEOUT
    requires NotInstalled(ops, key, generation, i + 1, n)
    ensures Reserve(TableAt(ops, n), key, ops[n].payloadHash, ops[n].now) ==
            (TableAt(ops, n), if ops[n].payloadHash == hash then Busy else KeyConflict)
  {
    assert TableAt(ops, i + 1) == StepTable(TableAt(ops, i), ops[i]);
    InFlightStays(ops, i + 1, n, key, hash, ops[i].now, generation);
  }

  ghost predicate ClockOk(ops: seq<DedupOp>) {
    forall i, j :: 0 <= i < j < |ops| ==> ops[i].now <= ops[j].now
  }

  /** Operation `c` installed an outcome for `key`, and the replay horizon is not over at `now`. */
  ghost predicate DoneWithin(ops: seq<DedupOp>, n: nat, key: DedupKey, now: nat)
    requires n <= |ops|
  {
    exists c, generation, outcome ::
        0 <= c < n && InstalledAt(ops, c, key, generation, outcome) && now < ops[c].now + DEDUP_TTL
  }

  /** `key` was reserved, not completed since, and the reservation has not timed out at `now`. */
  ghost predicate PendingWithin(ops: seq<DedupOp>, n: nat, key: DedupKey, now: nat)
    requires n <= |ops|
  {
    exists i, hash, generation :: 0 <= i < n && ReservedAt(ops, i, key, hash, generation)
      && NotInstalled(ops, key, generation, i + 1, n) && now < ops[i].now + RESERVATION_TIMEOUT
  }

  /** A key is handed out exactly when it was neither completed within the horizon nor is still being worked on. */
  lemma ReservedIff(ops: seq<DedupOp>, n: nat)
    requires n < |ops| && ops[n].TryReserve? && ClockOk(ops)
    ensures Reserve(TableAt(ops, n), ops[n].key, ops[n].payloadHash, ops[n].now).1.Reserved?
            <==> !DoneWithin(ops, n, ops[n].key, ops[n].now) && !PendingWithin(ops, n, ops[n].key, ops[n].now)
  {
    hide Reserve, DoneWithin, PendingWithin;
    if DoneWithin(ops, n, ops[n].key, ops[n].now) {
      DoneBlocks(ops, n);
    } else if PendingWithin(ops, n, ops[n].key, ops[n].now) {
      PendingBlocks(ops, n);
    } else {
      FreeIsReserved(ops, n);
    }
  }

  lemma DoneBlocks(ops: seq<DedupOp>, n: nat)
    requires n < |ops| && ops[n].TryReserve? && ClockOk(ops) && DoneWithin(ops, n, ops[n].key, ops[n].now)
    ensures !Reserve(TableAt(ops, n), ops[n].key, ops[n].payloadHash, ops[n].now).1.Reserved?
  {
    hide Reserve, InstalledAt;
    var c, generation, outcome :|
        0 <= c < n && InstalledAt(ops, c, ops[n].key, generation, outcome) && ops[n].now < ops[c].now + DEDUP_TTL;
    ExactlyOnce(ops, c, n, ops[n].key, generation, outcome);
  }

  lemma PendingBlocks(ops: seq<DedupOp>, n: nat)
    requires n < |ops| && ops[n].TryReserve? && ClockOk(ops) && PendingWithin(ops, n, ops[n].key, ops[n].now)
    ensures !Reserve(TableAt(ops, n), ops[n].key, ops[n].payloadHash, ops[n].now).1.Reserved?
  {
    hide Reserve, ReservedAt, NotInstalled;
    var i, hash, generation :| 0 <= i < n && ReservedAt(ops, i, ops[n].key, hash, generation)
      && NotInstalled(ops, ops[n].key, generation, i + 1, n) && ops[n].now < ops[i].now + RESERVATION_TIMEOUT;
    ReservationHolds(ops, i, n, ops[n].key, hash, generation);
  }

  lemma FreeIsReserved(ops: seq<DedupOp>, n: nat)
    requires n < |ops| && ops[n].TryReserve? && ClockOk(ops)
    requires !DoneWithin(ops, n, ops[n].key, ops[n].now) && !PendingWithin(ops, n, ops[n].key, ops[n].now)
    ensures Reserve(TableAt(ops, n), ops[n].key, ops[n].payloadHash, ops[n].now).1.Reserved?
  {
    hide ReservedAt, InstalledAt, NotInstalled, NotReserved;
    var key := ops[n].key;
    EntriesExplained(ops, n);
    if key in TableAt(ops, n).entries {
      var entry := TableAt(ops, n).entries[key];
      match entry.state
      case InFlight(reservedAt, generation) =>
        var i :| 0 <= i < n && ops[i].now == reservedAt && ReservedAt(ops, i, key, entry.payloadHash, generation)
          && NotReserved(ops, key, i + 1, n);
        StillInFlight(ops, i, n, key, entry.payloadHash, generation);
      case Done(doneAt, outcome) =>
    }
  }

  /** An entry that is in flight under a generation has not been completed under it. */
  lemma {:induction false} StillInFlight(ops: seq<DedupOp>, i: nat, n: nat, key: DedupKey, hash: nat, generation: nat)
    requires i < n <= |ops| && ReservedAt(ops, i, key, hash, generation)
    requires key in TableAt(ops, n).entries && TableAt(ops, n).entries[key].state.InFlight?
    requires TableAt(ops, n).entries[key].state.generation == generation
    ensures NotInstalled(ops, key, generation, i + 1, n)
    decreases n
  {
    assert TableAt(ops, i + 1) == StepTable(TableAt(ops, i), ops[i]);
    if i + 1 < n {
      var op := ops[n - 1];
      GenerationsGrow(ops, i + 1, n - 1);
      assert key in TableAt(ops, n - 1).entries && TableAt(ops, n - 1).entries[key] == TableAt(ops, n).entries[key];
      StillInFlight(ops, i, n - 1, key, hash, generation);
    }
  }

  // ---- the table inside a run of the whole ledger ----

  function Projected(op: AttentionRuns.Op): DedupOp {
    match op
    case OpReserve(key, hash, now) => TryReserve(key, hash, now)
    case OpComplete(key, generation, outcome, now) => TryComplete(key, generation, outcome, now)
    case _ => Touch(op.now)
  }

  function ProjectedAll(ops: seq<AttentionRuns.Op>): seq<DedupOp> {
    seq(|ops|, i requires 0 <= i < |ops| => Projected(ops[i]))
  }

  lemma {:induction false} PrefixTable(ops: seq<DedupOp>, more: seq<DedupOp>, n: nat)
    requires n <= |ops|
    ensures TableAt(ops + more, n) == TableAt(ops, n)
    decreases n
  {
    if n > 0 {
      PrefixTable(ops, more, n - 1);
    }
  }

  lemma StepProjects(s: Ledger, op: AttentionRuns.Op)
    ensures AttentionRuns.Step(s, op).dedup == StepTable(s.dedup, Projected(op))
  {
    hide AttentionSpec.ExpirePanes, AttentionSpec.ExpireNotifs, AttentionSpec.MarkPanes, PaneViews, NotifViews;
  }

  /** What is proved here about tables holds of the ledger's own table in every run. */
  lemma {:induction false} LedgerTableIsTable(epoch: string, ops: seq<AttentionRuns.Op>)
    ensures AttentionRuns.Run(epoch, ops).dedup == TableAt(ProjectedAll(ops), |ops|)
    decreases |ops|
  {
    hide AttentionRuns.Step, StepTable, Projected;
    if ops != [] {
      var init := ops[..|ops| - 1];
      LedgerTableIsTable(epoch, init);
      StepProjects(AttentionRuns.Run(epoch, init), ops[|ops| - 1]);
      assert ProjectedAll(ops) == ProjectedAll(init) + [Projected(ops[|ops| - 1])];
      PrefixTable(ProjectedAll(init), [Projected(ops[|ops| - 1])], |init|);
    }
  }

  /**
   * Any mutation leaves exactly the entries that are still of use: ten minutes for answers, thirty seconds for
   * reservations.
   */
  lemma NothingStaleKept(t: DedupTable, now: nat, key: DedupKey)
    ensures key in StepTable(t, Touch(now)).entries <==>
            && key in t.entries
            && match t.entries[key].state
               case InFlight(reservedAt, _) => now < reservedAt + RESERVATION_TIMEOUT
               case Done(doneAt, _) => now < doneAt + DEDUP_TTL
    ensures key in StepTable(t, Touch(now)).entries ==> StepTable(t, Touch(now)).entries[key] == t.entries[key]
  {
  }
}
