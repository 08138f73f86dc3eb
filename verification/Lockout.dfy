/** Brute-force lockout: `record_auth_failure` and `check_lockout` of `src/auth/mod.rs`. Instants are nanoseconds. */
module Lockout {
  import opened Common

  const NS_PER_SEC: nat := 1_000_000_000

  datatype FailRecord = FailRecord(count: nat, lastFail: nat)

  function ElapsedSecs(now: nat, t: nat): nat {
    (if now >= t then now - t else 0) / NS_PER_SEC
  }

  /** The per-address check: the delay to report, if any, and the record afterwards. */
  function Check(
    record: Option<FailRecord>, now: nat, maxFailures: nat, lockoutSecs: nat): (Option<FailRecord>, Option<nat>) {
    if record.Some? && record.value.count >= maxFailures then
      var elapsed := ElapsedSecs(now, record.value.lastFail);
      if elapsed < lockoutSecs then (record, Some(lockoutSecs - elapsed)) else (None, None)
    else (record, None)
  }

  function Failed(record: Option<FailRecord>, now: nat): FailRecord {
    FailRecord((if record.Some? then record.value.count else 0) + 1, now)
  }

  datatype Strategy = Off | Global | PerIp

  class AuthGuard {
    var failMap: map<string, FailRecord>
    var globalFailCount: nat
    var globalWindowStart: nat   // seconds since the epoch

    constructor ()
      ensures failMap == map[] && globalFailCount == 0 && globalWindowStart == 0
    {
      failMap, globalFailCount, globalWindowStart := map[], 0, 0;
    }

    method RecordAuthFailure(ip: string, globalLockoutSecs: nat, now: nat, unixNow: nat) returns (count: nat)
      modifies this
      ensures failMap == old(failMap)[ip := Failed(if ip in old(failMap) then Some(old(failMap)[ip]) else None, now)]
      ensures count == failMap[ip].count
      ensures if unixNow > old(globalWindowStart) + globalLockoutSecs
              then globalFailCount == 1 && globalWindowStart == unixNow
              else globalFailCount == old(globalFailCount) + 1 && globalWindowStart == old(globalWindowStart)
    {
      var record := if ip in failMap then failMap[ip] else FailRecord(0, now);
      record := record.(count := record.count + 1);
      record := record.(lastFail := now);
      failMap := failMap[ip := record];
      count := record.count;
      if (if unixNow >= globalWindowStart then unixNow - globalWindowStart else 0) > globalLockoutSecs {
        globalFailCount, globalWindowStart := 1, unixNow;
      } else {
        globalFailCount := globalFailCount + 1;
      }
    }

    /** A reported delay is at least one second and at most the configured lockout. */
    method CheckLockout(
      ip: string, strategy: Strategy, maxFailures: nat, lockoutSecs: nat,
      globalMaxFailures: nat, globalLockoutSecs: nat,
      now: nat, unixNow: nat)
      returns (retryAfter: Option<nat>)
      modifies this`failMap
      ensures retryAfter.Some? ==>
                1 <= retryAfter.value <= if strategy == Global then globalLockoutSecs else lockoutSecs
      ensures strategy == Off ==> retryAfter == None
      ensures strategy == Global ==>
                (retryAfter.Some? <==>
                   globalFailCount >= globalMaxFailures && 0 < globalLockoutSecs
                       && unixNow < globalWindowStart + globalLockoutSecs)
      ensures strategy == Global && retryAfter.Some? ==>
                retryAfter.value == globalLockoutSecs - if unixNow >= globalWindowStart
                    then unixNow - globalWindowStart else 0
      ensures strategy == PerIp ==>
                var over := ip in old(failMap) && old(failMap)[ip].count >= maxFailures;
                var elapsed := if over then ElapsedSecs(now, old(failMap)[ip].lastFail) else 0;
                && retryAfter == (if over && elapsed < lockoutSecs then Some(lockoutSecs - elapsed) else None)
                && failMap == (if over && elapsed >= lockoutSecs then old(failMap) - {ip} else old(failMap))
      ensures strategy != PerIp ==> failMap == old(failMap)
      ensures strategy == PerIp ==>
                var before := if ip in old(failMap) then Some(old(failMap)[ip]) else None;
                var (after, delay) := Check(before, now, maxFailures, lockoutSecs);
                retryAfter == delay && failMap == if after.Some? then old(failMap) else old(failMap) - {ip}
    {
      match strategy
      case Off =>
        retryAfter := None;
      case Global =>
        var elapsed := if unixNow >= globalWindowStart then unixNow - globalWindowStart else 0;
        if globalFailCount >= globalMaxFailures && elapsed < globalLockoutSecs {
          return Some(globalLockoutSecs - elapsed);
        }
        retryAfter := None;
      case PerIp =>
        if ip in failMap {
          var record := failMap[ip];
          if record.count >= maxFailures {
            var elapsed := ElapsedSecs(now, record.lastFail);
            if elapsed < lockoutSecs {
              return Some(lockoutSecs - elapsed);
            }
            failMap := failMap - {ip};
          }
        } else {
          assert failMap - {ip} == failMap;
        }
        retryAfter := None;
    }
  }

  // ---- login attempts from one address, one after the other ----

  /** A check at `checkedAt`; if it lets the attempt through and the credentials are wrong, a failure at `failedAt`. */
  datatype Attempt = Attempt(checkedAt: nat, wrong: bool, failedAt: nat)

  datatype Settings = Settings(maxFailures: nat, lockoutSecs: nat)

  function Lock(s: Settings): nat {
    s.lockoutSecs * NS_PER_SEC
  }

  /** The record, with the time of the first failure it counts. */
  datatype Tracked = Tracked(record: Option<FailRecord>, firstFail: nat)

  predicate LetThrough(t: Tracked, a: Attempt, s: Settings) {
    Check(t.record, a.checkedAt, s.maxFailures, s.lockoutSecs).1.None?
  }

  function After(t: Tracked, a: Attempt, s: Settings): Tracked {
    var checked := Check(t.record, a.checkedAt, s.maxFailures, s.lockoutSecs).0;
    if LetThrough(t, a, s) && a.wrong
    then Tracked(Some(Failed(checked, a.failedAt)), if checked.Some? then t.firstFail else a.failedAt)
    else Tracked(checked, t.firstFail)
  }

  function At(attempts: seq<Attempt>, n: nat, s: Settings): Tracked
    requires n <= |attempts|
  {
    if n == 0 then Tracked(None, 0) else After(At(attempts, n - 1, s), attempts[n - 1], s)
  }

  ghost predicate Sequential(attempts: seq<Attempt>) {
    && (forall i :: 0 <= i < |attempts| ==> attempts[i].checkedAt <= attempts[i].failedAt)
    && (forall i, j :: 0 <= i < j < |attempts| ==> attempts[i].failedAt <= attempts[j].checkedAt)
  }

  predicate Fails(attempts: seq<Attempt>, i: nat, s: Settings)
    requires i < |attempts|
  {
    attempts[i].wrong && LetThrough(At(attempts, i, s), attempts[i], s)
  }

  /** Failures recorded by the first `n` attempts at times from `lo` to `hi`. */
  function Failures(attempts: seq<Attempt>, n: nat, s: Settings, lo: int, hi: int): nat
    requires n <= |attempts|
  {
    if n == 0 then 0
    else
      Failures(attempts, n - 1, s, lo, hi)
      + if Fails(attempts, n - 1, s) && lo <= attempts[n - 1].failedAt <= hi then 1 else 0
  }

  function Clock(attempts: seq<Attempt>, n: nat): nat
    requires n <= |attempts|
  {
    if n == 0 then 0 else attempts[n - 1].failedAt
  }

  function Batch(s: Settings): nat {
    Max(s.maxFailures, 1)
  }

  /**
   * The record counts the failures since `firstFail`, never more than a batch; everything before lies at
   * least one lockout earlier.
   */
  ghost predicate Counts(attempts: seq<Attempt>, n: nat, s: Settings)
    requires n <= |attempts|
  {
    var t := At(attempts, n, s);
    if t.record.Some? then
      && t.firstFail <= t.record.value.lastFail <= Clock(attempts, n)
      && 1 <= t.record.value.count <= Batch(s)
      && (forall lo, hi :: t.firstFail - Lock(s) < lo ==> Failures(attempts, n, s, lo, hi) <= t.record.value.count)
      && (forall lo, hi :: lo <= t.firstFail - Lock(s) ==>
            Failures(attempts, n, s, lo, hi) <= Failures(attempts, n, s, lo, t.firstFail - Lock(s))
                + t.record.value.count)
      && (forall lo, hi :: t.record.value.lastFail < lo ==> Failures(attempts, n, s, lo, hi) == 0)
    else
      forall lo, hi :: Clock(attempts, n) - Lock(s) < lo ==> Failures(attempts, n, s, lo, hi) == 0
  }

  lemma {:induction false} FailuresSplit(attempts: seq<Attempt>, n: nat, s: Settings, lo: int, mid: int, hi: int)
    requires n <= |attempts|
    ensures Failures(attempts, n, s, lo, hi) <= Failures(attempts, n, s, lo, mid)
            + Failures(attempts, n, s, mid + 1, hi)
  {
    hide Fails;
    if n > 0 {
      FailuresSplit(attempts, n - 1, s, lo, mid, hi);
    }
  }

  lemma FailuresStep(attempts: seq<Attempt>, m: nat, n: nat, s: Settings)
    requires n == m + 1 <= |attempts|
    ensures forall lo, hi ::
              Failures(attempts, n, s, lo, hi) ==
              Failures(attempts, m, s, lo, hi)
              + if Fails(attempts, m, s) && lo <= attempts[m].failedAt <= hi then 1 else 0
  {
    hide Fails;
  }

  lemma {:induction false} CountsAlways(attempts: seq<Attempt>, n: nat, s: Settings)
    requires n <= |attempts| && Sequential(attempts)
    ensures Counts(attempts, n, s)
  {
    hide Counts;
    if n == 0 {
      assert Counts(attempts, 0, s) by { NoneYet(attempts, s); }
    } else {
      CountsAlways(attempts, n - 1, s);
      assert n > 1 ==> attempts[n - 2].failedAt <= attempts[n - 1].checkedAt;
      CountsStep(attempts, n - 1, n, s);
    }
  }

  lemma NoneYet(attempts: seq<Attempt>, s: Settings)
    ensures Counts(attempts, 0, s)
  {
  }

  lemma CountsStep(attempts: seq<Attempt>, m: nat, n: nat, s: Settings)
    requires n == m + 1 <= |attempts| && Counts(attempts, m, s)
    requires Clock(attempts, m) <= attempts[m].checkedAt <= attempts[m].failedAt
    ensures Counts(attempts, n, s)
  {
    var before := At(attempts, m, s);
    var a := attempts[m];
    FailuresStep(attempts, m, n, s);
    if !Fails(attempts, m, s) {
      QuietStep(attempts, m, n, s);
    } else if Check(before.record, a.checkedAt, s.maxFailures, s.lockoutSecs).0.Some? {
      SameBatch(attempts, m, n, s);
    } else {
      NewBatch(attempts, m, n, s);
    }
  }

  /** A record that a check lets go is a whole lockout old. */
  lemma LockoutOver(record: FailRecord, now: nat, s: Settings)
    requires record.lastFail <= now && Check(Some(record), now, s.maxFailures, s.lockoutSecs).0.None?
    ensures record.lastFail + Lock(s) <= now
  {
  }

  lemma QuietStep(attempts: seq<Attempt>, m: nat, n: nat, s: Settings)
    requires n == m + 1 <= |attempts| && Counts(attempts, m, s) && !Fails(attempts, m, s)
    requires Clock(attempts, m) <= attempts[m].checkedAt <= attempts[m].failedAt
    requires forall lo, hi :: Failures(attempts, n, s, lo, hi) == Failures(attempts, m, s, lo, hi)
    ensures Counts(attempts, n, s)
  {
    hide Failures, Counts;
    var t := At(attempts, m, s);
    var checked := Check(t.record, attempts[m].checkedAt, s.maxFailures, s.lockoutSecs).0;
    assert At(attempts, n, s) == Tracked(checked, t.firstFail);
    if checked == t.record {
      TimePasses(attempts, m, n, s);
    } else {
      LockoutOver(t.record.value, attempts[m].checkedAt, s);
      Released(attempts, m, n, s);
    }
  }

  lemma TimePasses(attempts: seq<Attempt>, m: nat, n: nat, s: Settings)
    requires n == m + 1 <= |attempts| && Counts(attempts, m, s)
    requires At(attempts, n, s) == At(attempts, m, s) && Clock(attempts, m) <= Clock(attempts, n)
    requires forall lo, hi :: Failures(attempts, n, s, lo, hi) == Failures(attempts, m, s, lo, hi)
    ensures Counts(attempts, n, s)
  {
    hide Failures, At;
  }

  lemma Released(attempts: seq<Attempt>, m: nat, n: nat, s: Settings)
    requires n == m + 1 <= |attempts| && Counts(attempts, m, s)
    requires At(attempts, n, s).record.None? && At(attempts, m, s).record.Some?
    requires At(attempts, m, s).record.value.lastFail + Lock(s) <= Clock(attempts, n)
    requires forall lo, hi :: Failures(attempts, n, s, lo, hi) == Failures(attempts, m, s, lo, hi)
    ensures Counts(attempts, n, s)
  {
    hide Failures, At;
  }

  lemma SameBatch(attempts: seq<Attempt>, m: nat, n: nat, s: Settings)
    requires n == m + 1 <= |attempts| && Counts(attempts, m, s) && Fails(attempts, m, s)
    requires Clock(attempts, m) <= attempts[m].checkedAt <= attempts[m].failedAt
    requires Check(At(attempts, m, s).record, attempts[m].checkedAt, s.maxFailures, s.lockoutSecs).0.Some?
    ensures Counts(attempts, n, s)
  {
    hide Failures;
    FailuresStep(attempts, m, n, s);
  }

  lemma NewBatch(attempts: seq<Attempt>, m: nat, n: nat, s: Settings)
    requires n == m + 1 <= |attempts| && Counts(attempts, m, s) && Fails(attempts, m, s)
    requires Clock(attempts, m) <= attempts[m].checkedAt <= attempts[m].failedAt
    requires Check(At(attempts, m, s).record, attempts[m].checkedAt, s.maxFailures, s.lockoutSecs).0.None?
    ensures Counts(attempts, n, s)
  {
    hide Failures;
    FailuresStep(attempts, m, n, s);
    var at := attempts[m].failedAt;
    var bound := at - Lock(s);
    var record := At(attempts, m, s).record;
    if record.Some? {
      LockoutOver(record.value, attempts[m].checkedAt, s);
      assert record.value.lastFail <= bound;
    }
    assert forall lo, hi :: bound < lo ==> Failures(attempts, m, s, lo, hi) == 0;
    forall lo: int, hi: int | lo <= bound
      ensures Failures(attempts, n, s, lo, hi) <= Failures(attempts, n, s, lo, bound) + 1
    {
      FailuresSplit(attempts, m, s, lo, bound, hi);
    }
  }

  // ---- the bound ----

  /**
   * Any span shorter than `k` lockout periods has at most `k` batches of failures.
   */
  lemma {:induction false} BatchBound(attempts: seq<Attempt>, n: nat, s: Settings, lo: int, hi: int, k: nat)
    requires n <= |attempts| && Sequential(attempts) && s.lockoutSecs > 0 && lo <= hi && hi - lo < k * Lock(s)
    ensures Failures(attempts, n, s, lo, hi) <= Batch(s) * k
    decreases n
  {
    hide Counts, Check, Batch, Failures, Fails, Lock;
    if n == 0 {
      NoFailures(attempts, s, lo, hi);
    } else {
      FailuresStep(attempts, n - 1, n, s);
      BatchBound(attempts, n - 1, s, lo, hi, k);
      if Fails(attempts, n - 1, s) && lo <= attempts[n - 1].failedAt <= hi {
        CountsAlways(attempts, n, s);
        LastBatch(attempts, n - 1, n, s, lo, hi);
        var first := At(attempts, n, s).firstFail;
        if lo <= first - Lock(s) {
          assert k >= 1 && (k - 1) * Lock(s) == k * Lock(s) - Lock(s);
          assert Batch(s) * k == Batch(s) * (k - 1) + Batch(s);
          BatchBound(attempts, n - 1, s, lo, first - Lock(s), k - 1);
        } else {
          assert k >= 1;
          assert Batch(s) * k >= Batch(s);
        }
      }
    }
  }

  lemma NoFailures(attempts: seq<Attempt>, s: Settings, lo: int, hi: int)
    ensures Failures(attempts, 0, s, lo, hi) == 0
  {
  }

  /** The last failure belongs to the current batch; what came before lies a lockout earlier. */
  lemma LastBatch(attempts: seq<Attempt>, m: nat, n: nat, s: Settings, lo: int, hi: int)
    requires n == m + 1 <= |attempts| && s.lockoutSecs > 0 && Counts(attempts, n, s) && Fails(attempts, m, s)
    requires lo <= attempts[m].failedAt <= hi
    ensures var t := At(attempts, n, s);
            && t.firstFail <= attempts[m].failedAt
            && (t.firstFail - Lock(s) < lo ==> Failures(attempts, n, s, lo, hi) <= Batch(s))
            && (lo <= t.firstFail - Lock(s) ==>
                  Failures(attempts, n, s, lo, hi) <= Failures(attempts, m, s, lo, t.firstFail - Lock(s)) + Batch(s))
  {
    hide Failures, Batch;
    FailuresStep(attempts, m, n, s);
  }

  lemma PeriodsCover(span: nat, period: nat)
    requires period > 0
    ensures span < (span / period + 1) * period
  {
  }

  /** In any span at most one batch of failures per whole lockout period, and one more. */
  lemma LockoutBound(attempts: seq<Attempt>, s: Settings, lo: int, hi: int)
    requires Sequential(attempts) && s.lockoutSecs > 0 && lo <= hi
    ensures Failures(attempts, |attempts|, s, lo, hi) <= Batch(s) * ((hi - lo) / Lock(s) + 1)
  {
    PeriodsCover(hi - lo, Lock(s));
    BatchBound(attempts, |attempts|, s, lo, hi, (hi - lo) / Lock(s) + 1);
  }

  // ---- who is refused ----

  /** Failures recorded by the first `n` attempts. */
  function FailCount(attempts: seq<Attempt>, n: nat, s: Settings): nat
    requires n <= |attempts|
  {
    if n == 0 then 0 else FailCount(attempts, n - 1, s) + if Fails(attempts, n - 1, s) then 1 else 0
  }

  ghost predicate LastFailure(attempts: seq<Attempt>, n: nat, s: Settings, i: int)
    requires n <= |attempts|
  {
    0 <= i < n && Fails(attempts, i, s) && forall j :: i < j < n ==> !Fails(attempts, j, s)
  }

  /** The delay attempt `n` is told, if it is refused. */
  function DelayAt(attempts: seq<Attempt>, n: nat, s: Settings): Option<nat>
    requires n < |attempts|
  {
    Check(At(attempts, n, s).record, attempts[n].checkedAt, s.maxFailures, s.lockoutSecs).1
  }

  /** The record has the time of the last failure, and counts no more than there were. */
  lemma {:induction false} RecordIsLast(attempts: seq<Attempt>, n: nat, s: Settings)
    requires n <= |attempts|
    ensures var record := At(attempts, n, s).record;
            record.Some? ==>
              && record.value.count <= FailCount(attempts, n, s)
              && exists i :: LastFailure(attempts, n, s, i) && record.value.lastFail == attempts[i].failedAt
  {
    hide Check;
    if n > 0 {
      RecordIsLast(attempts, n - 1, s);
      CheckKeepsOrDrops(At(attempts, n - 1, s).record, attempts[n - 1].checkedAt, s);
      if Fails(attempts, n - 1, s) {
        assert LastFailure(attempts, n, s, n - 1);
      } else if At(attempts, n, s).record.Some? {
        var i :| LastFailure(attempts, n - 1, s, i) && At(attempts, n, s).record.value.lastFail == attempts[i].failedAt;
        assert LastFailure(attempts, n, s, i);
      }
    }
  }

  lemma CheckKeepsOrDrops(record: Option<FailRecord>, now: nat, s: Settings)
    ensures Check(record, now, s.maxFailures, s.lockoutSecs).0 in {record, None}
  {
  }

  /**
   * A refused attempt comes less than the lockout after the last failure, is told exactly the rest of it,
   * and there were enough failures. So whoever has fewer, or has waited, is let through.
   */
  lemma RefusedOnlyIf(attempts: seq<Attempt>, n: nat, s: Settings)
    requires n < |attempts| && !LetThrough(At(attempts, n, s), attempts[n], s)
    ensures FailCount(attempts, n, s) >= s.maxFailures
    ensures exists i :: LastFailure(attempts, n, s, i)
              && ElapsedSecs(attempts[n].checkedAt, attempts[i].failedAt) < s.lockoutSecs
              && DelayAt(attempts, n, s) ==
                 Some(s.lockoutSecs - ElapsedSecs(attempts[n].checkedAt, attempts[i].failedAt))
  {
    hide At, Fails;
    RecordIsLast(attempts, n, s);
  }

  /** From failure `k` on nothing is forgotten, as long as it is less than the lockout ago. */
  lemma {:induction false} NothingForgotten(attempts: seq<Attempt>, k: nat, m: nat, n: nat, s: Settings)
    requires k < m <= n < |attempts| && Sequential(attempts) && Fails(attempts, k, s)
    requires ElapsedSecs(attempts[n].checkedAt, attempts[k].failedAt) < s.lockoutSecs
    ensures var record := At(attempts, m, s).record;
            && record.Some? && record.value.lastFail >= attempts[k].failedAt
            && record.value.count >= FailCount(attempts, m, s) - FailCount(attempts, k, s)
    decreases m
  {
    if m == k + 1 {
    } else {
      hide Fails;
      NothingForgotten(attempts, k, m - 1, n, s);
      assert attempts[m - 1].checkedAt <= attempts[m - 1].failedAt <= attempts[n].checkedAt;
      var record := At(attempts, m - 1, s).record.value;
      LessElapsed(attempts[m - 1].checkedAt, attempts[n].checkedAt, attempts[k].failedAt, record.lastFail);
      NotDropped(attempts, m - 1, s);
    }
  }

  lemma LessElapsed(now: nat, later: nat, earlier: nat, last: nat)
    requires now <= later && earlier <= last
    ensures ElapsedSecs(now, last) <= ElapsedSecs(later, earlier)
  {
  }

  lemma NotDropped(attempts: seq<Attempt>, m: nat, s: Settings)
    requires m < |attempts| && At(attempts, m, s).record.Some?
    requires ElapsedSecs(attempts[m].checkedAt, At(attempts, m, s).record.value.lastFail) < s.lockoutSecs
    ensures var record, after := At(attempts, m, s).record.value, At(attempts, m + 1, s).record;
            && after.Some?
            && (if Fails(attempts, m, s) then after.value == FailRecord(record.count + 1, attempts[m].failedAt)
                else after.value == record)
  {
  }

  /** Enough failures less than the lockout ago, counted from failure `k`: refused. */
  lemma RefusedIf(attempts: seq<Attempt>, k: nat, n: nat, s: Settings)
    requires k < n < |attempts| && Sequential(attempts) && Fails(attempts, k, s)
    requires ElapsedSecs(attempts[n].checkedAt, attempts[k].failedAt) < s.lockoutSecs
    requires FailCount(attempts, n, s) - FailCount(attempts, k, s) >= s.maxFailures
    ensures !LetThrough(At(attempts, n, s), attempts[n], s)
  {
    hide At, Fails;
    NothingForgotten(attempts, k, n, n, s);
    LessElapsed(attempts[n].checkedAt, attempts[n].checkedAt, attempts[k].failedAt,
        At(attempts, n, s).record.value.lastFail);
  }
}
