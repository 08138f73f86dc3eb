/**
 * How many codes one address can have created: the rate windows of `src/auth/verification_code.rs`.
 *
 * `create` reads the clock before it waits for the window, and cleanup before it comes to the window. So
 * calls that overlap can reach the window in another order than that of their readings; nothing is
 * assumed about it unless a lemma says so.
 */
module CodeRates {
  import opened Common
  import opened VerificationCodes

  /** A request for a code, or a cleanup, reaching the window of one address, with its reading of the clock. */
  datatype RateOp = Request(readAt: nat) | Clear(readAt: nat)

  function WindowAfter(window: Option<RateWindow>, op: RateOp, limit: nat): Option<RateWindow> {
    match op
    case Request(readAt) => Some(Admit(window, readAt, limit).0)
    case Clear(readAt) => if window.Some? && WindowStale(window.value, readAt) then None else window
  }

  function WindowAt(ops: seq<RateOp>, n: nat, limit: nat): Option<RateWindow>
    requires n <= |ops|
  {
    if n == 0 then None else WindowAfter(WindowAt(ops, n - 1, limit), ops[n - 1], limit)
  }

  /** The window if it were never cleared. */
  function UnclearedAt(ops: seq<RateOp>, n: nat, limit: nat): Option<RateWindow>
    requires n <= |ops|
  {
    if n == 0 then None
    else if ops[n - 1].Clear? then UnclearedAt(ops, n - 1, limit)
    else WindowAfter(UnclearedAt(ops, n - 1, limit), ops[n - 1], limit)
  }

  /** When the latest window began, whether or not it has been cleared since. */
  function StartedAt(ops: seq<RateOp>, n: nat, limit: nat): Option<nat>
    requires n <= |ops|
  {
    if n == 0 then None
    else if ops[n - 1].Request? then Some(WindowAt(ops, n, limit).value.windowStart)
    else StartedAt(ops, n - 1, limit)
  }

  predicate Admitted(ops: seq<RateOp>, i: nat, limit: nat)
    requires i < |ops|
  {
    ops[i].Request? && Admit(WindowAt(ops, i, limit), ops[i].readAt, limit).1
  }

  /** A request that reads less than a minute after the start of a window that has already been cleared. */
  predicate Reopens(ops: seq<RateOp>, i: nat, limit: nat)
    requires i < |ops|
  {
    && ops[i].Request? && WindowAt(ops, i, limit).None? && StartedAt(ops, i, limit).Some?
    && Since(ops[i].readAt, StartedAt(ops, i, limit).value) < RATE_WINDOW
  }

  /** A creation counted by a window that began after the request had read the clock. */
  predicate Belated(ops: seq<RateOp>, i: nat, limit: nat)
    requires i < |ops|
  {
    && Admitted(ops, i, limit) && WindowAt(ops, i, limit).Some?
    && ops[i].readAt < WindowAt(ops, i, limit).value.windowStart
  }

  // ---- clearing ----

  /** The request gets the same decision, and leaves the same window, as without clearing. */
  predicate SameDecision(ops: seq<RateOp>, n: nat, limit: nat)
    requires n < |ops|
  {
    ops[n].Request? ==>
      Admit(WindowAt(ops, n, limit), ops[n].readAt, limit) == Admit(UnclearedAt(ops, n, limit), ops[n].readAt, limit)
  }

  /** The window is the uncleared one, unless it is gone. */
  predicate InStep(ops: seq<RateOp>, n: nat, limit: nat)
    requires n <= |ops|
  {
    var w, u := WindowAt(ops, n, limit), UnclearedAt(ops, n, limit);
    && (w == u || (w == None && u.Some?))
    && (if u.Some? then u.value.count >= 1 && StartedAt(ops, n, limit) == Some(u.value.windowStart)
        else StartedAt(ops, n, limit) == None)
  }

  lemma {:induction false} NothingReopened(ops: seq<RateOp>, n: nat, limit: nat)
    requires n <= |ops| && limit >= 1 && forall i :: 0 <= i < n ==> !Reopens(ops, i, limit)
    ensures InStep(ops, n, limit)
    decreases n
  {
    if n > 0 {
      NothingReopened(ops, n - 1, limit);
      assert !Reopens(ops, n - 1, limit);
    }
  }

  lemma DecisionAt(ops: seq<RateOp>, n: nat, limit: nat)
    requires n < |ops| && limit >= 1 && InStep(ops, n, limit)
    ensures SameDecision(ops, n, limit) <==> !Reopens(ops, n, limit)
  {
  }

  /** Clearing windows changes nothing for any request, exactly if no request reopens a cleared one. */
  lemma ClearingInvisible(ops: seq<RateOp>, limit: nat)
    requires limit >= 1
    ensures (forall n :: 0 <= n < |ops| ==> SameDecision(ops, n, limit)) <==>
            (forall n :: 0 <= n < |ops| ==> !Reopens(ops, n, limit))
  {
    hide SameDecision, Reopens, InStep;
    if forall n :: 0 <= n < |ops| ==> !Reopens(ops, n, limit) {
      forall n | 0 <= n < |ops|
        ensures SameDecision(ops, n, limit)
      {
        NothingReopened(ops, n, limit);
        DecisionAt(ops, n, limit);
      }
    } else {
      var n :| 0 <= n < |ops| && Reopens(ops, n, limit);
      var k := FirstReopened(ops, n, limit);
    }
  }

  lemma {:induction false} FirstReopened(ops: seq<RateOp>, n: nat, limit: nat) returns (k: nat)
    requires n < |ops| && limit >= 1 && Reopens(ops, n, limit)
    ensures k <= n && !SameDecision(ops, k, limit)
    decreases n
  {
    hide SameDecision, Reopens, InStep;
    if i :| 0 <= i < n && Reopens(ops, i, limit) {
      k := FirstReopened(ops, i, limit);
    } else {
      k := n;
      NothingReopened(ops, n, limit);
      DecisionAt(ops, n, limit);
    }
  }

  /** An input where clearing shows: a request that read the clock at 60 s less 1 ns comes after a cleanup at 60 s. */
  lemma ClearingShows()
    ensures var ops := [Request(0), Clear(RATE_WINDOW), Request(RATE_WINDOW - 1)];
            && Admit(WindowAt(ops, 2, 1), RATE_WINDOW - 1, 1).1
            && !Admit(UnclearedAt(ops, 2, 1), RATE_WINDOW - 1, 1).1
  {
    var ops := [Request(0), Clear(RATE_WINDOW), Request(RATE_WINDOW - 1)];
    assert WindowAt(ops, 1, 1) == Some(RateWindow(0, 1)) == UnclearedAt(ops, 1, 1);
    assert WindowAt(ops, 2, 1) == None;
  }

  // ---- the bound ----

  /** Creations among the first `n` operations with readings from `lo` up to but not including `hi`. */
  function Created(ops: seq<RateOp>, n: nat, limit: nat, lo: int, hi: int): nat
    requires n <= |ops|
  {
    if n == 0 then 0
    else
      Created(ops, n - 1, limit, lo, hi)
      + if Admitted(ops, n - 1, limit) && lo <= ops[n - 1].readAt < hi then 1 else 0
  }

  /** Those of them that were counted by a later window. */
  function CreatedBelated(ops: seq<RateOp>, n: nat, limit: nat, lo: int, hi: int): nat
    requires n <= |ops|
  {
    if n == 0 then 0
    else
      CreatedBelated(ops, n - 1, limit, lo, hi)
      + if Belated(ops, n - 1, limit) && lo <= ops[n - 1].readAt < hi then 1 else 0
  }

  function Reopenings(ops: seq<RateOp>, n: nat, limit: nat): nat
    requires n <= |ops|
  {
    if n == 0 then 0 else Reopenings(ops, n - 1, limit) + if Reopens(ops, n - 1, limit) then 1 else 0
  }

  predicate Timely(ops: seq<RateOp>, i: nat, limit: nat, lo: int, hi: int)
    requires i < |ops|
  {
    Admitted(ops, i, limit) && !Belated(ops, i, limit) && lo <= ops[i].readAt < hi
  }

  /** Creations that are not belated, since the last reopening. */
  function Recent(ops: seq<RateOp>, n: nat, limit: nat, lo: int, hi: int): nat
    requires n <= |ops|
  {
    if n == 0 then 0
    else
      (if Reopens(ops, n - 1, limit) then 0 else Recent(ops, n - 1, limit, lo, hi))
      + if Timely(ops, n - 1, limit, lo, hi) then 1 else 0
  }

  lemma {:induction false} RecentSplits(ops: seq<RateOp>, n: nat, limit: nat, lo: int, mid: int, hi: int)
    requires n <= |ops| && lo <= mid <= hi
    ensures Recent(ops, n, limit, lo, hi) == Recent(ops, n, limit, lo, mid) + Recent(ops, n, limit, mid, hi)
  {
    hide Reopens, Admitted, Belated;
    if n > 0 {
      RecentSplits(ops, n - 1, limit, lo, mid, hi);
    }
  }

  /**
   * The window counts what was created since it began; nothing reads beyond it, and any minute that
   * reaches back before it has at most `limit` creations there.
   */
  ghost predicate WindowCounts(ops: seq<RateOp>, n: nat, limit: nat)
    requires n <= |ops|
  {
    var w := WindowAt(ops, n, limit);
    if StartedAt(ops, n, limit).None? then w == None && forall lo, hi :: Recent(ops, n, limit, lo, hi) == 0
    else
      var start := StartedAt(ops, n, limit).value;
      && (w.Some? ==> w.value.windowStart == start && w.value.count <= limit)
      && (forall lo, hi :: start <= lo ==>
            Recent(ops, n, limit, lo, hi) <= if w.Some? then w.value.count else limit)
      && (forall lo, hi :: start + RATE_WINDOW <= lo ==> Recent(ops, n, limit, lo, hi) == 0)
      && (forall lo :: lo <= start < lo + RATE_WINDOW ==> Recent(ops, n, limit, lo, start) <= limit)
  }

  lemma {:induction false} WindowCountsAlways(ops: seq<RateOp>, n: nat, limit: nat)
    requires n <= |ops| && limit >= 1
    ensures WindowCounts(ops, n, limit)
    decreases n
  {
    hide WindowCounts;
    if n == 0 {
      assert WindowCounts(ops, 0, limit) by { NothingYet(ops, limit); }
    } else {
      WindowCountsAlways(ops, n - 1, limit);
      if ops[n - 1].Clear? {
        Cleared(ops, n - 1, n, limit);
      } else {
        Requested(ops, n - 1, n, limit);
      }
    }
  }

  lemma NothingYet(ops: seq<RateOp>, limit: nat)
    ensures WindowCounts(ops, 0, limit)
  {
  }

  lemma RecentStep(ops: seq<RateOp>, m: nat, n: nat, limit: nat)
    requires n == m + 1 <= |ops|
    ensures forall lo, hi ::
              Recent(ops, n, limit, lo, hi) ==
              (if Reopens(ops, m, limit) then 0 else Recent(ops, m, limit, lo, hi))
              + if Timely(ops, m, limit, lo, hi) then 1 else 0
  {
    hide Reopens, Timely;
  }

  lemma Cleared(ops: seq<RateOp>, m: nat, n: nat, limit: nat)
    requires n == m + 1 <= |ops| && WindowCounts(ops, m, limit) && ops[m].Clear?
    ensures WindowCounts(ops, n, limit)
  {
    RecentStep(ops, m, n, limit);
    assert StartedAt(ops, n, limit) == StartedAt(ops, m, limit);
    hide Recent;
  }

  lemma Requested(ops: seq<RateOp>, m: nat, n: nat, limit: nat)
    requires n == m + 1 <= |ops| && limit >= 1 && WindowCounts(ops, m, limit) && ops[m].Request?
    ensures WindowCounts(ops, n, limit)
  {
    hide Recent, WindowCounts;
    RecentStep(ops, m, n, limit);
    var w := WindowAt(ops, m, limit);
    if w.Some? && !WindowStale(w.value, ops[m].readAt) {
      SameWindow(ops, m, n, limit);
    } else {
      NewWindow(ops, m, n, limit);
    }
  }

  lemma SameWindow(ops: seq<RateOp>, m: nat, n: nat, limit: nat)
    requires n == m + 1 <= |ops| && limit >= 1 && WindowCounts(ops, m, limit) && ops[m].Request?
    requires WindowAt(ops, m, limit).Some? && !WindowStale(WindowAt(ops, m, limit).value, ops[m].readAt)
    ensures WindowCounts(ops, n, limit)
  {
    hide Recent;
    RecentStep(ops, m, n, limit);
    assert StartedAt(ops, m, limit).Some?;
    assert WindowAt(ops, n, limit) == Some(Admit(WindowAt(ops, m, limit), ops[m].readAt, limit).0);
  }

  lemma NewWindow(ops: seq<RateOp>, m: nat, n: nat, limit: nat)
    requires n == m + 1 <= |ops| && limit >= 1 && WindowCounts(ops, m, limit) && ops[m].Request?
    requires WindowAt(ops, m, limit).Some? ==> WindowStale(WindowAt(ops, m, limit).value, ops[m].readAt)
    ensures WindowCounts(ops, n, limit)
  {
    hide Recent;
    RecentStep(ops, m, n, limit);
    var now := ops[m].readAt;
    assert WindowAt(ops, n, limit) == Some(RateWindow(now, 1));
    assert StartedAt(ops, n, limit) == Some(now);
    assert StartedAt(ops, m, limit).Some? && !Reopens(ops, m, limit) ==>
        StartedAt(ops, m, limit).value + RATE_WINDOW <= now;
  }

  lemma {:induction false} RecentBound(ops: seq<RateOp>, n: nat, limit: nat, lo: int)
    requires n <= |ops| && limit >= 1
    ensures Recent(ops, n, limit, lo, lo + RATE_WINDOW) <= 2 * limit
    decreases n
  {
    hide WindowCounts, Admit, Reopens, WindowAt, StartedAt;
    if n > 0 {
      RecentBound(ops, n - 1, limit, lo);
      if Timely(ops, n - 1, limit, lo, lo + RATE_WINDOW) {
        WindowCountsAlways(ops, n, limit);
        TimelyAfterStart(ops, n - 1, n, limit);
        LatestMinute(ops, n, limit, lo);
      }
    }
  }

  lemma TimelyAfterStart(ops: seq<RateOp>, m: nat, n: nat, limit: nat)
    requires n == m + 1 <= |ops| && Admitted(ops, m, limit) && !Belated(ops, m, limit)
    ensures StartedAt(ops, n, limit).Some? && StartedAt(ops, n, limit).value <= ops[m].readAt
  {
  }

  /** A minute that ends after the start of the latest window: the part before it and the part inside it. */
  lemma LatestMinute(ops: seq<RateOp>, n: nat, limit: nat, lo: int)
    requires n <= |ops| && WindowCounts(ops, n, limit)
    requires StartedAt(ops, n, limit).Some? && StartedAt(ops, n, limit).value < lo + RATE_WINDOW
    ensures Recent(ops, n, limit, lo, lo + RATE_WINDOW) <= 2 * limit
  {
    hide Recent;
    var start := StartedAt(ops, n, limit).value;
    if lo <= start {
      RecentSplits(ops, n, limit, lo, start, lo + RATE_WINDOW);
    }
  }

  /**
   * Any sixty seconds admit at most twice the limit, and as much again for each reopening, and one more for
   * each belated creation. Nothing is assumed about the order of the readings.
   */
  lemma {:induction false} RateBound(ops: seq<RateOp>, n: nat, limit: nat, lo: int)
    requires n <= |ops| && limit >= 1
    ensures Created(ops, n, limit, lo, lo + RATE_WINDOW) <=
            2 * limit * (1 + Reopenings(ops, n, limit)) + CreatedBelated(ops, n, limit, lo, lo + RATE_WINDOW)
  {
    RecentBound(ops, n, limit, lo);
    CreatedSoFar(ops, n, limit, lo);
    assert 2 * limit * (1 + Reopenings(ops, n, limit)) == 2 * limit + 2 * limit * Reopenings(ops, n, limit);
  }

  lemma {:induction false} CreatedSoFar(ops: seq<RateOp>, n: nat, limit: nat, lo: int)
    requires n <= |ops| && limit >= 1
    ensures Created(ops, n, limit, lo, lo + RATE_WINDOW) <=
            2 * limit * Reopenings(ops, n, limit) + Recent(ops, n, limit, lo, lo + RATE_WINDOW)
            + CreatedBelated(ops, n, limit, lo, lo + RATE_WINDOW)
  {
    hide Created, CreatedBelated, Recent, Reopenings;
    NothingCreated(ops, limit, lo, lo + RATE_WINDOW);
    if n > 0 {
      CreatedSoFar(ops, n - 1, limit, lo);
      RecentBound(ops, n - 1, limit, lo);
      NextCreated(ops, n - 1, n, limit, lo, lo + RATE_WINDOW);
      var r := Reopenings(ops, n - 1, limit);
      assert 2 * limit * (r + 1) == 2 * limit * r + 2 * limit;
    }
  }

  lemma NothingCreated(ops: seq<RateOp>, limit: nat, lo: int, hi: int)
    ensures Created(ops, 0, limit, lo, hi) == CreatedBelated(ops, 0, limit, lo, hi) == Reopenings(ops, 0, limit) == 0
  {
  }

  /** A creation is either timely or belated. */
  lemma NextCreated(ops: seq<RateOp>, m: nat, n: nat, limit: nat, lo: int, hi: int)
    requires n == m + 1 <= |ops|
    ensures Created(ops, n, limit, lo, hi) - CreatedBelated(ops, n, limit, lo, hi) ==
            Created(ops, m, limit, lo, hi) - CreatedBelated(ops, m, limit, lo, hi)
            + if Timely(ops, m, limit, lo, hi) then 1 else 0
    ensures Reopenings(ops, n, limit) == Reopenings(ops, m, limit) + if Reopens(ops, m, limit) then 1 else 0
    ensures Recent(ops, n, limit, lo, hi) ==
            (if Reopens(ops, m, limit) then 0 else Recent(ops, m, limit, lo, hi))
            + if Timely(ops, m, limit, lo, hi) then 1 else 0
  {
    hide Admitted, Reopens, Belated;
    assert Belated(ops, m, limit) ==> Admitted(ops, m, limit) by {
      if Belated(ops, m, limit) {
        BelatedIsAdmitted(ops, m, limit);
      }
    }
  }

  lemma BelatedIsAdmitted(ops: seq<RateOp>, i: nat, limit: nat)
    requires i < |ops| && Belated(ops, i, limit)
    ensures Admitted(ops, i, limit)
  {
  }

  // ---- requests that come in the order of their readings ----

  ghost predicate InOrder(ops: seq<RateOp>) {
    forall i, j :: 0 <= i < j < |ops| ==> ops[i].readAt <= ops[j].readAt
  }

  lemma {:induction false} OrderlyWindows(ops: seq<RateOp>, n: nat, limit: nat)
    requires n <= |ops| && InOrder(ops) && limit >= 1
    ensures WindowAt(ops, n, limit).Some? ==>
            StartedAt(ops, n, limit) == Some(WindowAt(ops, n, limit).value.windowStart)
    ensures StartedAt(ops, n, limit).Some? ==>
              && n > 0 && StartedAt(ops, n, limit).value <= ops[n - 1].readAt
              && (WindowAt(ops, n, limit).None? ==> StartedAt(ops, n, limit).value + RATE_WINDOW <= ops[n - 1].readAt)
    decreases n
  {
    if n > 0 {
      OrderlyWindows(ops, n - 1, limit);
      assert n > 1 ==> ops[n - 2].readAt <= ops[n - 1].readAt;
    }
  }

  /** Then clearing is invisible, and any sixty seconds admit at most twice the limit. */
  lemma {:induction false} OrderlyRate(ops: seq<RateOp>, n: nat, limit: nat, lo: int)
    requires n <= |ops| && InOrder(ops) && limit >= 1
    ensures forall i :: 0 <= i < |ops| ==> SameDecision(ops, i, limit)
    ensures Created(ops, n, limit, lo, lo + RATE_WINDOW) <= 2 * limit
  {
    hide SameDecision, Created, Reopens, Belated, InOrder;
    forall i | 0 <= i < |ops|
      ensures !Reopens(ops, i, limit) && !Belated(ops, i, limit)
    {
      OrderlyCall(ops, i, limit);
    }
    ClearingInvisible(ops, limit);
    RateBound(ops, n, limit, lo);
    NothingLate(ops, n, limit, lo);
  }

  lemma OrderlyCall(ops: seq<RateOp>, i: nat, limit: nat)
    requires i < |ops| && InOrder(ops) && limit >= 1
    ensures !Reopens(ops, i, limit) && !Belated(ops, i, limit)
  {
    OrderlyWindows(ops, i, limit);
    assert i > 0 ==> ops[i - 1].readAt <= ops[i].readAt;
  }

  lemma {:induction false} NothingLate(ops: seq<RateOp>, n: nat, limit: nat, lo: int)
    requires n <= |ops| && forall i :: 0 <= i < |ops| ==> !Reopens(ops, i, limit) && !Belated(ops, i, limit)
    ensures Reopenings(ops, n, limit) == 0 && CreatedBelated(ops, n, limit, lo, lo + RATE_WINDOW) == 0
  {
    hide Reopens, Belated;
    if n > 0 {
      NothingLate(ops, n - 1, limit, lo);
    }
  }

  /** An input beyond it: with limit 3, seven creations read the clock from 59 s up to 119 s. */
  lemma RateExceeded()
    ensures var s := NS_PER_SEC;
            var ops := [Request(0), Request(59 * s), Request(59 * s), Request(60 * s), Request(60 * s), Request(60 * s),
                        Request(120 * s), Request(118 * s), Request(118 * s)];
            Created(ops, 9, 3, 59 * s, 59 * s + RATE_WINDOW) == 7
  {
    var s := NS_PER_SEC;
    var ops := [Request(0), Request(59 * s), Request(59 * s), Request(60 * s), Request(60 * s), Request(60 * s),
                Request(120 * s), Request(118 * s), Request(118 * s)];
    var hi := 59 * s + RATE_WINDOW;
    NextAdmitted(ops, 0, 3, RateWindow(0, 1), 59 * s, hi, 0);
    NextAdmitted(ops, 1, 3, RateWindow(0, 2), 59 * s, hi, 0);
    NextAdmitted(ops, 2, 3, RateWindow(0, 3), 59 * s, hi, 1);
    NextAdmitted(ops, 3, 3, RateWindow(60 * s, 1), 59 * s, hi, 2);
    NextAdmitted(ops, 4, 3, RateWindow(60 * s, 2), 59 * s, hi, 3);
    NextAdmitted(ops, 5, 3, RateWindow(60 * s, 3), 59 * s, hi, 4);
    NextAdmitted(ops, 6, 3, RateWindow(120 * s, 1), 59 * s, hi, 5);
    NextAdmitted(ops, 7, 3, RateWindow(120 * s, 2), 59 * s, hi, 5);
    NextAdmitted(ops, 8, 3, RateWindow(120 * s, 3), 59 * s, hi, 6);
  }

  lemma NextAdmitted(ops: seq<RateOp>, m: nat, limit: nat, w: RateWindow, lo: int, hi: int, before: nat)
    requires m < |ops| && ops[m].Request? && Created(ops, m, limit, lo, hi) == before
    requires Admit(WindowAt(ops, m, limit), ops[m].readAt, limit) == (w, true)
    ensures WindowAt(ops, m + 1, limit) == Some(w)
    ensures Created(ops, m + 1, limit, lo, hi) == before + if lo <= ops[m].readAt < hi then 1 else 0
  {
  }

  // ---- who is refused ----

  /** Creations among the first `n` operations since the latest window began. */
  function SinceOpened(ops: seq<RateOp>, n: nat, limit: nat): nat
    requires n <= |ops|
  {
    if n == 0 then 0
    else if ops[n - 1].Request? && Opens(ops, n - 1, limit) then 1
    else SinceOpened(ops, n - 1, limit) + if Admitted(ops, n - 1, limit) then 1 else 0
  }

  /** There is no window, or it began a minute ago or more. */
  predicate Opens(ops: seq<RateOp>, n: nat, limit: nat)
    requires n < |ops|
  {
    WindowAt(ops, n, limit).None? || ops[n].readAt >= WindowAt(ops, n, limit).value.windowStart + RATE_WINDOW
  }

  lemma {:induction false} CountIs(ops: seq<RateOp>, n: nat, limit: nat)
    requires n <= |ops| && limit >= 1
    ensures WindowAt(ops, n, limit).Some? ==> WindowAt(ops, n, limit).value.count == SinceOpened(ops, n, limit)
  {
    if n > 0 {
      CountIs(ops, n - 1, limit);
    }
  }

  /** A request is refused exactly if its window is open and has counted `limit` creations. */
  lemma RefusedIff(ops: seq<RateOp>, n: nat, limit: nat)
    requires n < |ops| && ops[n].Request? && limit >= 1
    ensures !Admitted(ops, n, limit) <==> !Opens(ops, n, limit) && SinceOpened(ops, n, limit) >= limit
  {
    CountIs(ops, n, limit);
  }

  lemma {:induction false} CountedRecently(ops: seq<RateOp>, n: nat, limit: nat, hi: int)
    requires n <= |ops| && InOrder(ops) && limit >= 1 && WindowAt(ops, n, limit).Some?
    requires forall i :: 0 <= i < n ==> ops[i].readAt < hi
    ensures n > 0 && WindowAt(ops, n, limit).value.count <=
            Created(ops, n, limit, WindowAt(ops, n, limit).value.windowStart, hi)
    decreases n
  {
    var m := n - 1;
    OrderlyWindows(ops, m, limit);
    assert m > 0 ==> ops[m - 1].readAt <= ops[m].readAt;
    if ops[m].Request? && Opens(ops, m, limit) {
      assert WindowAt(ops, n, limit).value == RateWindow(ops[m].readAt, 1);
    } else {
      CountedRecently(ops, m, limit, hi);
    }
  }

  /** With requests in order: whoever is refused has created `limit` codes within the last minute. */
  lemma RefusedOnlyAtLimit(ops: seq<RateOp>, n: nat, limit: nat)
    requires n < |ops| && ops[n].Request? && limit >= 1 && InOrder(ops) && !Admitted(ops, n, limit)
    ensures Created(ops, n, limit, ops[n].readAt - RATE_WINDOW + 1, ops[n].readAt + 1) >= limit
  {
    var now := ops[n].readAt;
    var start := WindowAt(ops, n, limit).value.windowStart;
    CountedRecently(ops, n, limit, now + 1);
    CreatedWider(ops, n, limit, now - RATE_WINDOW + 1, start, now + 1);
  }

  lemma {:induction false} CreatedWider(ops: seq<RateOp>, n: nat, limit: nat, lo: int, lo': int, hi: int)
    requires n <= |ops| && lo <= lo'
    ensures Created(ops, n, limit, lo', hi) <= Created(ops, n, limit, lo, hi)
  {
    hide Admitted;
    if n > 0 {
      CreatedWider(ops, n - 1, limit, lo, lo', hi);
    }
  }
}
