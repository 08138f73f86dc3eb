/**
 * The two debounce maps of `src/notification/broadcast.rs`: `check_osc_debounce`, and the same code inside
 * `send_bell`. Instants are nanoseconds of a clock that never goes back.
 */
module Debounce {
  import opened Common

  const NS_PER_MS: nat := 1_000_000
  const NS_PER_SEC: nat := 1_000_000_000
  const RETAIN_SECS: nat := 60

  function Elapsed(now: nat, last: nat): nat {
    if now >= last then now - last else 0
  }

  predicate Duplicate<K>(m: map<K, nat>, key: K, now: nat, debounceMs: nat) {
    key in m && Elapsed(now, m[key]) / NS_PER_MS < debounceMs
  }

  function Retained<K>(m: map<K, nat>, now: nat): map<K, nat> {
    map k | k in m && Elapsed(now, m[k]) / NS_PER_SEC < RETAIN_SECS :: m[k]
  }

  /** One call: the map after it. */
  function Checked<K>(m: map<K, nat>, key: K, now: nat, debounceMs: nat): map<K, nat> {
    if Duplicate(m, key, now, debounceMs) then Retained(m, now) else Retained(m, now)[key := now]
  }

  datatype Call<K> = Call(key: K, now: nat, debounceMs: nat)

  ghost predicate InOrder<K>(calls: seq<Call<K>>) {
    forall i, j :: 0 <= i < j < |calls| ==> calls[i].now <= calls[j].now
  }

  /** The map before call `n`. */
  function MapAt<K>(calls: seq<Call<K>>, n: nat): map<K, nat>
    requires n <= |calls|
  {
    if n == 0 then map[] else Checked(MapAt(calls, n - 1), calls[n - 1].key, calls[n - 1].now, calls[n - 1].debounceMs)
  }

  /** The map a version without the sweep would have before call `n`. */
  function UnsweptAt<K>(calls: seq<Call<K>>, n: nat): map<K, nat>
    requires n <= |calls|
  {
    if n == 0 then map[]
    else
      var m := UnsweptAt(calls, n - 1);
      var c := calls[n - 1];
      if Duplicate(m, c.key, c.now, c.debounceMs) then m else m[c.key := c.now]
  }

  predicate AcceptedAt<K(==)>(calls: seq<Call<K>>, n: nat)
    requires n < |calls|
  {
    !Duplicate(MapAt(calls, n), calls[n].key, calls[n].now, calls[n].debounceMs)
  }

  function LastNow<K>(calls: seq<Call<K>>, n: nat): nat
    requires n <= |calls|
  {
    if n == 0 then 0 else calls[n - 1].now
  }

  /** An entry is missing only once it is at least a minute old. */
  lemma {:induction false} SweepDropsOnlyOld<K(!new)>(calls: seq<Call<K>>, n: nat)
    requires n <= |calls| && InOrder(calls)
    requires forall i :: 0 <= i < n ==> calls[i].debounceMs <= RETAIN_SECS * 1000
    ensures forall k :: k in MapAt(calls, n) ==>
            k in UnsweptAt(calls, n) && UnsweptAt(calls, n)[k] == MapAt(calls, n)[k]
    ensures forall k :: k in UnsweptAt(calls, n) ==> UnsweptAt(calls, n)[k] <= LastNow(calls, n)
    ensures forall k :: k in UnsweptAt(calls, n) && k !in MapAt(calls, n) ==>
              Elapsed(LastNow(calls, n), UnsweptAt(calls, n)[k]) >= RETAIN_SECS * NS_PER_SEC
    decreases n
  {
    if n > 0 {
      SweepDropsOnlyOld(calls, n - 1);
      assert n > 1 ==> calls[n - 2].now <= calls[n - 1].now;
    }
  }

  /** For windows of up to a minute the sweep is invisible: every call is decided as without it. */
  lemma SweepInvisible<K(!new)>(calls: seq<Call<K>>, n: nat)
    requires n < |calls| && InOrder(calls)
    requires forall i :: 0 <= i <= n ==> calls[i].debounceMs <= RETAIN_SECS * 1000
    ensures AcceptedAt(calls, n) <==> !Duplicate(UnsweptAt(calls, n), calls[n].key, calls[n].now, calls[n].debounceMs)
  {
    SweepDropsOnlyOld(calls, n);
    assert n > 0 ==> calls[n - 1].now <= calls[n].now;
  }

  ghost predicate SameVerdict<K>(calls: seq<Call<K>>, n: nat)
    requires n < |calls|
  {
    AcceptedAt(calls, n) <==> !Duplicate(UnsweptAt(calls, n), calls[n].key, calls[n].now, calls[n].debounceMs)
  }

  /** Calls in the order of their instants, all with the same window. */
  ghost predicate WithWindow<K>(calls: seq<Call<K>>, debounceMs: nat) {
    InOrder(calls) && forall i :: 0 <= i < |calls| ==> calls[i].debounceMs == debounceMs
  }

  /** A minute is the exact limit: for longer windows the sweep shows. */
  lemma SweepInvisibleIff<K(!new)>(key: K, debounceMs: nat)
    ensures (forall calls: seq<Call<K>>, n: nat :: n < |calls| && WithWindow(calls, debounceMs) ==>
            SameVerdict(calls, n))
            <==> debounceMs <= RETAIN_SECS * 1000
  {
    if debounceMs <= RETAIN_SECS * 1000 {
      forall calls: seq<Call<K>>, n: nat | n < |calls| && WithWindow(calls, debounceMs)
        ensures SameVerdict(calls, n)
      {
        SweepInvisible(calls, n);
      }
    } else {
      var calls := SweepShows(key, debounceMs);
    }
  }

  /** Three calls with one key, at 0 and twice at 60 s: the sweep lets the third through. */
  lemma SweepShows<K(!new)>(key: K, debounceMs: nat) returns (calls: seq<Call<K>>)
    requires debounceMs > RETAIN_SECS * 1000
    ensures |calls| == 3 && WithWindow(calls, debounceMs) && !SameVerdict(calls, 2)
  {
    var minute := RETAIN_SECS * NS_PER_SEC;
    calls := [Call(key, 0, debounceMs), Call(key, minute, debounceMs), Call(key, minute, debounceMs)];
    assert MapAt(calls, 1) == UnsweptAt(calls, 1) == map[key := 0];
    assert MapAt(calls, 2) == map[] && UnsweptAt(calls, 2) == map[key := 0];
  }

  /** Every accepted call is still in the map, under its own or a later time, or it is at least a minute old. */
  lemma {:induction false} AcceptedRemembered<K(!new)>(calls: seq<Call<K>>, i: nat, n: nat)
    requires i < n <= |calls| && InOrder(calls) && AcceptedAt(calls, i)
    ensures || (calls[i].key in MapAt(calls, n) && calls[i].now <= MapAt(calls, n)[calls[i].key] <= LastNow(calls, n))
            || Elapsed(LastNow(calls, n), calls[i].now) >= RETAIN_SECS * NS_PER_SEC
    decreases n
  {
    if i < n - 1 {
      AcceptedRemembered(calls, i, n - 1);
      assert calls[n - 2].now <= calls[n - 1].now;
    }
  }

  /** Accepted calls with one key are at least the window apart, or a minute if the window is longer. */
  lemma AcceptedAreApart<K(!new)>(calls: seq<Call<K>>, i: nat, j: nat)
    requires i < j < |calls| && InOrder(calls) && calls[i].key == calls[j].key
    requires AcceptedAt(calls, i) && AcceptedAt(calls, j)
    ensures (calls[j].now - calls[i].now) / NS_PER_MS >= Min(calls[j].debounceMs, RETAIN_SECS * 1000)
  {
    AcceptedRemembered(calls, i, j);
    assert calls[j - 1].now <= calls[j].now;
  }

  /** After each call the map holds only keys accepted in the last minute. */
  lemma {:induction false} MapHoldsRecentKeys<K(!new)>(calls: seq<Call<K>>, n: nat, k: K)
    requires 0 < n <= |calls| && InOrder(calls) && k in MapAt(calls, n)
    ensures exists i :: 0 <= i < n && calls[i].key == k && AcceptedAt(calls, i) && MapAt(calls, n)[k] == calls[i].now
                        && (calls[n - 1].now - calls[i].now) / NS_PER_SEC < RETAIN_SECS
    decreases n
  {
    var c := calls[n - 1];
    if k == c.key && AcceptedAt(calls, n - 1) {
      assert MapAt(calls, n)[k] == calls[n - 1].now;
    } else {
      assert k in MapAt(calls, n - 1);
      MapHoldsRecentKeys(calls, n - 1, k);
    }
  }

  /** A call a whole window after every accepted one with its key is accepted, whatever the window. */
  lemma AcceptedAfterWindow<K(!new)>(calls: seq<Call<K>>, n: nat)
    requires n < |calls| && InOrder(calls)
    requires forall i :: 0 <= i < n && calls[i].key == calls[n].key && AcceptedAt(calls, i) ==>
               (calls[n].now - calls[i].now) / NS_PER_MS >= calls[n].debounceMs
    ensures AcceptedAt(calls, n)
  {
    if n > 0 && calls[n].key in MapAt(calls, n) {
      MapHoldsRecentKeys(calls, n, calls[n].key);
    }
  }

  /** For windows of up to a minute: accepted exactly if every accepted call with the key is a whole window ago. */
  lemma AcceptedIff<K(!new)>(calls: seq<Call<K>>, n: nat)
    requires n < |calls| && InOrder(calls) && calls[n].debounceMs <= RETAIN_SECS * 1000
    ensures AcceptedAt(calls, n) <==>
            forall i :: 0 <= i < n && calls[i].key == calls[n].key && AcceptedAt(calls, i) ==>
              (calls[n].now - calls[i].now) / NS_PER_MS >= calls[n].debounceMs
  {
    hide AcceptedAt;
    if AcceptedAt(calls, n) {
      forall i | 0 <= i < n && calls[i].key == calls[n].key && AcceptedAt(calls, i)
        ensures (calls[n].now - calls[i].now) / NS_PER_MS >= calls[n].debounceMs
      {
        AcceptedAreApart(calls, i, n);
      }
    } else if forall i :: 0 <= i < n && calls[i].key == calls[n].key && AcceptedAt(calls, i) ==>
                (calls[n].now - calls[i].now) / NS_PER_MS >= calls[n].debounceMs {
      AcceptedAfterWindow(calls, n);
    }
  }
}
