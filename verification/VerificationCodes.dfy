/**
 * One-time login codes: `src/auth/verification_code.rs`. Instants are nanoseconds of a clock that never
 * goes back.
 */
module VerificationCodes {
  import opened Common

  const NS_PER_SEC: nat := 1_000_000_000
  const MAX_ATTEMPTS: nat := 5
  const RATE_WINDOW: nat := 60 * NS_PER_SEC

  datatype CodeEntry = CodeEntry(code: string, createdAt: nat, attempts: nat, consumed: bool)

  datatype Outcome = Ok | NotFound | Expired | Consumed | TooManyAttempts | Mismatch

  datatype RateWindow = RateWindow(windowStart: nat, count: nat)

  function Since(now: nat, t: nat): nat {
    if now >= t then now - t else 0
  }

  /** The decision of `verify` on an entry. */
  function Decide(entry: CodeEntry, code: string, now: nat, ttl: nat): Outcome {
    if Since(now, entry.createdAt) > ttl then Expired
    else if entry.consumed then Consumed
    else if entry.attempts >= MAX_ATTEMPTS then TooManyAttempts
    else if entry.code == code then Ok
    else if entry.attempts + 1 >= MAX_ATTEMPTS then TooManyAttempts
    else Mismatch
  }

  /** What `verify` does to the entry while it holds it. */
  function Marked(entry: CodeEntry, code: string, now: nat, ttl: nat): CodeEntry {
    if Since(now, entry.createdAt) > ttl || entry.consumed || entry.attempts >= MAX_ATTEMPTS then entry
    else if entry.code == code then entry.(consumed := true)
    else entry.(attempts := entry.attempts + 1)
  }

  /** Whether a request may create a code, and the window afterwards. */
  function Admit(window: Option<RateWindow>, now: nat, limit: nat): (RateWindow, bool) {
    var w := if window.Some? then window.value else RateWindow(now, 0);
    if Since(now, w.windowStart) < RATE_WINDOW then
      if w.count >= limit then (w, false) else (w.(count := w.count + 1), true)
    else (RateWindow(now, 1), true)
  }

  /** What cleanup drops: codes that can only be answered "already used" or "expired". */
  predicate Over(entry: CodeEntry, now: nat, ttl: nat) {
    entry.consumed || Since(now, entry.createdAt) > ttl
  }

  function EntryOf(codes: map<Id, CodeEntry>, id: Id): Option<CodeEntry> {
    if id in codes then Some(codes[id]) else None
  }

  predicate WindowStale(w: RateWindow, now: nat) {
    Since(now, w.windowStart) >= RATE_WINDOW
  }

  class CodeStore {
    var codes: map<Id, CodeEntry>
    var rateMap: map<string, RateWindow>
    var ttl: nat
    var rateLimit: nat

    ghost predicate Valid()
      reads this
    {
      rateLimit >= 1 && forall id :: id in codes ==> codes[id].attempts < MAX_ATTEMPTS
    }

    constructor (ttlSeconds: nat, rateLimitPerMinute: nat)
      ensures Valid() && codes == map[] && rateMap == map[]
      ensures ttl == Max(ttlSeconds, 1) * NS_PER_SEC && rateLimit == Max(rateLimitPerMinute, 1)
    {
      codes, rateMap := map[], map[];
      ttl, rateLimit := Max(ttlSeconds, 1) * NS_PER_SEC, Max(rateLimitPerMinute, 1);
    }

    method Create(ip: string, freshId: Id, freshCode: string, now: nat) returns (created: bool)
      requires Valid()
      modifies this`codes, this`rateMap
      ensures Valid()
      ensures ip in rateMap
      ensures (rateMap[ip], created) ==
              Admit(if ip in old(rateMap) then Some(old(rateMap)[ip]) else None, now, rateLimit)
      ensures rateMap == old(rateMap)[ip := rateMap[ip]]
      ensures codes == if created then old(codes)[freshId := CodeEntry(freshCode, now, 0, false)] else old(codes)
    {
      var window := if ip in rateMap then rateMap[ip] else RateWindow(now, 0);
      if Since(now, window.windowStart) < RATE_WINDOW {
        if window.count >= rateLimit {
          rateMap := rateMap[ip := window];
          return false;
        }
        window := window.(count := window.count + 1);
      } else {
        window := RateWindow(now, 1);
      }
      rateMap := rateMap[ip := window];
      codes := codes[freshId := CodeEntry(freshCode, now, 0, false)];
      created := true;
    }

    /** Without interference: five wrong codes or the TTL end an entry, the right code marks it consumed. */
    method Verify(id: Id, code: string, now: nat) returns (outcome: Outcome)
      requires Valid()
      modifies this`codes
      ensures Valid()
      ensures outcome == if id in old(codes) then Decide(old(codes)[id], code, now, ttl) else NotFound
      ensures codes ==
              if outcome == NotFound then old(codes)
              else if outcome == Expired || outcome == TooManyAttempts then old(codes) - {id}
              else old(codes)[id := Marked(old(codes)[id], code, now, ttl)]
      ensures EntryOf(codes, id) == EntryAfter(EntryOf(old(codes), id), Check(code, now), ttl)
      ensures outcome == Ok <==>
                && id in old(codes) && old(codes)[id].code == code && !old(codes)[id].consumed
                && Since(now, old(codes)[id].createdAt) <= ttl
      ensures outcome == Ok ==> old(codes)[id].code == code && !old(codes)[id].consumed && codes[id].consumed
    {
      if id !in codes {
        return NotFound;
      }
      var entry := codes[id];
      if Since(now, entry.createdAt) > ttl {
        codes := codes - {id};
        return Expired;
      }
      if entry.consumed {
        assert codes[id := entry] == codes;
        return Consumed;
      }
      if entry.code == code {
        codes := codes[id := entry.(consumed := true)];
        return Ok;
      }
      codes := codes[id := entry.(attempts := entry.attempts + 1)];
      if entry.attempts + 1 >= MAX_ATTEMPTS {
        assert codes - {id} == old(codes) - {id};
        codes := codes - {id};
        outcome := TooManyAttempts;
      } else {
        outcome := Mismatch;
      }
    }

    method Cleanup(now: nat)
      requires Valid()
      modifies this`codes, this`rateMap
      ensures Valid()
      ensures codes == map id | id in old(codes) && !Over(old(codes)[id], now, ttl) :: old(codes)[id]
      ensures forall id :: EntryOf(codes, id) == EntryAfter(EntryOf(old(codes), id), Call.Purge(now), ttl)
      ensures rateMap == map ip | ip in old(rateMap) && !WindowStale(old(rateMap)[ip], now) :: old(rateMap)[ip]
    {
      PurgeCodes(now);
      PurgeWindows(now);
    }

    method PurgeCodes(now: nat)
      requires Valid()
      modifies this`codes
      ensures Valid()
      ensures codes == map id | id in old(codes) && !Over(old(codes)[id], now, ttl) :: old(codes)[id]
      ensures forall id :: id in codes <==>
                id in old(codes) && !old(codes)[id].consumed && now <= old(codes)[id].createdAt + ttl
    {
      ghost var before := codes;
      var todo := codes.Keys;
      while todo != {}
        invariant todo <= before.Keys
        invariant codes == map id | id in before && (id in todo || !Over(before[id], now, ttl)) :: before[id]
        decreases |todo|
      {
        var id :| id in todo;
        if codes[id].consumed || Since(now, codes[id].createdAt) > ttl {
          codes := codes - {id};
        }
        todo := todo - {id};
      }
    }

    method PurgeWindows(now: nat)
      modifies this`rateMap
      ensures rateMap == map ip | ip in old(rateMap) && !WindowStale(old(rateMap)[ip], now) :: old(rateMap)[ip]
      ensures forall ip :: ip in rateMap <==> ip in old(rateMap) && now < old(rateMap)[ip].windowStart + RATE_WINDOW
    {
      ghost var before := rateMap;
      var todo := rateMap.Keys;
      while todo != {}
        invariant todo <= before.Keys
        invariant rateMap == map ip | ip in before && (ip in todo || !WindowStale(before[ip], now)) :: before[ip]
        decreases |todo|
      {
        var ip :| ip in todo;
        if Since(now, rateMap[ip].windowStart) >= RATE_WINDOW {
          rateMap := rateMap - {ip};
        }
        todo := todo - {ip};
      }
    }
  }

  // ---- one code over its whole life, each call finishing before the next ----

  /** A call of `verify` with this code, or a cleanup. */
  datatype Call = Check(code: string, now: nat) | Purge(now: nat)

  /** The entry after a call. `Verify` and `Cleanup` are proved to leave this. */
  function EntryAfter(entry: Option<CodeEntry>, call: Call, ttl: nat): Option<CodeEntry> {
    if entry.None? then None
    else
      match call
      case Check(code, now) =>
        if Decide(entry.value, code, now, ttl) in {Expired, TooManyAttempts} then None
        else Some(Marked(entry.value, code, now, ttl))
      case Purge(now) => if Over(entry.value, now, ttl) then None else entry
  }

  function EntryAt(first: CodeEntry, calls: seq<Call>, ttl: nat): Option<CodeEntry> {
    if calls == [] then Some(first)
    else EntryAfter(EntryAt(first, calls[..|calls| - 1], ttl), calls[|calls| - 1], ttl)
  }

  function Answers(first: CodeEntry, calls: seq<Call>, ttl: nat): seq<Outcome> {
    if calls == [] then []
    else
      var init, call := calls[..|calls| - 1], calls[|calls| - 1];
      var entry := EntryAt(first, init, ttl);
      Answers(first, init, ttl)
      + if call.Purge? then [] else [if entry.None? then NotFound else Decide(entry.value, call.code, call.now, ttl)]
  }

  /** Verdicts that end a code. */
  predicate Ends(o: Outcome) {
    o == Expired || o == TooManyAttempts || o == NotFound
  }

  /**
   * When every removal follows its verdict, one verdict ends the code: it is said once, whatever the
   * clock does, and "not found" is all that comes after it.
   */
  lemma {:induction false} EndsOnce(first: CodeEntry, calls: seq<Call>, ttl: nat, i: nat)
    requires i < |Answers(first, calls, ttl)| && Ends(Answers(first, calls, ttl)[i])
    ensures EntryAt(first, calls, ttl).None?
    ensures forall k :: i < k < |Answers(first, calls, ttl)| ==> Answers(first, calls, ttl)[k] == NotFound
    decreases |calls|
  {
    hide Marked;
    var before := Answers(first, calls[..|calls| - 1], ttl);
    if i < |before| {
      EndsOnce(first, calls[..|calls| - 1], ttl, i);
    }
  }

  // ---- one code over its whole life, with removals delayed ----

  /**
   * `verify` reads the clock first, then waits for the entry, decides while it holds the entry, and removes
   * it afterwards. So calls can overtake each other between any two of these. `Remove` is such a removal,
   * `Clean` the cleanup task reaching this entry; it too has read the clock before. Nothing is assumed
   * about the order of the readings.
   */
  datatype Event = Verify(code: string, readAt: nat) | Remove | Clean(readAt: nat)

  /** The entry, and how many removals are still to come. */
  datatype CodeState = CodeState(entry: Option<CodeEntry>, pending: nat)

  function OutcomeOf(s: CodeState, e: Event, ttl: nat): Option<Outcome> {
    if !e.Verify? then None
    else Some(if s.entry.None? then NotFound else Decide(s.entry.value, e.code, e.readAt, ttl))
  }

  predicate Enabled(s: CodeState, e: Event) {
    e.Remove? ==> s.pending > 0
  }

  function Take(s: CodeState, e: Event, ttl: nat): CodeState
    requires Enabled(s, e)
  {
    match e
    case Verify(code, readAt) =>
      if s.entry.None? then s
      else
        var o := Decide(s.entry.value, code, readAt, ttl);
        CodeState(Some(Marked(s.entry.value, code, readAt, ttl)),
                  if o == Expired || o == TooManyAttempts then s.pending + 1 else s.pending)
    case Remove => CodeState(None, s.pending - 1)
    case Clean(readAt) =>
      if s.entry.Some? && Over(s.entry.value, readAt, ttl) then s.(entry := None) else s
  }

  /** The phases of a code's life as an outside observer sees them. */
  datatype Phase = Open(mismatches: nat) | Locked | Used | Dead | Missing

  /** Which outcome may be seen in which phase: the property, as an automaton. */
  function Observe(p: Phase, o: Outcome): Option<Phase> {
    match (p, o)
    case (Open(k), Mismatch) => if k + 1 < MAX_ATTEMPTS then Some(Open(k + 1)) else None
    case (Open(k), TooManyAttempts) => if k + 1 == MAX_ATTEMPTS then Some(Locked) else None
    case (Open(_), Ok) => Some(Used)
    case (Locked, TooManyAttempts) => Some(Locked)
    case (Used, Consumed) => Some(Used)
    case (Open(_), Expired) => Some(Dead)
    case (Locked, Expired) => Some(Dead)
    case (Used, Expired) => Some(Dead)
    case (Dead, Expired) => Some(Dead)
    case (_, NotFound) => Some(Missing)
    case _ => None
  }

  /** The phase and the hidden state fit together. A dead code is one that was called expired and is still there. */
  ghost predicate Fits(p: Phase, s: CodeState, expiredSeen: bool) {
    && (s.entry.Some? ==> (p.Dead? <==> expiredSeen))
    && match p
       case Open(k) =>
         && k < MAX_ATTEMPTS
         && (s.entry.Some? ==> !s.entry.value.consumed && s.entry.value.attempts == k && s.pending == 0)
       case Locked => s.entry.Some? ==> !s.entry.value.consumed && s.entry.value.attempts == MAX_ATTEMPTS
       case Used => s.entry.Some? ==> s.entry.value.consumed
       case Dead => true
       case Missing => s.entry.None?
  }

  /** A call that has read the clock within the TTL, and finds the entry still there. */
  predicate InTime(s: CodeState, e: Event, ttl: nat) {
    e.Verify? && s.entry.Some? && Since(e.readAt, s.entry.value.createdAt) <= ttl
  }

  /** An event leads to what the phase allows, unless such a call comes after another was told "expired". */
  lemma EventFits(p: Phase, s: CodeState, e: Event, ttl: nat, expiredSeen: bool)
    requires Fits(p, s, expiredSeen) && Enabled(s, e)
    ensures var o := OutcomeOf(s, e, ttl);
            var after := Take(s, e, ttl);
            if o.None? then Fits(p, after, expiredSeen)
            else
              && (Observe(p, o.value).Some? <==> !(expiredSeen && InTime(s, e, ttl)))
              && (Observe(p, o.value).Some? ==>
                  Fits(Observe(p, o.value).value, after, expiredSeen || o.value == Expired))
  {
  }

  ghost predicate IsLife(states: seq<CodeState>, events: seq<Event>, ttl: nat) {
    && |states| == |events| + 1
    && states[0].entry.Some? && states[0].entry.value.attempts == 0 && !states[0].entry.value.consumed
        && states[0].pending == 0
    && forall i :: 0 <= i < |events| ==>
        Enabled(states[i], events[i]) && states[i + 1] == Take(states[i], events[i], ttl)
  }

  /** The outcomes seen during the first `n` events. */
  function Outcomes(states: seq<CodeState>, events: seq<Event>, ttl: nat, n: nat): seq<Outcome>
    requires n <= |events| < |states|
  {
    if n == 0 then []
    else
      var o := OutcomeOf(states[n - 1], events[n - 1], ttl);
      Outcomes(states, events, ttl, n - 1) + if o.Some? then [o.value] else []
  }

  function ObserveAll(outcomes: seq<Outcome>): Option<Phase> {
    if outcomes == [] then Some(Open(0))
    else
      match ObserveAll(outcomes[..|outcomes| - 1])
      case None => None
      case Some(p) => Observe(p, outcomes[|outcomes| - 1])
  }

  ghost predicate ExpiredSeen(states: seq<CodeState>, events: seq<Event>, ttl: nat, n: nat)
    requires n <= |events| < |states|
  {
    exists j :: 0 <= j < n && OutcomeOf(states[j], events[j], ttl) == Some(Expired)
  }

  /** Event `i` is a call that read the clock within the TTL but gets the entry after another was told "expired". */
  ghost predicate Overtaken(states: seq<CodeState>, events: seq<Event>, ttl: nat, i: nat)
    requires i < |events| < |states|
  {
    ExpiredSeen(states, events, ttl, i) && InTime(states[i], events[i], ttl)
  }

  /**
   * Over every life of a code, whatever overlaps, the outcomes are: at most four mismatches; then nothing
   * but refusals for too many attempts (the fifth wrong code and later calls), or one success and then
   * "already used"; then "expired"; then "not found". The one exception: a call that was overtaken.
   */
  lemma {:induction false} LifeIsOrderly(states: seq<CodeState>, events: seq<Event>, ttl: nat, n: nat)
    requires IsLife(states, events, ttl) && n <= |events|
    ensures ObserveAll(Outcomes(states, events, ttl, n)).Some?
            <==> forall i :: 0 <= i < n ==> !Overtaken(states, events, ttl, i)
    ensures ObserveAll(Outcomes(states, events, ttl, n)).Some? ==>
              Fits(ObserveAll(Outcomes(states, events, ttl, n)).value, states[n], ExpiredSeen(states, events, ttl, n))
  {
    hide Fits, Observe, Take, OutcomeOf, Overtaken, ExpiredSeen;
    if n == 0 {
      assert Fits(Open(0), states[0], false) by { FreshFits(states[0]); }
      assert !ExpiredSeen(states, events, ttl, 0) by { NothingSeen(states, events, ttl); }
    } else {
      var m := n - 1;
      LifeIsOrderly(states, events, ttl, m);
      var before, all := Outcomes(states, events, ttl, m), Outcomes(states, events, ttl, n);
      SeenNext(states, events, ttl, m);
      if OutcomeOf(states[m], events[m], ttl).Some? {
        assert all[..|all| - 1] == before;
      } else {
        assert all == before;
      }
      if ObserveAll(before).Some? {
        EventFits(ObserveAll(before).value, states[m], events[m], ttl, ExpiredSeen(states, events, ttl, m));
      }
      assert (forall i :: 0 <= i < n ==> !Overtaken(states, events, ttl, i)) <==>
             (forall i :: 0 <= i < m ==> !Overtaken(states, events, ttl, i)) && !Overtaken(states, events, ttl, m);
    }
  }

  lemma NothingSeen(states: seq<CodeState>, events: seq<Event>, ttl: nat)
    requires |events| < |states|
    ensures !ExpiredSeen(states, events, ttl, 0)
  {
  }

  lemma SeenNext(states: seq<CodeState>, events: seq<Event>, ttl: nat, m: nat)
    requires m < |events| < |states|
    ensures ExpiredSeen(states, events, ttl, m + 1) <==>
            ExpiredSeen(states, events, ttl, m) || OutcomeOf(states[m], events[m], ttl) == Some(Expired)
    ensures Overtaken(states, events, ttl, m) <==>
            ExpiredSeen(states, events, ttl, m) && InTime(states[m], events[m], ttl)
    ensures OutcomeOf(states[m], events[m], ttl) == None ==> !InTime(states[m], events[m], ttl)
  {
    hide Decide;
  }

  lemma FreshFits(s: CodeState)
    requires s.entry.Some? && s.entry.value.attempts == 0 && !s.entry.value.consumed && s.pending == 0
    ensures Fits(Open(0), s, false)
  {
  }

  /** A life where it happens: one call reads the clock in time, another is told "expired" first, then it succeeds. */
  lemma OvertakenCallSucceeds(ttl: nat)
    ensures var whole := CodeState(Some(CodeEntry("123456", 0, 0, false)), 0);
            var events := [Verify("123456", ttl + 1), Verify("123456", ttl)];
            var states := [whole, whole.(pending := 1), CodeState(Some(CodeEntry("123456", 0, 0, true)), 1)];
            && IsLife(states, events, ttl)
            && Outcomes(states, events, ttl, 2) == [Expired, Ok]
            && ObserveAll([Expired, Ok]) == None
  {
    var whole := CodeState(Some(CodeEntry("123456", 0, 0, false)), 0);
    var events := [Verify("123456", ttl + 1), Verify("123456", ttl)];
    var states := [whole, whole.(pending := 1), CodeState(Some(CodeEntry("123456", 0, 0, true)), 1)];
    assert Take(states[0], events[0], ttl) == states[1] && Take(states[1], events[1], ttl) == states[2];
    assert OutcomeOf(states[0], events[0], ttl) == Some(Expired) && OutcomeOf(states[1], events[1], ttl) == Some(Ok);
    hide Take, OutcomeOf, Observe, ObserveAll, Outcomes;
    TwoOutcomes(states, events, ttl, Expired, Ok);
    SuccessAfterExpiry();
  }

  lemma TwoOutcomes(states: seq<CodeState>, events: seq<Event>, ttl: nat, a: Outcome, b: Outcome)
    requires |events| == 2 && |states| == 3
    requires OutcomeOf(states[0], events[0], ttl) == Some(a) && OutcomeOf(states[1], events[1], ttl) == Some(b)
    ensures Outcomes(states, events, ttl, 2) == [a, b]
  {
    hide OutcomeOf;
    assert Outcomes(states, events, ttl, 1) == [] + [a];
  }

  lemma SuccessAfterExpiry()
    ensures ObserveAll([Expired, Ok]) == None
  {
    assert [Expired, Ok][..1] == [Expired] && [Expired][..0] == [];
    assert ObserveAll([Expired]) == Some(Dead);
  }

  function Count(outcomes: seq<Outcome>, o: Outcome): nat {
    if outcomes == [] then 0
    else Count(outcomes[..|outcomes| - 1], o) + if outcomes[|outcomes| - 1] == o then 1 else 0
  }

  /** Calls that finish one after the other follow the automaton, whatever the clock does. */
  lemma {:induction false} AnswersAreOrderly(first: CodeEntry, calls: seq<Call>, ttl: nat)
    requires first.attempts == 0 && !first.consumed
    ensures var p := ObserveAll(Answers(first, calls, ttl));
            var entry := EntryAt(first, calls, ttl);
            p.Some? && (entry.Some? ==> AnswersFit(p.value, entry.value))
    decreases |calls|
  {
    hide Decide, EntryAfter, Observe, AnswersFit;
    if calls == [] {
      assert AnswersFit(Open(0), first) by { FirstFits(first); }
    } else {
      var init, call := calls[..|calls| - 1], calls[|calls| - 1];
      AnswersAreOrderly(first, init, ttl);
      var before, all := Answers(first, init, ttl), Answers(first, calls, ttl);
      NextAnswer(ObserveAll(before).value, EntryAt(first, init, ttl), call, ttl);
      if call.Check? {
        assert all[..|all| - 1] == before;
      } else {
        assert all == before;
      }
    }
  }

  lemma FirstFits(first: CodeEntry)
    requires first.attempts == 0 && !first.consumed
    ensures AnswersFit(Open(0), first)
  {
  }

  lemma NextAnswer(p: Phase, entry: Option<CodeEntry>, call: Call, ttl: nat)
    requires entry.Some? ==> AnswersFit(p, entry.value)
    ensures var after := EntryAfter(entry, call, ttl);
            if call.Purge? then after.Some? ==> AnswersFit(p, after.value)
            else
              var o := if entry.None? then NotFound else Decide(entry.value, call.code, call.now, ttl);
              Observe(p, o).Some? && (after.Some? ==> AnswersFit(Observe(p, o).value, after.value))
  {
  }

  predicate AnswersFit(p: Phase, entry: CodeEntry) {
    match p
    case Open(k) => k < MAX_ATTEMPTS && entry.attempts == k && !entry.consumed
    case Used => entry.consumed
    case _ => false
  }

  /** What the automaton allows: one success at most, four mismatches at most, and no success after a lockout. */
  lemma {:induction false} OrderlyMeansOnce(outcomes: seq<Outcome>)
    requires ObserveAll(outcomes).Some?
    ensures Count(outcomes, Ok) <= 1 && Count(outcomes, Mismatch) < MAX_ATTEMPTS
    ensures Count(outcomes, Ok) == 0 || Count(outcomes, TooManyAttempts) == 0
    ensures ObserveAll(outcomes).value.Open? ==>
              (Count(outcomes, Ok) == 0 && Count(outcomes, TooManyAttempts) == 0
               && Count(outcomes, Mismatch) == ObserveAll(outcomes).value.mismatches)
    ensures ObserveAll(outcomes).value.Locked? ==> Count(outcomes, Ok) == 0
    ensures ObserveAll(outcomes).value.Used? ==> Count(outcomes, TooManyAttempts) == 0
  {
    if outcomes != [] {
      OrderlyMeansOnce(outcomes[..|outcomes| - 1]);
    }
  }

  /** What an entry that is still there says about the outcomes so far. */
  ghost predicate Tallied(s: CodeState, outcomes: seq<Outcome>) {
    && Count(outcomes, Ok) <= 1 && Count(outcomes, Mismatch) < MAX_ATTEMPTS
    && (Count(outcomes, Ok) == 0 || Count(outcomes, TooManyAttempts) == 0)
    && (s.entry.Some? ==>
          && s.entry.value.attempts <= MAX_ATTEMPTS
          && (Count(outcomes, Ok) > 0 <==> s.entry.value.consumed)
          && (Count(outcomes, TooManyAttempts) > 0 ==> s.entry.value.attempts == MAX_ATTEMPTS)
          && (s.entry.value.attempts < MAX_ATTEMPTS ==> Count(outcomes, Mismatch) == s.entry.value.attempts))
  }

  /**
   * Over every life of a code, whatever overlaps and in whatever order the clock was read: one success at
   * most, four mismatches at most, and never both a success and a refusal for too many attempts.
   */
  lemma {:induction false} AtMostOneSuccess(states: seq<CodeState>, events: seq<Event>, ttl: nat, n: nat)
    requires IsLife(states, events, ttl) && n <= |events|
    ensures var outcomes := Outcomes(states, events, ttl, n);
            && Count(outcomes, Ok) <= 1 && Count(outcomes, Mismatch) < MAX_ATTEMPTS
            && (Count(outcomes, Ok) == 0 || Count(outcomes, TooManyAttempts) == 0)
    ensures Tallied(states[n], Outcomes(states, events, ttl, n))
  {
    hide Take, OutcomeOf;
    if n > 0 {
      AtMostOneSuccess(states, events, ttl, n - 1);
      NextTally(states[n - 1], events[n - 1], ttl, Outcomes(states, events, ttl, n - 1));
      var all := Outcomes(states, events, ttl, n);
      assert OutcomeOf(states[n - 1], events[n - 1], ttl).None? ==> all == Outcomes(states, events, ttl, n - 1);
    }
  }

  lemma NextTally(s: CodeState, e: Event, ttl: nat, outcomes: seq<Outcome>)
    requires Tallied(s, outcomes) && Enabled(s, e)
    ensures var o := OutcomeOf(s, e, ttl);
            Tallied(Take(s, e, ttl), if o.Some? then outcomes + [o.value] else outcomes)
  {
    var o := OutcomeOf(s, e, ttl);
    if o.Some? {
      CountNext(outcomes, o.value);
    }
  }

  lemma CountNext(outcomes: seq<Outcome>, o: Outcome)
    ensures forall p :: Count(outcomes + [o], p) == Count(outcomes, p) + if p == o then 1 else 0
  {
    assert (outcomes + [o])[..|outcomes|] == outcomes;
  }

  // ---- what each call is told ----

  /** Calls among the first `n` events that were in time and gave another code than the one issued. */
  function WrongBefore(states: seq<CodeState>, events: seq<Event>, ttl: nat, issued: string, n: nat): nat
    requires n <= |events| < |states|
  {
    if n == 0 then 0
    else
      WrongBefore(states, events, ttl, issued, n - 1)
      + if InTime(states[n - 1], events[n - 1], ttl) && events[n - 1].code != issued then 1 else 0
  }

  ghost predicate SucceededBefore(states: seq<CodeState>, events: seq<Event>, ttl: nat, n: nat)
    requires n <= |events| < |states|
  {
    exists j :: 0 <= j < n && OutcomeOf(states[j], events[j], ttl) == Some(Ok)
  }

  /** The entry, if it is still there, is the one issued, and it has counted what came before. */
  ghost predicate Remembers(states: seq<CodeState>, events: seq<Event>, ttl: nat, n: nat)
    requires n <= |events| < |states| && states[0].entry.Some?
  {
    var issued := states[0].entry.value;
    states[n].entry.Some? ==>
      var entry := states[n].entry.value;
      && entry.code == issued.code && entry.createdAt == issued.createdAt
      && (entry.consumed <==> SucceededBefore(states, events, ttl, n))
      && (!entry.consumed ==> entry.attempts == Min(MAX_ATTEMPTS, WrongBefore(states, events, ttl, issued.code, n)))
  }

  lemma {:induction false} RemembersAll(states: seq<CodeState>, events: seq<Event>, ttl: nat, n: nat)
    requires IsLife(states, events, ttl) && n <= |events|
    ensures Remembers(states, events, ttl, n)
  {
    if n == 0 {
      assert !SucceededBefore(states, events, ttl, 0);
    } else {
      hide Remembers, Take, Enabled;
      RemembersAll(states, events, ttl, n - 1);
      RemembersNext(states, events, ttl, n - 1);
    }
  }

  lemma SuccessNext(states: seq<CodeState>, events: seq<Event>, ttl: nat, m: nat)
    requires m < |events| < |states|
    ensures SucceededBefore(states, events, ttl, m + 1) <==>
            SucceededBefore(states, events, ttl, m) || OutcomeOf(states[m], events[m], ttl) == Some(Ok)
  {
    hide OutcomeOf;
  }

  lemma RemembersNext(states: seq<CodeState>, events: seq<Event>, ttl: nat, m: nat)
    requires IsLife(states, events, ttl) && m < |events| && Remembers(states, events, ttl, m)
    ensures Remembers(states, events, ttl, m + 1)
  {
    hide SucceededBefore;
    SuccessNext(states, events, ttl, m);
    assert Enabled(states[m], events[m]) && states[m + 1] == Take(states[m], events[m], ttl);
  }

  /**
   * Over every life, what a call is told that finds the entry still there: "expired" exactly if the code
   * was older than the TTL when the call read the clock; otherwise "already used" exactly after a success;
   * otherwise success exactly for the code issued, as long as fewer than `MAX_ATTEMPTS` calls in time gave
   * another one; and the last of these, and all later ones, are told that they are too many.
   */
  lemma AnswerExact(states: seq<CodeState>, events: seq<Event>, ttl: nat, i: nat)
    requires IsLife(states, events, ttl) && i < |events| && events[i].Verify? && states[i].entry.Some?
    ensures var issued := states[0].entry.value;
            var late := Since(events[i].readAt, issued.createdAt) > ttl;
            var used := SucceededBefore(states, events, ttl, i);
            var wrong := WrongBefore(states, events, ttl, issued.code, i);
            var right := events[i].code == issued.code;
            var outcome := OutcomeOf(states[i], events[i], ttl).value;
            && (outcome == Expired <==> late)
            && (outcome == Consumed <==> !late && used)
            && (outcome == Ok <==> !late && !used && right && wrong < MAX_ATTEMPTS)
            && (outcome == Mismatch <==> !late && !used && !right && wrong + 1 < MAX_ATTEMPTS)
            && (outcome == TooManyAttempts <==>
                !late && !used && (wrong >= MAX_ATTEMPTS || (!right && wrong + 1 == MAX_ATTEMPTS)))
  {
    LifeBegins(states, events, ttl);
    hide SucceededBefore, IsLife;
    RemembersAll(states, events, ttl, i);
  }

  lemma LifeBegins(states: seq<CodeState>, events: seq<Event>, ttl: nat)
    requires IsLife(states, events, ttl)
    ensures |states| == |events| + 1 && states[0].entry.Some?
  {
  }

  /** A reason for the entry to go: a verdict that ends it, or cleanup after a success or past the TTL. */
  ghost predicate EndsEntry(states: seq<CodeState>, events: seq<Event>, ttl: nat, j: nat)
    requires j < |events| < |states| && states[0].entry.Some?
  {
    || OutcomeOf(states[j], events[j], ttl) in {Some(Expired), Some(TooManyAttempts)}
    || (events[j].Clean?
        && (SucceededBefore(states, events, ttl, j) || Since(events[j].readAt, states[0].entry.value.createdAt) > ttl))
  }

  lemma {:induction false} GoneOnlyIf(states: seq<CodeState>, events: seq<Event>, ttl: nat, n: nat)
    requires IsLife(states, events, ttl) && n <= |events| && (states[n].entry.None? || states[n].pending > 0)
    ensures exists j :: 0 <= j < n && EndsEntry(states, events, ttl, j)
  {
    LifeBegins(states, events, ttl);
    hide SucceededBefore, IsLife, EndsEntry;
    var m := n - 1;
    StepOfLife(states, events, ttl, n);
    if states[m].entry.None? || states[m].pending > 0 {
      GoneOnlyIf(states, events, ttl, m);
      var j :| 0 <= j < m && EndsEntry(states, events, ttl, j);
      assert EndsEntry(states, events, ttl, j);
    } else {
      RemembersAll(states, events, ttl, m);
      assert EndsEntry(states, events, ttl, m) by { EndsNow(states, events, ttl, m); }
    }
  }

  lemma StepOfLife(states: seq<CodeState>, events: seq<Event>, ttl: nat, n: nat)
    requires IsLife(states, events, ttl) && n <= |events| && (states[n].entry.None? || states[n].pending > 0)
    ensures n > 0 && Enabled(states[n - 1], events[n - 1])
    ensures states[n] == Take(states[n - 1], events[n - 1], ttl)
  {
    if n > 0 {
      var m := n - 1;
      assert Enabled(states[m], events[m]) && states[m + 1] == Take(states[m], events[m], ttl);
    }
  }

  lemma EndsNow(states: seq<CodeState>, events: seq<Event>, ttl: nat, m: nat)
    requires m < |events| < |states| && states[0].entry.Some? && Remembers(states, events, ttl, m)
    requires states[m].entry.Some? && states[m].pending == 0 && Enabled(states[m], events[m])
    requires var after := Take(states[m], events[m], ttl); after.entry.None? || after.pending > 0
    ensures EndsEntry(states, events, ttl, m)
  {
    hide SucceededBefore;
  }

  lemma {:induction false} WrongGrows(
    states: seq<CodeState>, events: seq<Event>, ttl: nat, issued: string, m: nat, n: nat)
    requires m <= n <= |events| < |states|
    ensures WrongBefore(states, events, ttl, issued, m) <= WrongBefore(states, events, ttl, issued, n)
    decreases n
  {
    if m < n {
      WrongGrows(states, events, ttl, issued, m, n - 1);
    }
  }

  /**
   * The right code is accepted: by the first call with it, if fewer than `MAX_ATTEMPTS` calls gave another
   * one before, and no reading of the clock so far was past the TTL.
   */
  lemma RightCodeSucceeds(states: seq<CodeState>, events: seq<Event>, ttl: nat, i: nat)
    requires IsLife(states, events, ttl) && i < |events| && events[i].Verify?
    requires events[i].code == states[0].entry.value.code
    requires !SucceededBefore(states, events, ttl, i)
    requires WrongBefore(states, events, ttl, states[0].entry.value.code, i) < MAX_ATTEMPTS
    requires forall j :: 0 <= j <= i && !events[j].Remove? ==>
               Since(events[j].readAt, states[0].entry.value.createdAt) <= ttl
    ensures OutcomeOf(states[i], events[i], ttl) == Some(Ok)
  {
    LifeBegins(states, events, ttl);
    hide IsLife, OutcomeOf, SucceededBefore;
    if states[i].entry.None? {
      GoneOnlyIf(states, events, ttl, i);
      var j :| 0 <= j < i && EndsEntry(states, events, ttl, j);
      EndingIsCounted(states, events, ttl, i, j);
    }
    assert states[i].entry.Some? ==> OutcomeOf(states[i], events[i], ttl) == Some(Ok) by {
      if states[i].entry.Some? {
        AnswerExact(states, events, ttl, i);
        assert OutcomeOf(states[i], events[i], ttl).Some? by { CallIsAnswered(states[i], events[i], ttl); }
      }
    }
  }

  lemma CallIsAnswered(s: CodeState, e: Event, ttl: nat)
    requires e.Verify?
    ensures OutcomeOf(s, e, ttl).Some?
  {
  }

  /** With every reading in time, an entry goes only after a success or after too many wrong codes. */
  lemma EndingIsCounted(states: seq<CodeState>, events: seq<Event>, ttl: nat, i: nat, j: nat)
    requires IsLife(states, events, ttl) && j < i < |events| && states[0].entry.Some?
             && EndsEntry(states, events, ttl, j)
    requires !events[j].Remove? ==> Since(events[j].readAt, states[0].entry.value.createdAt) <= ttl
    ensures SucceededBefore(states, events, ttl, i)
            || WrongBefore(states, events, ttl, states[0].entry.value.code, i) >= MAX_ATTEMPTS
  {
    LifeBegins(states, events, ttl);
    hide IsLife;
    var code := states[0].entry.value.code;
    if events[j].Clean? {
      var k :| 0 <= k < j && OutcomeOf(states[k], events[k], ttl) == Some(Ok);
    } else {
      assert states[j].entry.Some?;
      RemembersAll(states, events, ttl, j);
      hide OutcomeOf;
      AnswerExact(states, events, ttl, j);
      WrongGrows(states, events, ttl, code, j, i);
      WrongGrows(states, events, ttl, code, j + 1, i);
    }
  }
}
