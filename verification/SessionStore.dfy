/**
 * Login sessions: `src/auth/session.rs`. Instants are nanoseconds of a clock that never goes back.
 *
 * `validate` touches the shared map several times and holds no lock in between. The map operations are
 * given as steps; the class runs them in sequence, `SessionInterleaving` in any order.
 */
module SessionStore {
  import opened Common

  const NS_PER_SEC: nat := 1_000_000_000
  const DEFAULT_SESSION_TTL_DAYS: nat := 7
  const SECS_PER_DAY: nat := 86_400
  const LAST_USED_WRITE_THROTTLE: nat := 60 * NS_PER_SEC

  datatype Entry = Entry(createdAt: nat, lastUsed: nat)

  type Sessions = map<Id, Entry>

  function Elapsed(now: nat, t: nat): nat {
    if now >= t then now - t else 0
  }

  function TtlFromDays(days: nat): nat {
    (if days == 0 then DEFAULT_SESSION_TTL_DAYS else days) * SECS_PER_DAY
  }

  function CurrentTtl(ttlSecs: nat): nat {
    (if ttlSecs == 0 then DEFAULT_SESSION_TTL_DAYS * SECS_PER_DAY else ttlSecs) * NS_PER_SEC
  }

  /** What the first lookup of `validate` decides. */
  datatype Looked = Unknown | Stale | Fresh | NeedsWrite

  function Look(m: Sessions, id: Id, now: nat, ttl: nat, throttle: nat): Looked {
    if id !in m then Unknown
    else if Elapsed(now, m[id].lastUsed) > ttl then Stale
    else if Elapsed(now, m[id].lastUsed) < throttle then Fresh
    else NeedsWrite
  }

  /** What the write section, which holds the entry, decides. */
  datatype Wrote = Gone | TooLate | Refreshed

  function Decide(m: Sessions, id: Id, now: nat, ttl: nat): Wrote {
    if id !in m then Gone else if Elapsed(now, m[id].lastUsed) > ttl then TooLate else Refreshed
  }

  function Write(m: Sessions, id: Id, checkedAt: nat, stampedAt: nat, ttl: nat): Sessions {
    if Decide(m, id, checkedAt, ttl) == Refreshed then m[id := m[id].(lastUsed := stampedAt)] else m
  }

  function Alive(m: Sessions, now: nat, ttl: nat): Sessions {
    map id | id in m && Elapsed(now, m[id].lastUsed) <= ttl :: m[id]
  }

  /** `validate` without interference, at one time. */
  function Validated(m: Sessions, id: Id, now: nat, ttl: nat, throttle: nat): (Sessions, bool) {
    match Look(m, id, now, ttl, throttle)
    case Unknown => (m, false)
    case Stale => (m - {id}, false)
    case Fresh => (m, true)
    case NeedsWrite => (m[id := m[id].(lastUsed := now)], true)
  }

  class SessionStore {
    var sessions: Sessions
    var ttlSecs: nat
    const throttle: nat

    constructor (initialTtlDays: nat)
      ensures sessions == map[] && ttlSecs == TtlFromDays(initialTtlDays) && throttle == LAST_USED_WRITE_THROTTLE
      ensures throttle < CurrentTtl(ttlSecs)
    {
      sessions, ttlSecs, throttle := map[], TtlFromDays(initialTtlDays), LAST_USED_WRITE_THROTTLE;
    }

    constructor WithThrottle(ttlSecs: nat, throttle: nat)
      ensures sessions == map[] && this.ttlSecs == ttlSecs && this.throttle == throttle
    {
      sessions, this.ttlSecs, this.throttle := map[], ttlSecs, throttle;
    }

    method UpdateTtlDays(days: nat)
      modifies this`ttlSecs
      ensures ttlSecs == TtlFromDays(days)
      ensures CurrentTtl(ttlSecs) == (if days == 0 then DEFAULT_SESSION_TTL_DAYS else days) * SECS_PER_DAY * NS_PER_SEC
    {
      ttlSecs := TtlFromDays(days);
    }

    method Create(freshId: Id, now: nat)
      modifies this`sessions
      ensures sessions == old(sessions)[freshId := Entry(now, now)]
    {
      sessions := sessions[freshId := Entry(now, now)];
    }

    /** `t1`, `t2`, `t3` are the three readings of the clock. */
    method Validate(id: Id, t1: nat, t2: nat, t3: nat) returns (accepted: bool)
      requires t1 <= t2 <= t3
      modifies this`sessions
      ensures accepted <==>
                var ttl := CurrentTtl(ttlSecs);
                id in old(sessions)
                && Elapsed(t1, old(sessions)[id].lastUsed) <= ttl
                && (Elapsed(t1, old(sessions)[id].lastUsed) < throttle
                    || Elapsed(t2, old(sessions)[id].lastUsed) <= ttl)
      ensures accepted ==>
                sessions == old(sessions)
                || (Elapsed(t1, old(sessions)[id].lastUsed) >= throttle
                    && sessions == old(sessions)[id := old(sessions)[id].(lastUsed := t3)])
      ensures !accepted ==> sessions == old(sessions) - {id}
      ensures t1 == t2 == t3 ==> (sessions, accepted) == Validated(old(sessions), id, t1, CurrentTtl(ttlSecs), throttle)
    {
      var ttl := CurrentTtl(ttlSecs);
      if id !in sessions {
        assert sessions - {id} == sessions;
        return false;
      }
      var elapsed := Elapsed(t1, sessions[id].lastUsed);
      if elapsed > ttl {
        sessions := sessions - {id};
        return false;
      }
      if elapsed < throttle {
        return true;
      }
      if Elapsed(t2, sessions[id].lastUsed) > ttl {
        sessions := sessions - {id};
        return false;
      }
      sessions := sessions[id := sessions[id].(lastUsed := t3)];
      accepted := true;
    }

    method Revoke(id: Id) returns (found: bool)
      modifies this`sessions
      ensures found <==> id in old(sessions)
      ensures sessions == old(sessions) - {id}
    {
      found := id in sessions;
      sessions := sessions - {id};
    }

    method RevokeAllExcept(keep: Id)
      modifies this`sessions
      ensures sessions == map id | id in old(sessions) && id == keep :: old(sessions)[id]
    {
      ghost var before := sessions;
      var todo := sessions.Keys;
      while todo != {}
        invariant todo <= before.Keys
        invariant sessions == map id | id in before && (id in todo || id == keep) :: before[id]
        decreases |todo|
      {
        var id :| id in todo;
        if id != keep {
          sessions := sessions - {id};
        }
        todo := todo - {id};
      }
    }

    /** Lists exactly the sessions that `validate` would accept at this moment. */
    method List(now: nat) returns (listed: Sessions)
      ensures listed == Alive(sessions, now, CurrentTtl(ttlSecs))
      ensures forall id :: id in listed <==> Validated(sessions, id, now, CurrentTtl(ttlSecs), throttle).1
    {
      var ttl := CurrentTtl(ttlSecs);
      listed := map[];
      var todo := sessions.Keys;
      while todo != {}
        invariant todo <= sessions.Keys
        invariant listed == map id | id in sessions && id !in todo && Elapsed(now, sessions[id].lastUsed) <= ttl
                                :: sessions[id]
        decreases |todo|
      {
        var id :| id in todo;
        if Elapsed(now, sessions[id].lastUsed) <= ttl {
          listed := listed[id := sessions[id]];
        }
        todo := todo - {id};
      }
    }

    /** Keeps exactly the live sessions, so `validate` answers for every id as it would have without. */
    method Cleanup(now: nat)
      modifies this`sessions
      ensures sessions == Alive(old(sessions), now, CurrentTtl(ttlSecs))
      ensures forall id :: Validated(sessions, id, now, CurrentTtl(ttlSecs), throttle).1
                           == Validated(old(sessions), id, now, CurrentTtl(ttlSecs), throttle).1
    {
      ghost var before := sessions;
      var ttl := CurrentTtl(ttlSecs);
      var todo := sessions.Keys;
      while todo != {}
        invariant todo <= before.Keys
        invariant sessions == map id | id in before && (id in todo || Elapsed(now, before[id].lastUsed) <= ttl)
                                  :: before[id]
        decreases |todo|
      {
        var id :| id in todo;
        if Elapsed(now, sessions[id].lastUsed) > ttl {
          sessions := sessions - {id};
        }
        todo := todo - {id};
      }
    }
  }

  // ---- cleanup does not show ----

  datatype Op =
    | DoCreate(id: Id, now: nat)
    | DoValidate(id: Id, now: nat)
    | DoRevoke(id: Id, now: nat)
    | DoRevokeAllExcept(id: Id, now: nat)
    | DoList(now: nat)
    | DoCleanup(now: nat)

  datatype Seen = Nothing | Answer(accepted: bool) | Found(found: bool) | Listed(sessions: Sessions)

  function After(m: Sessions, op: Op, ttl: nat, throttle: nat): Sessions {
    match op
    case DoCreate(id, now) => m[id := Entry(now, now)]
    case DoValidate(id, now) => Validated(m, id, now, ttl, throttle).0
    case DoRevoke(id, _) => m - {id}
    case DoRevokeAllExcept(keep, _) => map id | id in m && id == keep :: m[id]
    case DoList(_) => m
    case DoCleanup(now) => Alive(m, now, ttl)
  }

  function See(m: Sessions, op: Op, ttl: nat, throttle: nat): Seen {
    match op
    case DoValidate(id, now) => Answer(Validated(m, id, now, ttl, throttle).1)
    case DoRevoke(id, _) => Found(id in m)
    case DoList(now) => Listed(Alive(m, now, ttl))
    case _ => Nothing
  }

  function Run(ops: seq<Op>, ttl: nat, throttle: nat): Sessions {
    if ops == [] then map[] else After(Run(ops[..|ops| - 1], ttl, throttle), ops[|ops| - 1], ttl, throttle)
  }

  /** The same run in a store that is never cleaned. */
  function RunUncleaned(ops: seq<Op>, ttl: nat, throttle: nat): Sessions {
    if ops == [] then map[]
    else
      var m := RunUncleaned(ops[..|ops| - 1], ttl, throttle);
      if ops[|ops| - 1].DoCleanup? then m else After(m, ops[|ops| - 1], ttl, throttle)
  }

  ghost predicate InOrder(ops: seq<Op>) {
    forall i, j :: 0 <= i < j < |ops| ==> ops[i].now <= ops[j].now
  }

  function LastTime(ops: seq<Op>): nat {
    if ops == [] then 0 else ops[|ops| - 1].now
  }

  /** `c` is `u` without some sessions that have expired. */
  ghost predicate LacksOnlyExpired(c: Sessions, u: Sessions, now: nat, ttl: nat) {
    && (forall id :: id in c ==> id in u && u[id] == c[id])
    && (forall id :: id in u && id !in c ==> Elapsed(now, u[id].lastUsed) > ttl)
  }

  lemma StepLacksOnlyExpired(c: Sessions, u: Sessions, last: nat, op: Op, ttl: nat, throttle: nat)
    requires LacksOnlyExpired(c, u, last, ttl) && last <= op.now
    ensures var u' := if op.DoCleanup? then u else After(u, op, ttl, throttle);
            LacksOnlyExpired(After(c, op, ttl, throttle), u', op.now, ttl)
  {
    if op.DoValidate? {
      assert LacksOnlyExpired(c, u, op.now, ttl);
      assert op.id in u && op.id !in c ==> Look(u, op.id, op.now, ttl, throttle) == Stale;
      assert op.id in c ==> Look(u, op.id, op.now, ttl, throttle) == Look(c, op.id, op.now, ttl, throttle);
    }
  }

  /** The cleaned store lacks only sessions that have expired. */
  lemma {:induction false} CleanedLacksOnlyExpired(ops: seq<Op>, ttl: nat, throttle: nat)
    requires InOrder(ops)
    ensures LacksOnlyExpired(Run(ops, ttl, throttle), RunUncleaned(ops, ttl, throttle), LastTime(ops), ttl)
    decreases |ops|
  {
    hide LacksOnlyExpired, After;
    if ops == [] {
      assert LacksOnlyExpired(map[], map[], 0, ttl) by { LacksNothing(ttl); }
    } else {
      var init := ops[..|ops| - 1];
      CleanedLacksOnlyExpired(init, ttl, throttle);
      assert init != [] ==> init[|init| - 1].now <= ops[|ops| - 1].now;
      StepLacksOnlyExpired(Run(init, ttl, throttle), RunUncleaned(init, ttl, throttle), LastTime(init),
          ops[|ops| - 1], ttl, throttle);
    }
  }

  lemma LacksNothing(ttl: nat)
    ensures LacksOnlyExpired(map[], map[], 0, ttl)
  {
  }

  /**
   * Cleanup has taken a session that would otherwise still be there: it ran more than the TTL after the
   * last recorded use.
   */
  ghost predicate CleanedUp(ops: seq<Op>, id: Id, ttl: nat, throttle: nat) {
    && id in RunUncleaned(ops, ttl, throttle)
    && exists j :: 0 <= j < |ops| && CleanupLater(ops[j], RunUncleaned(ops, ttl, throttle)[id].lastUsed, ttl)
  }

  predicate CleanupLater(op: Op, lastUsed: nat, ttl: nat) {
    op.DoCleanup? && Elapsed(op.now, lastUsed) > ttl
  }

  lemma {:induction false} CleanedUpIff(ops: seq<Op>, id: Id, ttl: nat, throttle: nat)
    requires InOrder(ops)
    ensures CleanedUp(ops, id, ttl, throttle) <==>
            id in RunUncleaned(ops, ttl, throttle) && id !in Run(ops, ttl, throttle)
    decreases |ops|
  {
    if ops != [] {
      hide CleanedUp;
      var init := ops[..|ops| - 1];
      CleanedUpIff(init, id, ttl, throttle);
      CleanedLacksOnlyExpired(init, ttl, throttle);
      assert init != [] ==> init[|init| - 1].now <= ops[|ops| - 1].now;
      CleanedUpStep(ops, id, ttl, throttle);
    }
  }

  lemma CleanedUpStep(ops: seq<Op>, id: Id, ttl: nat, throttle: nat)
    requires ops != [] && InOrder(ops)
    requires var init := ops[..|ops| - 1];
             && LacksOnlyExpired(Run(init, ttl, throttle), RunUncleaned(init, ttl, throttle), LastTime(init), ttl)
             && LastTime(init) <= ops[|ops| - 1].now
             && (CleanedUp(init, id, ttl, throttle) <==>
                 id in RunUncleaned(init, ttl, throttle) && id !in Run(init, ttl, throttle))
    ensures CleanedUp(ops, id, ttl, throttle) <==>
            id in RunUncleaned(ops, ttl, throttle) && id !in Run(ops, ttl, throttle)
  {
    hide InOrder;
    var init, op := ops[..|ops| - 1], ops[|ops| - 1];
    var u, u' := RunUncleaned(init, ttl, throttle), RunUncleaned(ops, ttl, throttle);
    if id in u' {
      if id in u && u'[id].lastUsed == u[id].lastUsed {
        assert ops == init + [op];
        CleanupsSoFar(init, op, u[id].lastUsed, ttl);
      } else {
        assert u'[id].lastUsed == op.now && !op.DoCleanup? && id in Run(ops, ttl, throttle);
        NoCleanupSince(ops, op.now, ttl);
      }
    }
  }

  lemma CleanupsSoFar(init: seq<Op>, op: Op, lastUsed: nat, ttl: nat)
    ensures (exists j :: 0 <= j < |init + [op]| && CleanupLater((init + [op])[j], lastUsed, ttl)) <==>
            (exists j :: 0 <= j < |init| && CleanupLater(init[j], lastUsed, ttl)) || CleanupLater(op, lastUsed, ttl)
  {
    hide CleanupLater;
    var ops := init + [op];
    assert ops[|init|] == op;
    assert forall j :: 0 <= j < |init| ==> ops[j] == init[j];
  }

  lemma NoCleanupSince(ops: seq<Op>, lastUsed: nat, ttl: nat)
    requires InOrder(ops) && ops != [] && ops[|ops| - 1].now <= lastUsed
    ensures !exists j :: 0 <= j < |ops| && CleanupLater(ops[j], lastUsed, ttl)
  {
  }

  /**
   * Cleanup is invisible to `validate` and `list`. It shows in one place: `revoke` of a session that
   * would still be there, but for a cleanup that ran more than the TTL after its last recorded use.
   */
  lemma CleanupUnobservable(ops: seq<Op>, op: Op, ttl: nat, throttle: nat)
    requires InOrder(ops + [op])
    ensures See(Run(ops, ttl, throttle), op, ttl, throttle) == See(RunUncleaned(ops, ttl, throttle), op, ttl, throttle)
            <==> !(op.DoRevoke? && CleanedUp(ops, op.id, ttl, throttle))
  {
    hide CleanedUp;
    assert forall i :: 0 <= i < |ops| ==> (ops + [op])[i] == ops[i];
    assert (ops + [op])[|ops|] == op;
    CleanedLacksOnlyExpired(ops, ttl, throttle);
    assert ops != [] ==> ops[|ops| - 1].now <= op.now;
    if op.DoRevoke? {
      CleanedUpIff(ops, op.id, ttl, throttle);
    }
  }

  /** An input where it shows. */
  lemma RevokeSeesCleanup(ttl: nat, throttle: nat)
    ensures var ops := [DoCreate("a", 0), DoCleanup(ttl + 1)];
            && InOrder(ops + [DoRevoke("a", ttl + 1)])
            && See(Run(ops, ttl, throttle), DoRevoke("a", ttl + 1), ttl, throttle) == Found(false)
            && See(RunUncleaned(ops, ttl, throttle), DoRevoke("a", ttl + 1), ttl, throttle) == Found(true)
  {
    var ops := [DoCreate("a", 0), DoCleanup(ttl + 1)];
    assert ops[..1] == [DoCreate("a", 0)] && ops[..1][..0] == [];
  }

  // ---- what creating and revoking mean for later calls ----

  predicate Revokes(op: Op, id: Id) {
    (op.DoRevoke? && op.id == id) || (op.DoRevokeAllExcept? && op.id != id)
  }

  lemma {:induction false} CreatedRemains(ops: seq<Op>, i: nat, id: Id, ttl: nat, throttle: nat)
    requires InOrder(ops) && i < |ops| && ops[i].DoCreate? && ops[i].id == id
    requires forall j :: i < j < |ops| ==> !Revokes(ops[j], id)
    requires Elapsed(LastTime(ops), ops[i].now) <= ttl
    ensures var m := Run(ops, ttl, throttle); id in m && ops[i].now <= m[id].lastUsed <= LastTime(ops)
    decreases |ops|
  {
    var init, op := ops[..|ops| - 1], ops[|ops| - 1];
    if i < |init| {
      assert ops[i].now <= init[|init| - 1].now <= op.now;
      CreatedRemains(init, i, id, ttl, throttle);
      assert !Revokes(op, id);
    }
  }

  /** A session that nobody revokes is accepted until the TTL after its creation, whatever else goes on. */
  lemma CreatedIsAccepted(ops: seq<Op>, i: nat, id: Id, now: nat, ttl: nat, throttle: nat)
    requires InOrder(ops + [DoValidate(id, now)]) && i < |ops| && ops[i].DoCreate? && ops[i].id == id
    requires forall j :: i < j < |ops| ==> !Revokes(ops[j], id)
    requires now <= ops[i].now + ttl
    ensures Validated(Run(ops, ttl, throttle), id, now, ttl, throttle).1
  {
    var all := ops + [DoValidate(id, now)];
    assert forall j :: 0 <= j < |ops| ==> all[j] == ops[j];
    assert all[|ops|].now == now;
    assert ops[i].now <= LastTime(ops) <= now;
    CreatedRemains(ops, i, id, ttl, throttle);
  }

  /** A revoked session stays away, from `validate`, `list` and `revoke`, until its id is issued again. */
  lemma {:induction false} RevokedIsGone(ops: seq<Op>, i: nat, id: Id, now: nat, ttl: nat, throttle: nat)
    requires i < |ops| && Revokes(ops[i], id)
    requires forall j :: i < j < |ops| ==> !(ops[j].DoCreate? && ops[j].id == id)
    ensures var m := Run(ops, ttl, throttle);
            !Validated(m, id, now, ttl, throttle).1 && id !in Alive(m, now, ttl) && id !in m
    decreases |ops|
  {
    if i < |ops| - 1 {
      RevokedIsGone(ops[..|ops| - 1], i, id, now, ttl, throttle);
    }
  }
}
