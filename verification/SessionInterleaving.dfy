/**
 * `validate` of `src/auth/session.rs` split into the steps in which it touches the shared map, interleaved
 * in any order with revocation, cleanup and other calls of `validate`. The TTL is fixed.
 *
 * The clock is read while the session's entry is held, except by cleanup. So the readings for one session
 * come in order; nothing is assumed about the readings for different sessions.
 */
module SessionInterleaving {
  import opened Common
  import opened SessionStore

  datatype Pc =
    | Idle
    | Removing(id: Id)   // found the session expired, about to remove it
    | Writing(id: Id)    // found the session in need of a refresh, about to take the write lock

  /**
   * `clock` is the latest reading for each session. `lastAccepted` is the touch-every-time store the
   * throttled one is compared with: the time of the last accepted use. `removed` and `issued` are the ids
   * ever removed and ever issued.
   */
  datatype State = State(
    clock: map<Id, nat>, sessions: Sessions, threads: map<nat, Pc>,
    lastAccepted: map<Id, nat>, removed: set<Id>, issued: set<Id>)

  datatype Step =
    | Create(id: Id, now: nat)
    | LookUp(thread: nat, id: Id, now: nat)
    | Remove(thread: nat)
    | WriteBack(thread: nat, now: nat, stampedAt: nat)
    | Revoke(id: Id)
    | RevokeAllExcept(id: Id)
    | CleanOne(id: Id, readAt: nat)   // cleanup read the clock at `readAt`, maybe long ago, and has come to `id`

  const INITIAL := State(map[], map[], map[], map[], {}, {})

  function PcOf(s: State, thread: nat): Pc {
    if thread in s.threads then s.threads[thread] else Idle
  }

  function ClockOf(s: State, id: Id): nat {
    if id in s.clock then s.clock[id] else 0
  }

  predicate Enabled(s: State, step: Step) {
    match step
    case Create(id, now) => id !in s.issued && ClockOf(s, id) <= now
    case LookUp(thread, id, now) => PcOf(s, thread) == Idle && ClockOf(s, id) <= now
    case Remove(thread) => PcOf(s, thread).Removing?
    case WriteBack(thread, now, stampedAt) =>
      PcOf(s, thread).Writing? && ClockOf(s, PcOf(s, thread).id) <= now <= stampedAt
    case _ => true
  }

  /** What `validate` answers if the step ends it. */
  function AnswerOf(s: State, step: Step, ttl: nat, throttle: nat): Option<bool> {
    match step
    case LookUp(_, id, now) =>
      (match Look(s.sessions, id, now, ttl, throttle)
       case Unknown => Some(false)
       case Fresh => Some(true)
       case _ => None)
    case Remove(_) => Some(false)
    case WriteBack(thread, now, _) =>
      if PcOf(s, thread).Writing? then
        (match Decide(s.sessions, PcOf(s, thread).id, now, ttl)
         case Gone => Some(false)
         case TooLate => None
         case Refreshed => Some(true))
      else None
    case _ => None
  }

  function Drop(s: State, id: Id): State {
    s.(sessions := s.sessions - {id}, removed := if id in s.sessions then s.removed + {id} else s.removed)
  }

  function At(s: State, id: Id, now: nat): State {
    s.(clock := s.clock[id := Max(ClockOf(s, id), now)])
  }

  function Take(s: State, step: Step, ttl: nat, throttle: nat): State
    requires Enabled(s, step)
  {
    match step
    case Create(id, now) =>
      At(s, id, now).(sessions := s.sessions[id := Entry(now, now)], lastAccepted := s.lastAccepted[id := now],
                      issued := s.issued + {id})
    case LookUp(thread, id, now) =>
      (match Look(s.sessions, id, now, ttl, throttle)
       case Unknown => s
       case Stale => At(s, id, now).(threads := s.threads[thread := Removing(id)])
       case Fresh => At(s, id, now).(lastAccepted := s.lastAccepted[id := now])
       case NeedsWrite => At(s, id, now).(threads := s.threads[thread := Writing(id)]))
    case Remove(thread) =>
      Drop(s, PcOf(s, thread).id).(threads := s.threads[thread := Idle])
    case WriteBack(thread, now, stampedAt) =>
      var id := PcOf(s, thread).id;
      (match Decide(s.sessions, id, now, ttl)
       case Gone => s.(threads := s.threads[thread := Idle])
       case TooLate => At(s, id, now).(threads := s.threads[thread := Removing(id)])
       case Refreshed =>
         At(s, id, stampedAt).(
           threads := s.threads[thread := Idle],
           sessions := Write(s.sessions, id, now, stampedAt, ttl), lastAccepted := s.lastAccepted[id := stampedAt]))
    case Revoke(id) => Drop(s, id)
    case RevokeAllExcept(keep) =>
      s.(sessions := map id | id in s.sessions && id == keep :: s.sessions[id],
         removed := s.removed + (s.sessions.Keys - {keep}))
    case CleanOne(id, readAt) =>
      var s' := At(s, id, readAt);
      if id in s.sessions && Elapsed(readAt, s.sessions[id].lastUsed) > ttl then Drop(s', id) else s'
  }

  /** How far the stored time may lag behind the last accepted use: less than the throttle. */
  predicate LagOk(s: State, id: Id, throttle: nat)
    requires id in s.sessions
  {
    && id in s.lastAccepted
    && s.sessions[id].lastUsed <= s.lastAccepted[id] <= ClockOf(s, id)
    && (s.lastAccepted[id] == s.sessions[id].lastUsed || s.lastAccepted[id] - s.sessions[id].lastUsed < throttle)
  }

  predicate Expired(s: State, id: Id, ttl: nat)
    requires id in s.sessions
  {
    Elapsed(ClockOf(s, id), s.sessions[id].lastUsed) > ttl
  }

  ghost predicate LagsOk(s: State, throttle: nat) {
    forall id :: id in s.sessions ==> LagOk(s, id, throttle)
  }

  /** A thread about to remove a session it found expired: the session is gone, or still expired. */
  ghost predicate RemovalsOk(s: State, ttl: nat) {
    forall t :: t in s.threads && s.threads[t].Removing? && s.threads[t].id in s.sessions ==>
      Expired(s, s.threads[t].id, ttl)
  }

  ghost predicate IdsOk(s: State) {
    && s.sessions.Keys !! s.removed
    && s.sessions.Keys <= s.issued && s.removed <= s.issued
    && forall t :: t in s.threads && s.threads[t].Removing? ==> s.threads[t].id in s.issued
  }

  ghost predicate Inv(s: State, ttl: nat, throttle: nat) {
    LagsOk(s, throttle) && RemovalsOk(s, ttl) && IdsOk(s)
  }

  lemma TakeKeepsLags(s: State, step: Step, ttl: nat, throttle: nat)
    requires LagsOk(s, throttle) && Enabled(s, step)
    ensures LagsOk(Take(s, step, ttl, throttle), throttle)
  {
    hide Take, Enabled, LagOk;
    var s' := Take(s, step, ttl, throttle);
    forall id | id in s'.sessions
      ensures LagOk(s', id, throttle)
    {
      LagStays(s, step, ttl, throttle, id);
    }
  }

  lemma LagStays(s: State, step: Step, ttl: nat, throttle: nat, id: Id)
    requires (id in s.sessions ==> LagOk(s, id, throttle)) && Enabled(s, step)
    requires id in Take(s, step, ttl, throttle).sessions
    ensures LagOk(Take(s, step, ttl, throttle), id, throttle)
  {
  }

  lemma TakeKeepsRemovals(s: State, step: Step, ttl: nat, throttle: nat)
    requires Inv(s, ttl, throttle) && Enabled(s, step)
    ensures RemovalsOk(Take(s, step, ttl, throttle), ttl)
  {
    hide Take, Enabled, LagsOk, Expired;
    var s' := Take(s, step, ttl, throttle);
    forall t | t in s'.threads && s'.threads[t].Removing? && s'.threads[t].id in s'.sessions
      ensures Expired(s', s'.threads[t].id, ttl)
    {
      RemovalStays(s, step, ttl, throttle, t);
    }
  }

  lemma RemovalStays(s: State, step: Step, ttl: nat, throttle: nat, t: nat)
    requires Enabled(s, step)
    requires t in s.threads && s.threads[t].Removing? ==>
               && s.threads[t].id in s.issued
               && (s.threads[t].id in s.sessions ==> Expired(s, s.threads[t].id, ttl))
    requires var s' := Take(s, step, ttl, throttle);
             t in s'.threads && s'.threads[t].Removing? && s'.threads[t].id in s'.sessions
    ensures Expired(Take(s, step, ttl, throttle), Take(s, step, ttl, throttle).threads[t].id, ttl)
  {
  }

  lemma TakeKeepsIds(s: State, step: Step, ttl: nat, throttle: nat)
    requires IdsOk(s) && Enabled(s, step)
    ensures IdsOk(Take(s, step, ttl, throttle)) && s.removed <= Take(s, step, ttl, throttle).removed
  {
    hide Elapsed;
  }

  lemma TakeKeeps(s: State, step: Step, ttl: nat, throttle: nat)
    requires Inv(s, ttl, throttle) && Enabled(s, step)
    ensures Inv(Take(s, step, ttl, throttle), ttl, throttle)
    ensures s.removed <= Take(s, step, ttl, throttle).removed
  {
    hide LagsOk, RemovalsOk, IdsOk, Take, Enabled;
    TakeKeepsLags(s, step, ttl, throttle);
    TakeKeepsRemovals(s, step, ttl, throttle);
    TakeKeepsIds(s, step, ttl, throttle);
  }

  ghost predicate IsRun(states: seq<State>, steps: seq<Step>, ttl: nat, throttle: nat) {
    && |states| == |steps| + 1 && states[0] == INITIAL
    && forall i :: 0 <= i < |steps| ==>
         Enabled(states[i], steps[i]) && states[i + 1] == Take(states[i], steps[i], ttl, throttle)
  }

  lemma {:induction false} InvHolds(states: seq<State>, steps: seq<Step>, ttl: nat, throttle: nat, n: nat)
    requires IsRun(states, steps, ttl, throttle) && n < |states|
    ensures Inv(states[n], ttl, throttle)
  {
    hide Inv, Take, Enabled;
    if n == 0 {
      assert Inv(INITIAL, ttl, throttle) by { InitialOk(ttl, throttle); }
    } else {
      InvHolds(states, steps, ttl, throttle, n - 1);
      TakeKeeps(states[n - 1], steps[n - 1], ttl, throttle);
    }
  }

  lemma InitialOk(ttl: nat, throttle: nat)
    ensures Inv(INITIAL, ttl, throttle)
  {
  }

  /** A session once removed never comes back, in any run. */
  lemma {:induction false} RemovedStaysRemoved(
    states: seq<State>, steps: seq<Step>, ttl: nat, throttle: nat, i: nat, n: nat, id: Id)
    requires IsRun(states, steps, ttl, throttle) && i < n < |states|
    requires id in states[i].sessions && id !in states[i + 1].sessions
    ensures id in states[n].removed && id !in states[n].sessions
    decreases n
  {
    hide Take, Enabled;
    InvHolds(states, steps, ttl, throttle, n);
    InvHolds(states, steps, ttl, throttle, n - 1);
    TakeKeeps(states[n - 1], steps[n - 1], ttl, throttle);
    if i < n - 1 {
      RemovedStaysRemoved(states, steps, ttl, throttle, i, n - 1, id);
    } else {
      VanishingIsRemoval(states[i], steps[i], ttl, throttle, id);
    }
  }

  lemma VanishingIsRemoval(s: State, step: Step, ttl: nat, throttle: nat, id: Id)
    requires Enabled(s, step) && id in s.sessions && id !in Take(s, step, ttl, throttle).sessions
    ensures id in Take(s, step, ttl, throttle).removed
  {
  }

  predicate Revokes(step: Step, id: Id) {
    (step.Revoke? && step.id == id) || (step.RevokeAllExcept? && step.id != id)
  }

  /**
   * Apart from revocation, only sessions that have expired are ever removed: never one that was just
   * refreshed, and none that was used within the TTL less the throttle.
   */
  lemma OnlyExpiredVanish(states: seq<State>, steps: seq<Step>, ttl: nat, throttle: nat, i: nat, id: Id)
    requires IsRun(states, steps, ttl, throttle) && i < |steps|
    requires id in states[i].sessions && id !in states[i + 1].sessions && !Revokes(steps[i], id)
    ensures Elapsed(ClockOf(states[i + 1], id), states[i].sessions[id].lastUsed) > ttl
    ensures id in states[i].lastAccepted
    ensures Elapsed(ClockOf(states[i + 1], id), states[i].lastAccepted[id]) + throttle > ttl
  {
    InvHolds(states, steps, ttl, throttle, i);
    assert Enabled(states[i], steps[i]) && states[i + 1] == Take(states[i], steps[i], ttl, throttle);
    assert LagOk(states[i], id, throttle);
  }

  /** The session a step of `validate` is about. */
  function Subject(s: State, step: Step): Option<Id> {
    match step
    case LookUp(_, id, _) => Some(id)
    case WriteBack(thread, _, _) => if PcOf(s, thread).Writing? then Some(PcOf(s, thread).id) else None
    case _ => None
  }

  /** An accepted use comes at most TTL after the previous accepted one. */
  lemma AcceptedWithinTtl(states: seq<State>, steps: seq<Step>, ttl: nat, throttle: nat, i: nat)
    requires IsRun(states, steps, ttl, throttle) && i < |steps|
    requires AnswerOf(states[i], steps[i], ttl, throttle) == Some(true)
    ensures Subject(states[i], steps[i]).Some?
    ensures var id := Subject(states[i], steps[i]).value;
            id in states[i].lastAccepted && Elapsed(steps[i].now, states[i].lastAccepted[id]) <= ttl
  {
    InvHolds(states, steps, ttl, throttle, i);
  }

  /** Nobody has revoked the session in the first `n` steps. */
  ghost predicate NotRevoked(steps: seq<Step>, id: Id, n: nat)
    requires n <= |steps|
  {
    forall i :: 0 <= i < n ==> !Revokes(steps[i], id)
  }

  /** An issued session that nobody revoked is there, or it has been idle for longer than the TTL less the throttle. */
  ghost predicate ThereOrIdle(s: State, id: Id, ttl: nat, throttle: nat) {
    id in s.issued ==>
      && id in s.lastAccepted
      && (id in s.sessions || Elapsed(ClockOf(s, id), s.lastAccepted[id]) + throttle > ttl)
  }

  lemma {:induction false} UnrevokedRemains(
    states: seq<State>, steps: seq<Step>, ttl: nat, throttle: nat, id: Id, n: nat)
    requires IsRun(states, steps, ttl, throttle) && n < |states| && NotRevoked(steps, id, n)
    ensures ThereOrIdle(states[n], id, ttl, throttle)
  {
    hide Take, Enabled, Inv;
    if n > 0 {
      UnrevokedRemains(states, steps, ttl, throttle, id, n - 1);
      InvHolds(states, steps, ttl, throttle, n - 1);
      StepRemains(states[n - 1], steps[n - 1], ttl, throttle, id);
    }
  }

  lemma StepRemains(s: State, step: Step, ttl: nat, throttle: nat, id: Id)
    requires Inv(s, ttl, throttle) && Enabled(s, step) && !Revokes(step, id) && ThereOrIdle(s, id, ttl, throttle)
    ensures ThereOrIdle(Take(s, step, ttl, throttle), id, ttl, throttle)
  {
    assert id in s.sessions ==> LagOk(s, id, throttle);
  }

  /**
   * An issued session that nobody revoked, and that was used within TTL less the throttle, is not turned
   * away, whatever cleanup and other calls do in between.
   */
  lemma RecentUseAccepted(states: seq<State>, steps: seq<Step>, ttl: nat, throttle: nat, i: nat, id: Id)
    requires IsRun(states, steps, ttl, throttle) && i < |steps| && Subject(states[i], steps[i]) == Some(id)
    requires id in states[i].issued && NotRevoked(steps, id, i)
    ensures id in states[i].lastAccepted
    ensures Elapsed(steps[i].now, states[i].lastAccepted[id]) + throttle <= ttl ==>
              || AnswerOf(states[i], steps[i], ttl, throttle) == Some(true)
              || (steps[i].LookUp? && PcOf(states[i + 1], steps[i].thread) == Writing(id))
  {
    InvHolds(states, steps, ttl, throttle, i);
    UnrevokedRemains(states, steps, ttl, throttle, id, i);
    assert Enabled(states[i], steps[i]) && states[i + 1] == Take(states[i], steps[i], ttl, throttle);
    assert id in states[i].sessions ==> LagOk(states[i], id, throttle);
  }

  /** Once an issued session is revoked, no call that comes to its map entry afterwards accepts it. */
  lemma {:induction false} RevokedIsRefused(
    states: seq<State>, steps: seq<Step>, ttl: nat, throttle: nat, i: nat, n: nat, id: Id)
    requires IsRun(states, steps, ttl, throttle) && i < n < |states|
    requires Revokes(steps[i], id) && id in states[i].issued
    ensures id !in states[n].sessions && id in states[n].issued
    ensures n < |steps| && Subject(states[n], steps[n]) == Some(id) ==>
              AnswerOf(states[n], steps[n], ttl, throttle) != Some(true)
    decreases n
  {
    var m := n - 1;
    assert Enabled(states[m], steps[m]) && states[m + 1] == Take(states[m], steps[m], ttl, throttle);
    if i < m {
      hide Take, Enabled;
      RevokedIsRefused(states, steps, ttl, throttle, i, m, id);
      StaysAway(states[m], steps[m], ttl, throttle, id);
    }
  }

  lemma StaysAway(s: State, step: Step, ttl: nat, throttle: nat, id: Id)
    requires Enabled(s, step) && id in s.issued && id !in s.sessions
    ensures id in Take(s, step, ttl, throttle).issued && id !in Take(s, step, ttl, throttle).sessions
  {
  }

  /** When a lookup accepts at once, goes on to write, or goes on to remove; and when the write accepts. */
  lemma StepAnswers(states: seq<State>, steps: seq<Step>, ttl: nat, throttle: nat, i: nat, id: Id)
    requires IsRun(states, steps, ttl, throttle) && i < |steps| && Subject(states[i], steps[i]) == Some(id)
    ensures var there := id in states[i].sessions;
            var idle := if there then Elapsed(steps[i].now, states[i].sessions[id].lastUsed) else 0;
            var after := PcOf(states[i + 1], steps[i].thread);
            var accepted := AnswerOf(states[i], steps[i], ttl, throttle) == Some(true);
            && (steps[i].LookUp? ==>
                  && (accepted <==> there && idle <= ttl && idle < throttle)
                  && (after == Writing(id) <==> there && throttle <= idle <= ttl)
                  && (after == Removing(id) <==> there && idle > ttl))
            && (steps[i].WriteBack? ==>
                  && (accepted <==> there && idle <= ttl)
                  && (accepted ==> id in states[i + 1].sessions
                                   && states[i + 1].sessions[id].lastUsed == steps[i].stampedAt)
                  && (after == Removing(id) <==> there && idle > ttl))
  {
    assert Enabled(states[i], steps[i]) && states[i + 1] == Take(states[i], steps[i], ttl, throttle);
  }

  /** A step takes a session away exactly by revoking it, by removing what was found expired, or by cleaning it up. */
  lemma StepRemoves(states: seq<State>, steps: seq<Step>, ttl: nat, throttle: nat, i: nat, id: Id)
    requires IsRun(states, steps, ttl, throttle) && i < |steps| && id in states[i].sessions
    ensures id !in states[i + 1].sessions <==>
            || Revokes(steps[i], id)
            || (steps[i].Remove? && PcOf(states[i], steps[i].thread) == Removing(id))
            || (steps[i].CleanOne? && steps[i].id == id && steps[i].readAt > states[i].sessions[id].lastUsed + ttl)
  {
    InvHolds(states, steps, ttl, throttle, i);
    assert Enabled(states[i], steps[i]) && states[i + 1] == Take(states[i], steps[i], ttl, throttle);
  }
}
