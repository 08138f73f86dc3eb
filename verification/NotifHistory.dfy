/**
 * The notifications against a simpler machine that never drops one: what it remembers of each is what was
 * last recorded, and whether something has read it since.
 */
module NotifHistory {
  import opened Common
  import opened AttentionTypes
  import opened AttentionSpec
  import opened AttentionInvariant
  import opened AttentionRuns
  import opened PaneEffects
  import Eviction
  import Retention

  predicate RecordsNotif(op: Op, id: Id) {
    op.OpRecordNotif? && op.id == id
  }

  /** A request of the ledger's epoch names the notification, or queues are touched after its time is up. */
  predicate Reads(epoch: string, op: Op, id: Id, occurredAt: nat) {
    || (op.OpMarkRead? && op.epoch == epoch && id in op.notifIds)
    || (Touches(op) && Old(occurredAt, op.now))
  }

  function Remembered(epoch: string, ops: seq<Op>, id: Id): Option<NotifAttention> {
    if ops == [] then None
    else
      var init, op := ops[..|ops| - 1], ops[|ops| - 1];
      var before := Remembered(epoch, init, id);
      if RecordsNotif(op, id) then
        Some(NotifAttention(|RunLog(init)| + 1, op.occurredAt, op.severity, false, None))
      else if before.Some? && !before.value.read && Reads(epoch, op, id, before.value.occurredAt) then
        Some(before.value.(read := true, readAt := Some(op.now)))
      else before
  }

  // ---- one operation ----

  /** A notification that was read a whole retention period ago. */
  predicate NotifCollected(s: Ledger, op: Op, id: Id) {
    && Touches(op) && id in s.notifs
    && s.notifs[id].read && s.notifs[id].readAt.Some? && Old(s.notifs[id].readAt.value, op.now)
  }

  ghost function UncappedNotifs(s: Ledger, op: Op): map<Id, NotifAttention>
    requires op.OpRecordNotif?
  {
    Expire(s, op.now).notifs[op.id := NotifAttention(s.nextEventSeq, op.occurredAt, op.severity, false, None)]
  }

  ghost predicate NotifEvicted(s: Ledger, op: Op, id: Id) {
    op.OpRecordNotif? && |UncappedNotifs(s, op)| > IDENTITY_CAP && Eviction.NotifVictim(UncappedNotifs(s, op), id)
  }

  lemma UncappedNotifsOk(s: Ledger, log: Log, op: Op)
    requires Invariant(s, log) && op.OpRecordNotif?
    ensures NotifsOk(UncappedNotifs(s, op), log + [Notif(op.id)]) && |UncappedNotifs(s, op)| <= IDENTITY_CAP + 1
  {
    hide PaneOk, PaneOwned, ExpirePanes, ExpireNotifs;
    ExpireKeeps(s, log, op.now);
    var e := Expire(s, op.now);
    NotifsOkGrows(e.notifs, log, Notif(op.id));
    InsertSize(e.notifs, op.id, NotifAttention(s.nextEventSeq, op.occurredAt, op.severity, false, None));
  }

  lemma NotifsCappedExactly(s: Ledger, log: Log, op: Op)
    requires Invariant(s, log) && op.OpRecordNotif?
    ensures forall id :: id in Step(s, op).notifs <==> id in UncappedNotifs(s, op) && !NotifEvicted(s, op, id)
    ensures forall id :: id in Step(s, op).notifs ==> Step(s, op).notifs[id] == UncappedNotifs(s, op)[id]
  {
    hide NotifsOk, ExpirePanes, ExpireNotifs, Eviction.NotifVictim, PanesOk;
    UncappedNotifsOk(s, log, op);
    var notifs := UncappedNotifs(s, op);
    assert Step(s, op).notifs == Eviction.CapNotifs(notifs);
    if |notifs| > IDENTITY_CAP {
      var victim := CapNotifsKeeps(notifs, log + [Notif(op.id)]);
    }
  }

  lemma ExpiredNotifs(s: Ledger, log: Log, op: Op, id: Id)
    requires Invariant(s, log) && Touches(op)
    ensures id in Expire(s, op.now).notifs <==> id in s.notifs && !NotifCollected(s, op, id)
    ensures id in Expire(s, op.now).notifs ==>
              Expire(s, op.now).notifs[id] ==
              if !s.notifs[id].read && Old(s.notifs[id].occurredAt, op.now)
              then s.notifs[id].(read := true, readAt := Some(op.now)) else s.notifs[id]
  {
    hide PanesOk, ExpireNotifs;
    if id in s.notifs {
      assert NotifOk(id, s.notifs[id], log);
      Retention.NotifGoneIff(s, log, id, op.now);
    } else {
      OnlyFewer(s, op.now, id);
    }
  }

  lemma OnlyFewer(s: Ledger, now: nat, id: Id)
    ensures id in Expire(s, now).notifs ==> id in s.notifs
  {
  }

  /** What an operation makes of a notification that it does not record anew. */
  function Carried(epoch: string, op: Op, id: Id, notif: NotifAttention): NotifAttention {
    if !notif.read && Reads(epoch, op, id, notif.occurredAt)
    then notif.(read := true, readAt := Some(op.now)) else notif
  }

  /**
   * A notification is there after an operation exactly if it was recorded just now, or was there before and
   * not collected; less the victim of the cap. It is as recorded, or as it was, or has just been read.
   */
  lemma NotifAfter(s: Ledger, log: Log, op: Op, id: Id)
    requires Invariant(s, log)
    ensures id in Step(s, op).notifs <==>
            (RecordsNotif(op, id) || (id in s.notifs && !NotifCollected(s, op, id))) && !NotifEvicted(s, op, id)
    ensures id in Step(s, op).notifs ==>
              Step(s, op).notifs[id] ==
              if RecordsNotif(op, id) then NotifAttention(s.nextEventSeq, op.occurredAt, op.severity, false, None)
              else Carried(s.epoch, op, id, s.notifs[id])
  {
    hide Invariant, ExpirePanes, ExpireNotifs, NotifEvicted, UncappedNotifs, RecordNotif, RecordPane, MarkPanes, Old,
      NotifCollected, PaneViews, NotifViews, MarkNotifs;
    if Touches(op) {
      ExpiredNotifs(s, log, op, id);
    } else {
      NothingCollected(s, op, id);
    }
    if op.OpRecordNotif? {
      NotifsCappedExactly(s, log, op);
      UncappedNotifsAre(s, op, id);
    } else {
      NoNotifEvicted(s, op, id);
    }
    if op.OpMarkRead? {
      MarkedNotifs(Expire(s, op.now).notifs, op.notifIds, op.now, id);
    }
    if op.OpRecordPane? {
      PanesOnly(s, op);
    }
  }

  lemma PanesOnly(s: Ledger, op: Op)
    requires op.OpRecordPane?
    ensures Step(s, op).notifs == Expire(s, op.now).notifs
  {
    hide ExpirePanes, ExpireNotifs, PushEvent, Eviction.CapPanes;
  }

  lemma NothingCollected(s: Ledger, op: Op, id: Id)
    requires !Touches(op)
    ensures !NotifCollected(s, op, id)
  {
  }

  lemma NoNotifEvicted(s: Ledger, op: Op, id: Id)
    requires !op.OpRecordNotif?
    ensures !NotifEvicted(s, op, id)
  {
  }

  lemma UncappedNotifsAre(s: Ledger, op: Op, id: Id)
    requires op.OpRecordNotif?
    ensures id in UncappedNotifs(s, op) <==> id in Expire(s, op.now).notifs || id == op.id
    ensures id in UncappedNotifs(s, op) ==>
              UncappedNotifs(s, op)[id] ==
              if id == op.id then NotifAttention(s.nextEventSeq, op.occurredAt, op.severity, false, None)
              else Expire(s, op.now).notifs[id]
  {
    hide ExpireNotifs;
  }

  lemma MarkedNotifs(notifs: map<Id, NotifAttention>, ids: seq<Id>, now: nat, id: Id)
    ensures id in MarkNotifs(notifs, ids, now) <==> id in notifs
    ensures id in notifs ==>
              MarkNotifs(notifs, ids, now)[id] ==
              if id in ids && !notifs[id].read then notifs[id].(read := true, readAt := Some(now)) else notifs[id]
  {
  }

  /** One just recorded goes at once exactly if it is new and every other is unread and later. */
  lemma NotifEvictedAtOnceIff(s: Ledger, log: Log, op: Op)
    requires Invariant(s, log) && op.OpRecordNotif?
    ensures NotifEvicted(s, op, op.id) <==>
            var notifs := Expire(s, op.now).notifs;
            && op.id !in notifs && |notifs| == IDENTITY_CAP
            && forall id :: id in notifs ==> !notifs[id].read && notifs[id].occurredAt > op.occurredAt
  {
    hide PanesOk, NotifsOk, ExpireNotifs, Eviction.Least, Eviction.NotifRank;
    UncappedNotifsOk(s, log, op);
    ExpireKeeps(s, log, op.now);
    var notifs := Expire(s, op.now).notifs;
    InsertSize(notifs, op.id, UncappedNotifs(s, op)[op.id]);
    if op.id !in notifs && |notifs| == IDENTITY_CAP {
      if forall id :: id in notifs ==> !notifs[id].read && notifs[id].occurredAt > op.occurredAt {
        NewNotifIsLeast(s, op);
      } else {
        var other :| other in notifs && (notifs[other].read || notifs[other].occurredAt <= op.occurredAt);
        NewNotifIsNotLeast(s, log, op, other);
      }
    }
  }

  lemma NewNotifIsLeast(s: Ledger, op: Op)
    requires op.OpRecordNotif? && op.id !in Expire(s, op.now).notifs
    requires forall id :: id in Expire(s, op.now).notifs ==>
               !Expire(s, op.now).notifs[id].read && Expire(s, op.now).notifs[id].occurredAt > op.occurredAt
    ensures Eviction.NotifVictim(UncappedNotifs(s, op), op.id)
  {
    hide ExpireNotifs;
    var all := UncappedNotifs(s, op);
    assert all.Keys == Expire(s, op.now).notifs.Keys + {op.id};
    assert forall id :: id in all && id != op.id ==> all[id] == Expire(s, op.now).notifs[id];
    var read := set id | id in all && all[id].read;
    assert read == {};
    assert Eviction.NotifCandidates(all) == all.Keys;
  }

  lemma NewNotifIsNotLeast(s: Ledger, log: Log, op: Op, other: Id)
    requires Invariant(s, log) && op.OpRecordNotif? && op.id !in Expire(s, op.now).notifs
    requires other in Expire(s, op.now).notifs
    requires var n := Expire(s, op.now).notifs[other]; n.read || n.occurredAt <= op.occurredAt
    ensures !Eviction.NotifVictim(UncappedNotifs(s, op), op.id)
  {
    hide PanesOk, ExpireNotifs;
    ExpireKeeps(s, log, op.now);
    UncappedNotifsOk(s, log, op);
    var all := UncappedNotifs(s, op);
    assert all[other] == Expire(s, op.now).notifs[other];
    assert NotifOk(other, Expire(s, op.now).notifs[other], log);
    var read := set id | id in all && all[id].read;
    assert op.id !in read;
    assert all[other].read ==> other in read;
    assert other in Eviction.NotifRanks(all);
  }

  // ---- whole runs ----

  lemma {:induction false} EpochStays(epoch: string, ops: seq<Op>)
    ensures Run(epoch, ops).epoch == epoch
    decreases |ops|
  {
    hide PaneViews, NotifViews, ExpirePanes, ExpireNotifs;
    if ops != [] {
      EpochStays(epoch, ops[..|ops| - 1]);
    }
  }

  /** After every run, whatever the order of times, each notification is as the simple machine remembers it. */
  lemma {:induction false} NotifsAsRemembered(epoch: string, ops: seq<Op>)
    ensures forall id :: id in Run(epoch, ops).notifs ==> Remembered(epoch, ops, id) == Some(Run(epoch, ops).notifs[id])
    decreases |ops|
  {
    hide Step, Reads, NotifCollected, NotifEvicted;
    if ops != [] {
      var init, op := ops[..|ops| - 1], ops[|ops| - 1];
      NotifsAsRemembered(epoch, init);
      EpochStays(epoch, init);
      var s := Run(epoch, init);
      InvariantHolds(epoch, init);
      assert s.nextEventSeq == |RunLog(init)| + 1 by { NumberIsCount(s, RunLog(init)); }
      forall id | id in Run(epoch, ops).notifs
        ensures Remembered(epoch, ops, id) == Some(Run(epoch, ops).notifs[id])
      {
        NotifAfter(s, RunLog(init), op, id);
      }
    }
  }

  lemma NumberIsCount(s: Ledger, log: Log)
    requires Invariant(s, log)
    ensures s.nextEventSeq == |log| + 1
  {
  }

  /** Operation `i` is the last that recorded the notification. */
  ghost predicate LastRecorded(ops: seq<Op>, id: Id, i: nat) {
    i < |ops| && RecordsNotif(ops[i], id) && forall j :: i < j < |ops| ==> !RecordsNotif(ops[j], id)
  }

  /** Operation `j` is the first after `i` that reads the notification. */
  ghost predicate FirstRead(epoch: string, ops: seq<Op>, id: Id, occurredAt: nat, i: nat, j: nat) {
    && i < j < |ops| && Reads(epoch, ops[j], id, occurredAt)
    && forall k :: i < k < j ==> !Reads(epoch, ops[k], id, occurredAt)
  }

  /** The notification as it follows from the run: recorded by `i`, and read by what came since. */
  ghost predicate FollowsFrom(epoch: string, ops: seq<Op>, id: Id, i: nat, notif: NotifAttention) {
    && LastRecorded(ops, id, i)
    && notif.eventSeq == |RunLog(ops[..i])| + 1
    && notif.occurredAt == ops[i].occurredAt && notif.severity == ops[i].severity
    && (notif.read <==> exists j :: i < j < |ops| && Reads(epoch, ops[j], id, ops[i].occurredAt))
    && (notif.read ==>
          exists j :: i < j < |ops| && FirstRead(epoch, ops, id, ops[i].occurredAt, i, j)
              && notif.readAt == Some(ops[j].now))
    && (!notif.read ==> notif.readAt == None)
  }

  lemma {:induction false} RememberedFollows(epoch: string, ops: seq<Op>, id: Id)
    requires Remembered(epoch, ops, id).Some?
    ensures exists i :: FollowsFrom(epoch, ops, id, i, Remembered(epoch, ops, id).value)
    decreases |ops|
  {
    hide Reads, FollowsFrom;
    var init, op := ops[..|ops| - 1], ops[|ops| - 1];
    if RecordsNotif(op, id) {
      RecordedFollows(epoch, ops, id);
    } else {
      RememberedFollows(epoch, init, id);
      var i :| FollowsFrom(epoch, init, id, i, Remembered(epoch, init, id).value);
      NextFollows(epoch, init, op, id, i, Remembered(epoch, init, id).value);
      assert ops == init + [op];
    }
  }

  lemma RecordedFollows(epoch: string, ops: seq<Op>, id: Id)
    requires ops != [] && RecordsNotif(ops[|ops| - 1], id)
    ensures FollowsFrom(epoch, ops, id, |ops| - 1, Remembered(epoch, ops, id).value)
  {
    hide Reads;
  }

  lemma NextFollows(epoch: string, init: seq<Op>, op: Op, id: Id, i: nat, notif: NotifAttention)
    requires FollowsFrom(epoch, init, id, i, notif) && !RecordsNotif(op, id)
    ensures FollowsFrom(epoch, init + [op], id, i, Carried(epoch, op, id, notif))
  {
    hide Reads, RunLog;
    var ops := init + [op];
    assert ops[..i] == init[..i];
    assert ops[|init|] == op;
    assert forall j :: 0 <= j < |init| ==> ops[j] == init[j];
    if notif.read {
      var j :| i < j < |init| && FirstRead(epoch, init, id, init[i].occurredAt, i, j)
          && notif.readAt == Some(init[j].now);
      assert FirstRead(epoch, ops, id, ops[i].occurredAt, i, j);
    } else if Reads(epoch, op, id, notif.occurredAt) {
      assert FirstRead(epoch, ops, id, ops[i].occurredAt, i, |init|);
    }
  }

  /**
   * After every run a notification carries the number, time and severity with which it was last recorded.
   * It is read exactly if, since then, a request of the ledger's epoch named it or queues were touched a
   * whole `UNREAD_TTL` after that time; and it was read by the first such operation.
   */
  lemma NotificationFate(epoch: string, ops: seq<Op>, id: Id)
    requires id in Run(epoch, ops).notifs
    ensures exists i :: FollowsFrom(epoch, ops, id, i, Run(epoch, ops).notifs[id])
  {
    hide FollowsFrom, Run, Remembered;
    NotifsAsRemembered(epoch, ops);
    RememberedFollows(epoch, ops, id);
  }
}
