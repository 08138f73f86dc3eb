/** What expiry keeps and what it gives up: `expire_into` of `src/attention/ledger.rs`, without its two passes. */
module Retention {
  import opened Common
  import opened AttentionTypes
  import opened AttentionSpec
  import opened AttentionInvariant

  /** A live event is never lost to expiry, and the oldest event left is live. */
  lemma LiveEventsStay(pane: PaneAttention, now: nat, i: nat)
    requires i < |pane.unread| && !IsExpired(pane.unread[i].occurredAt, UNREAD_TTL, now)
    ensures pane.unread[i] in ExpirePane(pane, now).unread
    ensures !IsExpired(ExpirePane(pane, now).unread[0].occurredAt, UNREAD_TTL, now)
  {
    var k := LeadingExpired(pane.unread, now, 0);
    assert k <= i;
    assert LiveSuffix(pane.unread, now)[i - k] == pane.unread[i];
  }

  /** A pane is given up exactly when it was already read, and that a whole retention period ago. */
  lemma PaneGoneIff(s: Ledger, log: Log, id: Id, now: nat)
    requires Invariant(s, log) && id in s.panes
    ensures id !in Expire(s, now).panes <==>
            s.panes[id].unread == [] && IsExpired(s.panes[id].readAt.value, UNREAD_TTL, now)
    ensures id in Expire(s, now).panes && Expire(s, now).panes[id].readAt != s.panes[id].readAt ==>
              Expire(s, now).panes[id].readAt == Some(now)
              && Expire(s, now).panes[id].readThroughSeq == s.panes[id].latestEventSeq
  {
    hide PaneOwned, NotifsOk;
    assert PaneOk(s.panes[id]);
    ExpirePaneKeeps(id, s.panes[id], log, now);
  }

  /**
   * A notification is given up exactly when it was already read, and that a whole retention period ago. One
   * that is overdue and unread is first marked as read, now; the others are not touched.
   */
  lemma NotifGoneIff(s: Ledger, log: Log, id: Id, now: nat)
    requires Invariant(s, log) && id in s.notifs
    ensures id !in Expire(s, now).notifs <==>
            s.notifs[id].read && IsExpired(s.notifs[id].readAt.value, UNREAD_TTL, now)
    ensures id in Expire(s, now).notifs ==>
              var overdue := !s.notifs[id].read && IsExpired(s.notifs[id].occurredAt, UNREAD_TTL, now);
              Expire(s, now).notifs[id] ==
              if overdue then s.notifs[id].(read := true, readAt := Some(now)) else s.notifs[id]
  {
    hide PanesOk;
    assert NotifOk(id, s.notifs[id], log);
  }

  /** Expiring again at the same time removes nothing more. */
  lemma NothingMoreToCollect(s: Ledger, log: Log, now: nat)
    requires Invariant(s, log)
    ensures Expire(Expire(s, now), now).panes.Keys == Expire(s, now).panes.Keys
    ensures Expire(Expire(s, now), now).notifs == Expire(s, now).notifs
  {
    hide PaneOk, PaneOwned, ExpirePane, Invariant;
    var e := Expire(s, now);
    ExpireKeeps(s, log, now);
    forall id | id in e.panes
      ensures id in Expire(e, now).panes
    {
      StillThere(s, log, id, now);
    }
  }

  lemma StillThere(s: Ledger, log: Log, id: Id, now: nat)
    requires Invariant(s, log) && Invariant(Expire(s, now), log) && id in Expire(s, now).panes
    ensures id in Expire(Expire(s, now), now).panes
  {
    hide Invariant, ExpirePane;
    PaneGoneIff(s, log, id, now);
    PaneGoneIff(Expire(s, now), log, id, now);
    assert PaneOk(s.panes[id]) by { OkAt(s, log, id); }
    ReadStays(s.panes[id], now);
  }

  lemma OkAt(s: Ledger, log: Log, id: Id)
    requires Invariant(s, log) && id in s.panes
    ensures PaneOk(s.panes[id])
  {
  }

  lemma ReadStays(pane: PaneAttention, now: nat)
    requires PaneOk(pane)
    ensures pane.unread == [] ==> ExpirePane(pane, now) == pane
    ensures pane.unread != [] && ExpirePane(pane, now).unread == [] ==> ExpirePane(pane, now).readAt == Some(now)
  {
  }
}
