/**
 * Read receipts form a join: only the set of receipts matters, not their order, grouping or repetition.
 */
module ReadReceipts {
  import opened Common
  import opened AttentionTypes
  import opened AttentionSpec
  import opened AttentionInvariant
  import AttentionRuns
  import UnreadHistory

  /** The largest receipt for pane `id` that does not lie beyond `latest`, and 0 if there is none. */
  function Largest(receipts: seq<Receipt>, id: Id, latest: nat): (n: nat)
    ensures n <= latest
    decreases |receipts|
  {
    if receipts == [] then 0
    else
      var before := Largest(receipts[..|receipts| - 1], id, latest);
      var r := receipts[|receipts| - 1];
      if r.paneId == id && r.throughSeq <= latest then Max(before, r.throughSeq) else before
  }

  lemma {:induction false} LargestIsLargest(receipts: seq<Receipt>, id: Id, latest: nat)
    ensures forall r :: r in receipts && r.paneId == id && r.throughSeq <= latest ==>
            r.throughSeq <= Largest(receipts, id, latest)
    ensures Largest(receipts, id, latest) > 0 ==> Receipt(id, Largest(receipts, id, latest)) in receipts
    decreases |receipts|
  {
    if receipts != [] {
      var init := receipts[..|receipts| - 1];
      LargestIsLargest(init, id, latest);
      assert receipts == init + [receipts[|receipts| - 1]];
    }
  }

  lemma SameReceiptsSameLargest(a: seq<Receipt>, b: seq<Receipt>, id: Id, latest: nat)
    requires forall r :: r in a <==> r in b
    ensures Largest(a, id, latest) == Largest(b, id, latest)
  {
    LargestIsLargest(a, id, latest);
    LargestIsLargest(b, id, latest);
  }

  lemma ReadTwice(unread: seq<UnreadEvent>, w1: nat, w2: nat)
    requires w1 <= w2
    ensures AfterSeq(AfterSeq(unread, w1), w2) == AfterSeq(unread, w2)
  {
    var k1 := LeadingRead(unread, w1, 0);
    var rest := unread[k1..];
    var k2 := LeadingRead(rest, w2, 0);
    forall i | 0 <= i < k1 + k2
      ensures unread[i].seqNo <= w2
    {
      assert k1 <= i ==> unread[i] == rest[i - k1];
    }
    assert k1 + k2 < |unread| ==> unread[k1 + k2] == rest[k2];
    LeadingReadIs(unread, w2, k1 + k2);
  }

  lemma LeadingReadIs(unread: seq<UnreadEvent>, watermark: nat, k: nat)
    requires k <= |unread|
    requires forall i :: 0 <= i < k ==> unread[i].seqNo <= watermark
    requires k < |unread| ==> unread[k].seqNo > watermark
    ensures LeadingRead(unread, watermark, 0) == k
  {
    var l := LeadingRead(unread, watermark, 0);
    assert l < |unread| ==> unread[l].seqNo > watermark;
  }

  /** When a receipt empties the queue: exactly when it reaches the latest event. */
  lemma EmptiedIff(pane: PaneAttention, watermark: nat)
    requires PaneOk(pane) && pane.readThroughSeq <= watermark <= pane.latestEventSeq
    ensures AfterSeq(pane.unread, watermark) == [] <==> watermark == pane.latestEventSeq
  {
    var k := LeadingRead(pane.unread, watermark, 0);
    assert k < |pane.unread| ==> pane.unread[k].seqNo <= pane.latestEventSeq;
    assert pane.unread != [] && k == |pane.unread| ==> pane.unread[k - 1].seqNo <= watermark;
  }

  lemma NothingToRead(watermark: nat)
    ensures AfterSeq([], watermark) == []
  {
  }

  /** Two receipts do what the larger one does. */
  lemma MarkTwice(pane: PaneAttention, a: nat, b: nat, now: nat)
    requires PaneOk(pane) && a <= pane.latestEventSeq && b <= pane.latestEventSeq
    ensures MarkPane(MarkPane(pane, a, now), b, now) == MarkPane(pane, Max(a, b), now)
  {
    hide AfterSeq, QueueOk;
    var w1 := Max(pane.readThroughSeq, a);
    var w2 := Max(w1, b);
    ReadTwice(pane.unread, w1, w2);
    EmptiedIff(pane, w1);
    EmptiedIff(pane, w2);
    assert AfterSeq([], w2) == [] by { NothingToRead(w2); }
  }

  /** Receipts in a list, applied in list order, do to each pane what its largest valid one does. */
  lemma {:induction false} ReceiptsJoin(panes: map<Id, PaneAttention>, log: Log, receipts: seq<Receipt>, now: nat)
    requires PanesOk(panes, log)
    ensures MarkPanes(panes, receipts, now) ==
            map id | id in panes :: MarkPane(panes[id], Largest(receipts, id, panes[id].latestEventSeq), now)
    decreases |receipts|
  {
    hide PaneOk, PaneOwned, MarkPane;
    if receipts == [] {
      forall id | id in panes
        ensures MarkPane(panes[id], 0, now) == panes[id]
      {
        MarkNothing(panes[id], now);
      }
    } else {
      var init := receipts[..|receipts| - 1];
      var r := receipts[|receipts| - 1];
      ReceiptsJoin(panes, log, init, now);
      if r.paneId in panes {
        var pane := panes[r.paneId];
        MarkPaneKeeps(r.paneId, pane, log, Largest(init, r.paneId, pane.latestEventSeq), now);
        if r.throughSeq <= pane.latestEventSeq {
          MarkTwice(pane, Largest(init, r.paneId, pane.latestEventSeq), r.throughSeq, now);
        } else {
          MarkBeyond(MarkPane(pane, Largest(init, r.paneId, pane.latestEventSeq), now), r.throughSeq, now);
        }
      }
    }
  }

  lemma MarkNothing(pane: PaneAttention, now: nat)
    requires PaneOk(pane)
    ensures MarkPane(pane, 0, now) == pane
  {
    LeadingReadIs(pane.unread, pane.readThroughSeq, 0);
  }

  lemma MarkBeyond(pane: PaneAttention, throughSeq: nat, now: nat)
    requires throughSeq > pane.latestEventSeq
    ensures MarkPane(pane, throughSeq, now) == pane
  {
  }

  /** Two lists with the same receipts, in any order and with any repetitions, have the same effect. */
  lemma OrderAndRepetitionIrrelevant(
    panes: map<Id, PaneAttention>, log: Log, a: seq<Receipt>, b: seq<Receipt>, now: nat)
    requires PanesOk(panes, log)
    requires forall r :: r in a <==> r in b
    ensures MarkPanes(panes, a, now) == MarkPanes(panes, b, now)
  {
    hide PanesOk, MarkPane, Largest, MarkPanes;
    ReceiptsJoin(panes, log, a, now);
    ReceiptsJoin(panes, log, b, now);
    forall id | id in panes
      ensures Largest(a, id, panes[id].latestEventSeq) == Largest(b, id, panes[id].latestEventSeq)
    {
      SameReceiptsSameLargest(a, b, id, panes[id].latestEventSeq);
    }
  }

  /** No event above every receipt is cleared, and every event at or below a valid one is. */
  lemma OnlyReadEventsCleared(pane: PaneAttention, throughSeq: nat, now: nat, i: nat)
    requires PaneOk(pane) && throughSeq <= pane.latestEventSeq && i < |pane.unread|
    ensures pane.unread[i] in MarkPane(pane, throughSeq, now).unread <==> pane.unread[i].seqNo > throughSeq
  {
    var watermark := Max(pane.readThroughSeq, throughSeq);
    var k := LeadingRead(pane.unread, watermark, 0);
    var rest := pane.unread[k..];
    if pane.unread[i].seqNo > throughSeq {
      assert k <= i;
      assert rest[i - k] == pane.unread[i];
    } else {
      forall j | 0 <= j < |rest|
        ensures rest[j].seqNo > watermark
      {
        assert rest[j] == pane.unread[k + j];
      }
    }
  }

  // ---- several calls at one time ----

  /** No expired event is left in the queue, not even behind a live one. */
  ghost predicate AllLive(unread: seq<UnreadEvent>, now: nat) {
    forall i :: 0 <= i < |unread| ==> !IsExpired(unread[i].occurredAt, UNREAD_TTL, now)
  }

  /** A pane that expiry at `now` leaves alone, and keeps leaving alone whatever is read. */
  ghost predicate Settled(pane: PaneAttention, now: nat) {
    AllLive(pane.unread, now) && !PaneCollectable(pane, now)
  }

  ghost predicate NotifSettled(notif: NotifAttention, now: nat) {
    ExpireNotif(notif, now) == notif && !NotifCollectable(notif, now)
  }

  lemma SettledStays(pane: PaneAttention, throughSeq: nat, now: nat)
    requires Settled(pane, now)
    ensures Settled(MarkPane(pane, throughSeq, now), now)
  {
    if throughSeq <= pane.latestEventSeq {
      var rest := AfterSeq(pane.unread, Max(pane.readThroughSeq, throughSeq));
      assert AllLive(rest, now);
      assert rest == [] && pane.unread != [] ==> !IsExpired(now, UNREAD_TTL, now);
    }
  }

  lemma LeadingExpiredIsNone(unread: seq<UnreadEvent>, now: nat)
    requires unread != [] ==> !IsExpired(unread[0].occurredAt, UNREAD_TTL, now)
    ensures LiveSuffix(unread, now) == unread
  {
  }

  /**
   * Whether reading now and expiring now can be interleaved freely depends on one thing: no event that
   * expiry leaves in the queue has expired. (Expiry stops at the first live event, so an event
   * with an earlier reading of the clock can be left behind a live one after it has expired.)
   */
  lemma InterleavingIffAllLive(pane: PaneAttention, now: nat)
    requires PaneOk(pane)
    ensures (forall t :: ExpirePane(MarkPane(ExpirePane(pane, now), t, now), now)
                         == MarkPane(ExpirePane(pane, now), t, now))
            <==> AllLive(LiveSuffix(pane.unread, now), now)
  {
    var e := ExpirePane(pane, now);
    if AllLive(e.unread, now) {
      forall t
        ensures ExpirePane(MarkPane(e, t, now), now) == MarkPane(e, t, now)
      {
        LeadingExpiredIsNone(MarkPane(e, t, now).unread, now);
      }
    } else {
      var j :| 0 <= j < |e.unread| && IsExpired(e.unread[j].occurredAt, UNREAD_TTL, now);
      ExposedExpires(pane, now, j);
    }
  }

  /** An expired event behind a live one goes as soon as a receipt exposes it and queues are touched again. */
  lemma ExposedExpires(pane: PaneAttention, now: nat, j: nat)
    requires PaneOk(pane)
    requires j < |LiveSuffix(pane.unread, now)|
             && IsExpired(LiveSuffix(pane.unread, now)[j].occurredAt, UNREAD_TTL, now)
    ensures var e := ExpirePane(pane, now);
            0 < j && var p := MarkPane(e, e.unread[j - 1].seqNo, now); ExpirePane(p, now) != p
  {
    var e := ExpirePane(pane, now);
    DropKeeps(pane, LeadingExpired(pane.unread, now, 0), pane.readThroughSeq, now);
    assert e.unread == LiveSuffix(pane.unread, now);
    LeadingReadIs(e.unread, e.unread[j - 1].seqNo, j);
    var p := MarkPane(e, e.unread[j - 1].seqNo, now);
    assert p.unread[0] == e.unread[j];
  }

  ghost predicate TablesSettled(s: Ledger, now: nat) {
    && (forall id :: id in s.panes ==> Settled(s.panes[id], now))
    && (forall id :: id in s.notifs ==> NotifSettled(s.notifs[id], now))
  }

  lemma SettledTablesUntouched(s: Ledger, now: nat)
    requires TablesSettled(s, now)
    ensures ExpirePanes(s.panes, now) == s.panes && ExpireNotifs(s.notifs, now) == s.notifs
  {
    hide AllLive, PaneCollectable, NotifCollectable, ExpireNotif, ExpirePane;
    forall id | id in s.panes
      ensures ExpirePane(s.panes[id], now) == s.panes[id]
    {
      SettledUntouched(s.panes[id], now);
    }
  }

  lemma SettledUntouched(pane: PaneAttention, now: nat)
    requires Settled(pane, now)
    ensures ExpirePane(pane, now) == pane
  {
    LeadingExpiredIsNone(pane.unread, now);
  }

  lemma ExpireSettles(s: Ledger, now: nat)
    requires forall id :: id in s.panes ==> AllLive(LiveSuffix(s.panes[id].unread, now), now)
    ensures TablesSettled(Expire(s, now), now)
  {
    hide AllLive, LiveSuffix, PaneCollectable;
    var e := Expire(s, now);
    assert forall id :: id in e.panes ==> e.panes[id].unread == LiveSuffix(s.panes[id].unread, now);
  }

  lemma {:induction false} MarksSettled(s: Ledger, receipts: seq<Receipt>, notifIds: seq<Id>, now: nat)
    requires TablesSettled(s, now)
    ensures var panes, notifs := MarkPanes(s.panes, receipts, now), MarkNotifs(s.notifs, notifIds, now);
            TablesSettled(s.(panes := panes, notifs := notifs), now)
    decreases |receipts|
  {
    hide Settled, MarkPane;
    if receipts != [] {
      var init := receipts[..|receipts| - 1];
      var r := receipts[|receipts| - 1];
      MarksSettled(s, init, notifIds, now);
      var before := MarkPanes(s.panes, init, now);
      if r.paneId in before {
        SettledStays(before[r.paneId], r.throughSeq, now);
      }
    }
  }

  lemma {:induction false} MarkPanesConcat(panes: map<Id, PaneAttention>, a: seq<Receipt>, b: seq<Receipt>, now: nat)
    ensures MarkPanes(panes, a + b, now) == MarkPanes(MarkPanes(panes, a, now), b, now)
    decreases |b|
  {
    if b == [] {
      assert a + b == a;
    } else {
      assert (a + b)[..|a + b| - 1] == a + b[..|b| - 1];
      MarkPanesConcat(panes, a, b[..|b| - 1], now);
    }
  }

  lemma MarkNotifsConcat(notifs: map<Id, NotifAttention>, a: seq<Id>, b: seq<Id>, now: nat)
    ensures MarkNotifs(notifs, a + b, now) == MarkNotifs(MarkNotifs(notifs, a, now), b, now)
  {
  }

  datatype Call = Call(receipts: seq<Receipt>, notifIds: seq<Id>)

  function RunCalls(s: Ledger, calls: seq<Call>, now: nat): Ledger {
    if calls == [] then s
    else
      var call := calls[|calls| - 1];
      MarkRead(RunCalls(s, calls[..|calls| - 1], now), s.epoch, call.receipts, call.notifIds, now)
  }

  function AllReceipts(calls: seq<Call>): seq<Receipt> {
    if calls == [] then [] else AllReceipts(calls[..|calls| - 1]) + calls[|calls| - 1].receipts
  }

  function AllNotifs(calls: seq<Call>): seq<Id> {
    if calls == [] then [] else AllNotifs(calls[..|calls| - 1]) + calls[|calls| - 1].notifIds
  }

  /** Any grouping of receipts into mark-read calls at one time does what one call with all of them does. */
  lemma {:induction false} GroupingIrrelevant(s: Ledger, calls: seq<Call>, now: nat)
    requires calls != []
    requires forall id :: id in s.panes ==> AllLive(LiveSuffix(s.panes[id].unread, now), now)
    ensures var e := Expire(s, now); var r := RunCalls(s, calls, now);
            && r.epoch == s.epoch
            && r.panes == MarkPanes(e.panes, AllReceipts(calls), now)
            && r.notifs == MarkNotifs(e.notifs, AllNotifs(calls), now)
    decreases |calls|
  {
    hide AllLive, TablesSettled, ExpirePanes, ExpireNotifs, MarkPanes, MarkNotifs, PaneViews, NotifViews;
    var init := calls[..|calls| - 1];
    var call := calls[|calls| - 1];
    var e := Expire(s, now);
    if init == [] {
      assert RunCalls(s, init, now) == s && AllReceipts(init) == [] && AllNotifs(init) == [];
      assert [] + call.receipts == call.receipts && [] + call.notifIds == call.notifIds;
    } else {
      GroupingIrrelevant(s, init, now);
      var mid := RunCalls(s, init, now);
      ExpireSettles(s, now);
      MarksSettled(e, AllReceipts(init), AllNotifs(init), now);
      SettledIgnores(e.(panes := mid.panes, notifs := mid.notifs), mid, now);
      SettledTablesUntouched(mid, now);
      MarkPanesConcat(e.panes, AllReceipts(init), call.receipts, now);
      MarkNotifsConcat(e.notifs, AllNotifs(init), call.notifIds, now);
    }
  }

  lemma SettledIgnores(a: Ledger, b: Ledger, now: nat)
    requires TablesSettled(a, now) && a.panes == b.panes && a.notifs == b.notifs
    ensures TablesSettled(b, now)
  {
  }

  /** Hence two ways to send the same receipts leave the same panes and notifications. */
  lemma ReceiptsAreASet(s: Ledger, log: Log, a: seq<Call>, b: seq<Call>, now: nat)
    requires Invariant(s, log) && a != [] && b != []
    requires forall id :: id in s.panes ==> AllLive(LiveSuffix(s.panes[id].unread, now), now)
    requires forall r :: r in AllReceipts(a) <==> r in AllReceipts(b)
    requires forall id :: id in AllNotifs(a) <==> id in AllNotifs(b)
    ensures RunCalls(s, a, now).panes == RunCalls(s, b, now).panes
    ensures RunCalls(s, a, now).notifs == RunCalls(s, b, now).notifs
  {
    hide AllLive, PanesOk, NotifsOk, ExpirePanes, ExpireNotifs, MarkPanes, RunCalls, AllReceipts, AllNotifs;
    GroupingIrrelevant(s, a, now);
    GroupingIrrelevant(s, b, now);
    ExpireKeeps(s, log, now);
    OrderAndRepetitionIrrelevant(Expire(s, now).panes, log, AllReceipts(a), AllReceipts(b), now);
  }

  /** Two ways to send the same targets: other groups, another order, other repetitions. */
  ghost predicate SameTargets(a: seq<Call>, b: seq<Call>) {
    && a != [] && b != []
    && (forall r :: r in AllReceipts(a) <==> r in AllReceipts(b))
    && (forall id :: id in AllNotifs(a) <==> id in AllNotifs(b))
  }

  ghost predicate SameEffect(s: Ledger, a: seq<Call>, b: seq<Call>, now: nat) {
    && RunCalls(s, a, now).panes == RunCalls(s, b, now).panes
    && RunCalls(s, a, now).notifs == RunCalls(s, b, now).notifs
  }

  /**
   * At one time, only the set of targets matters, however they are sent, exactly when no expired event
   * hides behind a live one.
   */
  lemma GroupingIff(s: Ledger, log: Log, now: nat)
    requires Invariant(s, log)
    ensures (forall a, b :: SameTargets(a, b) ==> SameEffect(s, a, b, now)) <==>
            (forall id :: id in s.panes ==> AllLive(LiveSuffix(s.panes[id].unread, now), now))
  {
    hide AllLive, Invariant, RunCalls, AllReceipts, AllNotifs;
    if forall id :: id in s.panes ==> AllLive(LiveSuffix(s.panes[id].unread, now), now) {
      forall a, b | SameTargets(a, b)
        ensures SameEffect(s, a, b, now)
      {
        ReceiptsAreASet(s, log, a, b, now);
      }
    } else {
      var id :| id in s.panes && !AllLive(LiveSuffix(s.panes[id].unread, now), now);
      var a, b := HiddenEventShows(s, log, id, now);
    }
  }

  /** With a hidden event, one call and the same call followed by an empty one differ. */
  lemma HiddenEventShows(s: Ledger, log: Log, id: Id, now: nat) returns (a: seq<Call>, b: seq<Call>)
    requires Invariant(s, log) && id in s.panes && !AllLive(LiveSuffix(s.panes[id].unread, now), now)
    ensures SameTargets(a, b) && !SameEffect(s, a, b, now)
  {
    hide PaneOwned, NotifsOk, ExpirePane, MarkPane, MarkPanes, ExpireNotifs, MarkNotifs, PaneViews, NotifViews;
    var pane := s.panes[id];
    var rest := LiveSuffix(pane.unread, now);
    var j :| 0 <= j < |rest| && IsExpired(rest[j].occurredAt, UNREAD_TTL, now);
    assert PaneOk(pane);
    ExposedExpires(pane, now, j);
    ExpiredQueue(pane, now);
    var r := Receipt(id, rest[j - 1].seqNo);
    var call := Call([r], []);
    a, b := [call], [call, Call([], [])];
    SameTargetsAgain(call);
    TwoCalls(s, call, now);
    var e := Expire(s, now);
    assert id in e.panes && e.panes[id] == ExpirePane(pane, now);
    MarkAlone(e.panes, r, now);
    var once, twice := RunCalls(s, a, now).panes, RunCalls(s, b, now).panes;
    assert once[id] == MarkPane(e.panes[id], r.throughSeq, now);
    assert id in twice ==> twice[id] == ExpirePane(once[id], now);
  }

  lemma ExpiredQueue(pane: PaneAttention, now: nat)
    ensures ExpirePane(pane, now).unread == LiveSuffix(pane.unread, now)
    ensures LiveSuffix(pane.unread, now) != [] ==> !PaneCollectable(ExpirePane(pane, now), now)
  {
  }

  lemma SameTargetsAgain(call: Call)
    ensures SameTargets([call], [call, Call([], [])])
  {
    var b := [call, Call([], [])];
    assert b[..1] == [call];
    assert AllReceipts(b) == AllReceipts([call]) + [] && AllNotifs(b) == AllNotifs([call]) + [];
  }

  lemma TwoCalls(s: Ledger, call: Call, now: nat)
    ensures RunCalls(s, [call], now).panes == MarkPanes(Expire(s, now).panes, call.receipts, now)
    ensures RunCalls(s, [call, Call([], [])], now).panes == ExpirePanes(RunCalls(s, [call], now).panes, now)
  {
    hide ExpirePanes, ExpireNotifs, MarkNotifs, PaneViews, NotifViews;
    var b := [call, Call([], [])];
    assert b[..1] == [call] && [call][..0] == [];
  }

  lemma MarkAlone(panes: map<Id, PaneAttention>, r: Receipt, now: nat)
    requires r.paneId in panes
    ensures MarkPanes(panes, [r], now) == panes[r.paneId := MarkPane(panes[r.paneId], r.throughSeq, now)]
  {
    assert [r][..0] == [];
  }

  /** When calls reach the ledger in the order of their clock readings, no expired event hides behind a live one. */
  lemma HistoryMeansAllLive(pane: PaneAttention, h: UnreadHistory.History, touched: nat, now: nat)
    requires PaneOk(pane) && UnreadHistory.PaneRefines(pane, h, touched) && touched <= now
    ensures AllLive(LiveSuffix(pane.unread, now), now)
  {
    hide UnreadHistory.Cut;
    UnreadHistory.ExpireRefines(pane, h, touched, now);
    var p := ExpirePane(pane, now);
    var k := UnreadHistory.Cut(h, p.readThroughSeq, now);
    UnreadHistory.CutIs(h, p.readThroughSeq, now, k);
    forall i | 0 <= i < |p.unread|
      ensures !IsExpired(p.unread[i].occurredAt, UNREAD_TTL, now)
    {
      assert !UnreadHistory.Gone(h[k + i], p.readThroughSeq, now);
    }
  }

  /** When they do not, it can happen: the second event is stamped three days before the first. */
  lemma HiddenEventReachable()
    ensures var late := 3 * UNREAD_TTL;
            var ops := [AttentionRuns.OpRecordPane("p", late, Info, late), AttentionRuns.OpRecordPane("p", 0, Info, 0)];
            var s := AttentionRuns.Run("e", ops);
            "p" in s.panes && !AllLive(LiveSuffix(s.panes["p"].unread, UNREAD_TTL), UNREAD_TTL)
  {
    hide LiveSuffix;
    var late := 3 * UNREAD_TTL;
    var first, second := UnreadEvent(1, late, Info), UnreadEvent(2, 0, Info);
    var ops := [AttentionRuns.OpRecordPane("p", late, Info, late), AttentionRuns.OpRecordPane("p", 0, Info, 0)];
    assert ops[..1] == [AttentionRuns.OpRecordPane("p", late, Info, late)] && ops[..1][..0] == [];
    var s1 := AttentionRuns.Run("e", ops[..1]);
    assert AttentionRuns.Run("e", []) == InitialLedger("e");
    assert s1 == AttentionRuns.Step(InitialLedger("e"), ops[0]);
    FirstOf(InitialLedger("e"), "p", first, late);
    LeadingExpiredIsNone([first], 0);
    assert PushEvent(FRESH_PANE, first).unread == [first];
    NextOf(s1, "p", PushEvent(FRESH_PANE, first), second, 0);
    var unread := AttentionRuns.Run("e", ops).panes["p"].unread;
    assert unread == [first, second];
    LeadingExpiredIsNone(unread, UNREAD_TTL);
    assert IsExpired(unread[1].occurredAt, UNREAD_TTL, UNREAD_TTL);
  }

  lemma FirstOf(s: Ledger, id: Id, event: UnreadEvent, now: nat)
    requires s.panes == map[] && event.seqNo == s.nextEventSeq
    ensures RecordPane(s, id, event.occurredAt, event.severity, now).panes == map[id := PushEvent(FRESH_PANE, event)]
    ensures RecordPane(s, id, event.occurredAt, event.severity, now).nextEventSeq == s.nextEventSeq + 1
  {
    hide PushEvent;
    var panes := map[id := PushEvent(FRESH_PANE, event)];
    assert |panes| <= IDENTITY_CAP;
    assert Expire(s, now).panes == map[];
  }

  /** A second event for the only pane there is, whose queue expiry leaves alone. */
  lemma NextOf(s: Ledger, id: Id, pane: PaneAttention, event: UnreadEvent, now: nat)
    requires s.panes == map[id := pane] && event.seqNo == s.nextEventSeq
    requires pane.unread != [] && LiveSuffix(pane.unread, now) == pane.unread
    ensures RecordPane(s, id, event.occurredAt, event.severity, now).panes == map[id := PushEvent(pane, event)]
  {
    hide PushEvent, LiveSuffix;
    var panes := map[id := PushEvent(pane, event)];
    assert |panes| <= IDENTITY_CAP;
    assert ExpirePane(pane, now) == pane;
    assert Expire(s, now).panes == s.panes;
    assert s.panes[id := PushEvent(pane, event)] == panes;
  }

  /** A call whose targets are all refused, or that names another epoch, does no more than a sweep. */
  lemma {:induction false} RefusedHaveNoEffect(
    s: Ledger, epoch: string, receipts: seq<Receipt>, notifIds: seq<Id>, now: nat)
    requires epoch == s.epoch ==>
               && (forall r :: r in receipts ==> ReceiptStatus(Expire(s, now).panes, r) != Applied)
               && (forall id :: id in notifIds ==> id !in Expire(s, now).notifs)
    ensures MarkRead(s, epoch, receipts, notifIds, now) == Sweep(s, now)
  {
    hide ExpirePanes, ExpireNotifs, MarkPanes;
    if epoch == s.epoch {
      RefusedReceipts(Expire(s, now).panes, receipts, now);
    }
  }

  lemma {:induction false} RefusedReceipts(panes: map<Id, PaneAttention>, receipts: seq<Receipt>, now: nat)
    requires forall r :: r in receipts ==> ReceiptStatus(panes, r) != Applied
    ensures MarkPanes(panes, receipts, now) == panes
    decreases |receipts|
  {
    if receipts != [] {
      var init := receipts[..|receipts| - 1];
      assert forall r :: r in init ==> r in receipts;
      RefusedReceipts(panes, init, now);
      assert receipts[|receipts| - 1] in receipts;
    }
  }

  // ---- the answers ----

  /** The verdict on a receipt can be checked against the ledger after the call. */
  lemma PaneVerdictTrue(
    s: Ledger, log: Log, epoch: string, receipts: seq<Receipt>, notifIds: seq<Id>, now: nat, i: nat)
    requires Invariant(s, log) && i < |receipts|
    ensures var after := MarkRead(s, epoch, receipts, notifIds, now);
            var r := receipts[i];
            var result := Verdicts(s, epoch, receipts, notifIds, now)[i];
            && result.target == Pane(r.paneId)
            && (result.status == StaleEpoch <==> epoch != s.epoch)
            && (result.status == NotFound <==> epoch == s.epoch && r.paneId !in after.panes)
            && (result.status == Invalid <==>
                epoch == s.epoch && r.paneId in after.panes && r.throughSeq > after.panes[r.paneId].latestEventSeq)
            && (result.status == Applied <==> epoch == s.epoch && PaneShowsRead(after, r))
  {
    hide PanesOk, NotifsOk, ExpirePanes, ExpireNotifs, MarkNotifs, PaneViews, NotifViews, MarkPanes;
    var e := Expire(s, now);
    ExpireKeeps(s, log, now);
    if epoch == s.epoch {
      ReceiptShows(e.panes, log, receipts, now, receipts[i]);
    }
  }

  /** The pane is read at least up to the receipt. */
  predicate PaneShowsRead(s: Ledger, r: Receipt) {
    r.paneId in s.panes && r.throughSeq <= s.panes[r.paneId].readThroughSeq
  }

  predicate NotifShowsRead(s: Ledger, id: Id) {
    id in s.notifs && s.notifs[id].read
  }

  /** What the largest valid receipt does tells for each receipt whether it was applied. */
  lemma ReceiptShows(panes: map<Id, PaneAttention>, log: Log, receipts: seq<Receipt>, now: nat, r: Receipt)
    requires PanesOk(panes, log) && r in receipts
    ensures var after := MarkPanes(panes, receipts, now);
            && (r.paneId in after <==> r.paneId in panes)
            && (r.paneId in panes ==>
                  && after[r.paneId].latestEventSeq == panes[r.paneId].latestEventSeq
                  && (r.throughSeq <= after[r.paneId].readThroughSeq <==>
                      r.throughSeq <= panes[r.paneId].latestEventSeq))
  {
    hide PaneOk, PaneOwned, MarkPanes, MarkPane;
    MarkPanesKeeps(panes, log, receipts, now);
    if r.paneId in panes {
      var pane := panes[r.paneId];
      ReceiptsJoin(panes, log, receipts, now);
      LargestIsLargest(receipts, r.paneId, pane.latestEventSeq);
      MarkPaneKeeps(r.paneId, pane, log, Largest(receipts, r.paneId, pane.latestEventSeq), now);
      WatermarkBounded(MarkPanes(panes, receipts, now), log, r.paneId);
    }
  }

  lemma WatermarkBounded(panes: map<Id, PaneAttention>, log: Log, id: Id)
    requires PanesOk(panes, log) && id in panes
    ensures panes[id].readThroughSeq <= panes[id].latestEventSeq
  {
    assert PaneOk(panes[id]);
  }

  /** So can the verdict on a notification. */
  lemma NotifVerdictTrue(s: Ledger, epoch: string, receipts: seq<Receipt>, notifIds: seq<Id>, now: nat, i: nat)
    requires i < |notifIds|
    ensures var after := MarkRead(s, epoch, receipts, notifIds, now);
            var results := Verdicts(s, epoch, receipts, notifIds, now);
            && |results| == |receipts| + |notifIds|
            && results[|receipts| + i].target == Notif(notifIds[i])
            && (results[|receipts| + i].status == StaleEpoch <==> epoch != s.epoch)
            && (results[|receipts| + i].status == Applied <==> epoch == s.epoch && NotifShowsRead(after, notifIds[i]))
            && (results[|receipts| + i].status == NotFound <==> epoch == s.epoch && notifIds[i] !in after.notifs)
  {
    hide ExpirePanes, ExpireNotifs, MarkPanes, PaneViews, NotifViews;
    assert notifIds[i] in notifIds;
  }

  /**
   * `appliedAtRevision` is given exactly if the request names the ledger's epoch and one of its targets
   * shows as read afterwards; it is the revision that shows it. Every verdict on a request of another
   * epoch says so, and no verdict on a request of the ledger's epoch does.
   */
  lemma AppliedAtTrue(s: Ledger, log: Log, epoch: string, receipts: seq<Receipt>, notifIds: seq<Id>, now: nat)
    requires Invariant(s, log)
    ensures var after := MarkRead(s, epoch, receipts, notifIds, now);
            var results := Verdicts(s, epoch, receipts, notifIds, now);
            && |results| == |receipts| + |notifIds|
            && (forall i :: 0 <= i < |results| ==> (results[i].status == StaleEpoch <==> epoch != s.epoch))
            && (AppliedAt(after, results).Some? <==>
                && epoch == s.epoch
                && ((exists r :: r in receipts && PaneShowsRead(after, r))
                    || (exists id :: id in notifIds && NotifShowsRead(after, id))))
            && (AppliedAt(after, results).Some? ==> AppliedAt(after, results).value == after.revision)
  {
    hide Invariant, MarkRead, Verdicts, PaneShowsRead, NotifShowsRead;
    var after := MarkRead(s, epoch, receipts, notifIds, now);
    var results := Verdicts(s, epoch, receipts, notifIds, now);
    assert |results| == |receipts| + |notifIds| by { VerdictCount(s, epoch, receipts, notifIds, now); }
    forall i | 0 <= i < |results|
      ensures results[i].status == StaleEpoch <==> epoch != s.epoch
      ensures results[i].status == Applied <==>
              && epoch == s.epoch
              && if i < |receipts| then PaneShowsRead(after, receipts[i])
                 else NotifShowsRead(after, notifIds[i - |receipts|])
    {
      if i < |receipts| {
        PaneVerdictTrue(s, log, epoch, receipts, notifIds, now, i);
      } else {
        NotifVerdictTrue(s, epoch, receipts, notifIds, now, i - |receipts|);
      }
    }
    if epoch == s.epoch {
      if r :| r in receipts && PaneShowsRead(after, r) {
        var i :| 0 <= i < |receipts| && receipts[i] == r;
        assert results[i].status == Applied;
      }
      if id :| id in notifIds && NotifShowsRead(after, id) {
        var i :| 0 <= i < |notifIds| && notifIds[i] == id;
        assert results[|receipts| + i].status == Applied;
      }
    }
  }

  lemma VerdictCount(s: Ledger, epoch: string, receipts: seq<Receipt>, notifIds: seq<Id>, now: nat)
    ensures |Verdicts(s, epoch, receipts, notifIds, now)| == |receipts| + |notifIds|
  {
    hide ExpirePanes, ExpireNotifs;
  }
}
