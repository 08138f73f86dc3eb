/**
 * The unread queues against a simpler machine that never forgets an event.
 *
 * For each pane identity the simple machine keeps the list of all its events since the identity was
 * created. The queue of the ledger is then a suffix of that list, and the cut is determined by three
 * counts alone: how many events exceed the cap, how many were read, and how many had expired.
 */
module UnreadHistory {
  import opened Common
  import opened AttentionTypes
  import opened AttentionSpec
  import opened AttentionInvariant
  import opened AttentionRuns
  import Eviction

  type History = seq<UnreadEvent>

  /** Number of events among the first `n` at or below the watermark. */
  function CountRead(h: History, watermark: nat, n: nat): (c: nat)
    requires n <= |h|
    ensures c <= n
  {
    if n == 0 then 0
    else CountRead(h, watermark, n - 1) + if h[n - 1].seqNo <= watermark then 1 else 0
  }

  /** Number of events among the first `n` that have expired at `now`. */
  function CountExpired(h: History, now: nat, n: nat): (c: nat)
    requires n <= |h|
    ensures c <= n
  {
    if n == 0 then 0
    else CountExpired(h, now, n - 1) + if IsExpired(h[n - 1].occurredAt, UNREAD_TTL, now) then 1 else 0
  }

  /** Where the queue starts within the history. */
  function Cut(h: History, watermark: nat, touched: nat): (k: nat)
    ensures k <= |h|
  {
    Max(|h| - UNREAD_CAP, Max(CountRead(h, watermark, |h|), CountExpired(h, touched, |h|)))
  }

  /** Events in the order they happened, none later than `now`. */
  ghost predicate Ordered(h: History, now: nat) {
    && (forall i, j :: 0 <= i < j < |h| ==> h[i].seqNo < h[j].seqNo && h[i].occurredAt <= h[j].occurredAt)
    && (forall i :: 0 <= i < |h| ==> h[i].occurredAt <= now)
  }

  ghost predicate PaneRefines(pane: PaneAttention, h: History, touched: nat) {
    && h != [] && Ordered(h, touched)
    && pane.latestEventSeq == h[|h| - 1].seqNo
    && pane.unread == h[Cut(h, pane.readThroughSeq, touched)..]
  }

  /** In an ordered history the events read, and the events expired, are exactly the leading ones. */
  lemma {:induction false} CountReadIsPrefix(h: History, watermark: nat, now: nat, n: nat)
    requires n <= |h| && Ordered(h, now)
    ensures forall i :: 0 <= i < n ==> (h[i].seqNo <= watermark <==> i < CountRead(h, watermark, n))
  {
    if n > 0 {
      CountReadIsPrefix(h, watermark, now, n - 1);
    }
  }

  lemma {:induction false} CountExpiredIsPrefix(h: History, touched: nat, now: nat, n: nat)
    requires n <= |h| && Ordered(h, touched)
    ensures forall i :: 0 <= i < n ==> (IsExpired(h[i].occurredAt, UNREAD_TTL, now) <==> i < CountExpired(h, now, n))
  {
    if n > 0 {
      CountExpiredIsPrefix(h, touched, now, n - 1);
    }
  }

  predicate Gone(e: UnreadEvent, watermark: nat, now: nat) {
    e.seqNo <= watermark || IsExpired(e.occurredAt, UNREAD_TTL, now)
  }

  /** The cut without counting: all that is left is live, and what was cut last was cut for a reason. */
  ghost predicate IsCut(h: History, watermark: nat, now: nat, k: nat) {
    && |h| - UNREAD_CAP <= k <= |h|
    && (forall i :: k <= i < |h| ==> !Gone(h[i], watermark, now))
    && (0 < k && |h| - UNREAD_CAP < k ==> Gone(h[k - 1], watermark, now))
  }

  lemma CutIs(h: History, watermark: nat, now: nat, k: nat)
    requires Ordered(h, now)
    ensures IsCut(h, watermark, now, k) <==> k == Cut(h, watermark, now)
  {
    hide Ordered, IsExpired, CountRead, CountExpired;
    CountReadIsPrefix(h, watermark, now, |h|);
    CountExpiredIsPrefix(h, now, now, |h|);
    var m := Max(CountRead(h, watermark, |h|), CountExpired(h, now, |h|));
    assert forall i :: 0 <= i < |h| ==> (Gone(h[i], watermark, now) <==> i < m);
    if IsCut(h, watermark, now, k) {
      if k < |h| {
        assert !Gone(h[k], watermark, now);
      }
      assert 0 < k && |h| - UNREAD_CAP < k ==> Gone(h[k - 1], watermark, now);
    }
  }

  /** A cut moves on past events that are gone now. */
  lemma CutMoves(h: History, watermark: nat, now: nat, k: nat, watermark': nat, now': nat, k': nat)
    requires IsCut(h, watermark, now, k) && watermark <= watermark' && now <= now' && k <= k' <= |h|
    requires forall i :: k <= i < k' ==> Gone(h[i], watermark', now')
    requires forall i :: k' <= i < |h| ==> !Gone(h[i], watermark', now')
    ensures IsCut(h, watermark', now', k')
  {
    assert k == k' && 0 < k ==> Gone(h[k - 1], watermark, now) ==> Gone(h[k - 1], watermark', now');
  }

  /** Events after a live one are live: they happened later. */
  lemma LaterIsLive(h: History, touched: nat, now: nat, j: nat)
    requires Ordered(h, touched) && j < |h| && !IsExpired(h[j].occurredAt, UNREAD_TTL, now)
    ensures forall i :: j <= i < |h| ==> !IsExpired(h[i].occurredAt, UNREAD_TTL, now)
  {
  }

  lemma LaterIsUnread(h: History, touched: nat, watermark: nat, j: nat)
    requires Ordered(h, touched) && j < |h| && h[j].seqNo > watermark
    ensures forall i :: j <= i < |h| ==> h[i].seqNo > watermark
  {
  }

  lemma ExpiredCut(h: History, watermark: nat, touched: nat, k: nat, now: nat)
    requires Ordered(h, touched) && IsCut(h, watermark, touched, k) && touched <= now
    ensures IsCut(h, watermark, now, k + LeadingExpired(h[k..], now, 0))
  {
    hide Ordered;
    var queue := h[k..];
    var k' := k + LeadingExpired(queue, now, 0);
    forall i | k <= i < k'
      ensures Gone(h[i], watermark, now)
    {
      assert h[i] == queue[i - k];
    }
    if k' < |h| {
      assert h[k'] == queue[k' - k];
      LaterIsLive(h, touched, now, k');
    }
    forall i | k' <= i < |h|
      ensures !Gone(h[i], watermark, now)
    {
      assert !Gone(h[i], watermark, touched);
    }
    CutMoves(h, watermark, touched, k, watermark, now, k');
  }

  lemma ReadCut(h: History, watermark: nat, now: nat, k: nat, watermark': nat)
    requires Ordered(h, now) && IsCut(h, watermark, now, k) && watermark <= watermark'
    ensures IsCut(h, watermark', now, k + LeadingRead(h[k..], watermark', 0))
  {
    hide Ordered, IsExpired;
    var queue := h[k..];
    var k' := k + LeadingRead(queue, watermark', 0);
    forall i | k <= i < k'
      ensures Gone(h[i], watermark', now)
    {
      assert h[i] == queue[i - k];
    }
    if k' < |h| {
      assert h[k'] == queue[k' - k];
      LaterIsUnread(h, now, watermark', k');
    }
    forall i | k' <= i < |h|
      ensures !Gone(h[i], watermark', now)
    {
      assert !Gone(h[i], watermark, now);
    }
    CutMoves(h, watermark, now, k, watermark', now, k');
  }

  /** Emptying a queue raises the watermark to the latest event; the cut is then at the very end. */
  lemma SettleRefines(pane: PaneAttention, h: History, k: nat, now: nat)
    requires h != [] && Ordered(h, now) && IsCut(h, pane.readThroughSeq, now, k)
    requires pane.latestEventSeq == h[|h| - 1].seqNo && pane.readThroughSeq <= pane.latestEventSeq
    requires pane.unread == [] ==> k == |h| && pane.readThroughSeq == pane.latestEventSeq
    ensures PaneRefines(Settle(pane, h[k..], now), h, now)
  {
    hide Ordered, IsExpired, Cut;
    var p := Settle(pane, h[k..], now);
    if p.readThroughSeq != pane.readThroughSeq {
      CutMoves(h, pane.readThroughSeq, now, k, p.readThroughSeq, now, |h|);
    }
    CutIs(h, p.readThroughSeq, now, k);
  }

  lemma OrderedLater(h: History, touched: nat, now: nat)
    requires Ordered(h, touched) && touched <= now
    ensures Ordered(h, now)
  {
  }

  /** Expiry at a later time: the queue is again the history from the cut on. */
  lemma ExpireRefines(pane: PaneAttention, h: History, touched: nat, now: nat)
    requires PaneOk(pane) && PaneRefines(pane, h, touched) && touched <= now
    ensures PaneRefines(ExpirePane(pane, now), h, now)
  {
    hide Cut, IsCut, QueueOk, Settle, IsExpired, LeadingExpired;
    var k := Cut(h, pane.readThroughSeq, touched);
    CutIs(h, pane.readThroughSeq, touched, k);
    assert Ordered(h, now) by { OrderedLater(h, touched, now); }
    hide Ordered;
    ExpiredCut(h, pane.readThroughSeq, touched, k, now);
    var m := LeadingExpired(pane.unread, now, 0);
    assert pane.unread[m..] == h[k + m..];
    SettleRefines(pane, h, k + m, now);
  }

  lemma MarkRefines(pane: PaneAttention, h: History, throughSeq: nat, now: nat)
    requires PaneOk(pane) && PaneRefines(pane, h, now)
    ensures PaneRefines(MarkPane(pane, throughSeq, now), h, now)
  {
    hide Cut, IsCut, Ordered, QueueOk;
    if throughSeq <= pane.latestEventSeq {
      var k := Cut(h, pane.readThroughSeq, now);
      CutIs(h, pane.readThroughSeq, now, k);
      var watermark := Max(pane.readThroughSeq, throughSeq);
      ReadCut(h, pane.readThroughSeq, now, k, watermark);
      var m := LeadingRead(pane.unread, watermark, 0);
      assert pane.unread[m..] == h[k + m..];
      SettleRefines(pane.(readThroughSeq := watermark), h, k + m, now);
    }
  }

  lemma LongerCut(h: History, event: UnreadEvent, watermark: nat, now: nat, k: nat)
    requires IsCut(h, watermark, now, k) && !Gone(event, watermark, now)
    ensures IsCut(h + [event], watermark, now, Max(k, |h| + 1 - UNREAD_CAP))
  {
    hide Gone;
    var longer := h + [event];
    var k' := Max(k, |longer| - UNREAD_CAP);
    assert forall i :: k' <= i < |h| ==> longer[i] == h[i];
    assert 0 < k ==> longer[k - 1] == h[k - 1];
  }

  lemma LongerOrdered(h: History, event: UnreadEvent, now: nat)
    requires Ordered(h, now) && event.occurredAt == now && (h != [] ==> h[|h| - 1].seqNo < event.seqNo)
    ensures Ordered(h + [event], now)
  {
    var longer := h + [event];
    assert forall i :: 0 <= i < |h| ==> longer[i] == h[i] && h[i].seqNo <= h[|h| - 1].seqNo;
  }

  lemma PushedQueue(h: History, event: UnreadEvent, k: nat)
    requires |h| - UNREAD_CAP <= k <= |h|
    ensures KeepNewest(h[k..] + [event]) == (h + [event])[Max(k, |h| + 1 - UNREAD_CAP)..]
  {
    assert h[k..] + [event] == (h + [event])[k..];
  }

  /** A new event, stamped with the current time, extends history and queue alike; the cap cuts both alike. */
  lemma PushRefines(pane: PaneAttention, h: History, event: UnreadEvent, now: nat)
    requires (pane == FRESH_PANE && h == []) || PaneRefines(pane, h, now)
    requires event.occurredAt == now && pane.latestEventSeq < event.seqNo && pane.readThroughSeq < event.seqNo
    ensures PaneRefines(PushEvent(pane, event), h + [event], now)
  {
    hide Cut, Ordered, KeepNewest;
    assert Ordered(h, now) by { assert h == [] ==> Ordered([], now) by { EmptyOrdered(now); } }
    var k := Cut(h, pane.readThroughSeq, now);
    CutIs(h, pane.readThroughSeq, now, k);
    LongerCut(h, event, pane.readThroughSeq, now, k);
    LongerOrdered(h, event, now);
    PushedQueue(h, event, k);
    CutIs(h + [event], pane.readThroughSeq, now, Max(k, |h| + 1 - UNREAD_CAP));
  }

  lemma EmptyOrdered(now: nat)
    ensures Ordered([], now)
  {
  }

  // ---- whole runs ----

  type Histories = map<Id, History>

  /** What the simple machine does: append to the identity's list, forget lists of identities that are gone. */
  ghost function StepHistories(hs: Histories, s: Ledger, op: Op): Histories {
    var s' := Step(s, op);
    map id | id in s'.panes ::
      var kept := if id in hs && id in Expire(s, op.now).panes then hs[id] else [];
      if op.OpRecordPane? && op.id == id then kept + [UnreadEvent(s.nextEventSeq, op.occurredAt, op.severity)]
      else if id in hs then hs[id]
      else []
  }

  ghost function RunHistories(epoch: string, ops: seq<Op>): Histories {
    if ops == [] then map[]
    else StepHistories(RunHistories(epoch, ops[..|ops| - 1]), Run(epoch, ops[..|ops| - 1]), ops[|ops| - 1])
  }

  /**
   * Operations come in the order of their clock readings, and events are stamped with the reading, as all
   * callers do.
   */
  ghost predicate Timely(ops: seq<Op>) {
    && (forall i, j :: 0 <= i < j < |ops| ==> ops[i].now <= ops[j].now)
    && (forall i :: 0 <= i < |ops| && ops[i].OpRecordPane? ==> ops[i].occurredAt == ops[i].now)
  }

  /** The last time at which queues were touched. */
  function LastTouch(ops: seq<Op>): nat {
    if ops == [] then 0
    else if ops[|ops| - 1].OpReserve? || ops[|ops| - 1].OpComplete? then LastTouch(ops[..|ops| - 1])
    else ops[|ops| - 1].now
  }

  ghost predicate PanesRefine(panes: map<Id, PaneAttention>, hs: Histories, touched: nat) {
    panes.Keys == hs.Keys && forall id :: id in panes ==> PaneRefines(panes[id], hs[id], touched)
  }

  lemma ExpireAllRefine(s: Ledger, log: Log, hs: Histories, touched: nat, now: nat)
    requires Invariant(s, log) && PanesRefine(s.panes, hs, touched) && touched <= now
    ensures var e := Expire(s, now);
            e.panes.Keys <= hs.Keys && forall id :: id in e.panes ==> PaneRefines(e.panes[id], hs[id], now)
  {
    hide PaneRefines, ExpirePane, PaneCollectable;
    var e := Expire(s, now);
    forall id | id in e.panes
      ensures PaneRefines(e.panes[id], hs[id], now)
    {
      ExpireRefines(s.panes[id], hs[id], touched, now);
    }
  }

  lemma {:induction false} MarksRefine(
    panes: map<Id, PaneAttention>, log: Log, hs: Histories, receipts: seq<Receipt>, now: nat)
    requires PanesOk(panes, log) && panes.Keys <= hs.Keys
    requires forall id :: id in panes ==> PaneRefines(panes[id], hs[id], now)
    ensures var m := MarkPanes(panes, receipts, now);
            m.Keys == panes.Keys && forall id :: id in m ==> PaneRefines(m[id], hs[id], now)
    decreases |receipts|
  {
    hide PaneRefines, MarkPane, PaneOwned, PaneOk;
    if receipts != [] {
      var init := receipts[..|receipts| - 1];
      var r := receipts[|receipts| - 1];
      MarksRefine(panes, log, hs, init, now);
      MarkPanesKeeps(panes, log, init, now);
      var before := MarkPanes(panes, init, now);
      if r.paneId in before {
        MarkRefines(before[r.paneId], hs[r.paneId], r.throughSeq, now);
      }
    }
  }

  /** One operation keeps every queue a suffix of its history. */
  lemma StepRefines(s: Ledger, log: Log, hs: Histories, touched: nat, op: Op)
    requires Invariant(s, log) && PanesRefine(s.panes, hs, touched) && touched <= op.now
    requires op.OpRecordPane? ==> op.occurredAt == op.now
    ensures var touched' := if op.OpReserve? || op.OpComplete? then touched else op.now;
            PanesRefine(Step(s, op).panes, StepHistories(hs, s, op), touched')
  {
    hide PaneRefines, ExpirePanes, MarkPanes, PushEvent, PanesOk, NotifsOk;
    ExpireAllRefine(s, log, hs, touched, op.now);
    ExpireKeeps(s, log, op.now);
    match op
    case OpRecordPane(id, _, _, _) => RecordRefines(s, log, hs, touched, op);
    case OpMarkRead(_, receipts, _, now) => MarksRefine(Expire(s, now).panes, log, hs, receipts, now);
    case _ =>
  }

  lemma RecordRefines(s: Ledger, log: Log, hs: Histories, touched: nat, op: Op)
    requires Invariant(s, log) && PanesRefine(s.panes, hs, touched) && touched <= op.now
    requires op.OpRecordPane? && op.occurredAt == op.now
    ensures PanesRefine(Step(s, op).panes, StepHistories(hs, s, op), op.now)
  {
    hide PaneRefines, ExpirePanes, ExpireNotifs, PushEvent, Invariant, Eviction.PaneVictim;
    var now := op.now;
    ExpireAllRefine(s, log, hs, touched, now);
    ExpireKeeps(s, log, now);
    var e := Expire(s, now);
    var event := UnreadEvent(s.nextEventSeq, now, op.severity);
    var pane := if op.id in e.panes then e.panes[op.id] else FRESH_PANE;
    var h := if op.id in e.panes then hs[op.id] else [];
    assert pane.latestEventSeq < event.seqNo && pane.readThroughSeq < event.seqNo by {
      BelowNext(e, log, op.id);
    }
    PushRefines(pane, h, event, now);
    assert Step(s, op).panes.Keys <= e.panes.Keys + {op.id};
  }

  lemma BelowNext(e: Ledger, log: Log, id: Id)
    requires Invariant(e, log)
    ensures e.nextEventSeq > 0
    ensures id in e.panes ==> e.panes[id].readThroughSeq <= e.panes[id].latestEventSeq < e.nextEventSeq
  {
    if id in e.panes {
      assert PaneOk(e.panes[id]) && PaneOwned(id, e.panes[id], log);
    }
  }

  /**
   * The queue refines the history: after any run whose operations come in time order, each pane's queue
   * is its full event list since the identity was created, less the longest of three prefixes: what
   * exceeds the cap, what was read, and what had expired when queues were last touched.
   */
  lemma {:induction false} QueuesRefineHistory(epoch: string, ops: seq<Op>)
    requires Timely(ops)
    ensures PanesRefine(Run(epoch, ops).panes, RunHistories(epoch, ops), LastTouch(ops))
    ensures ops != [] ==> LastTouch(ops) <= ops[|ops| - 1].now
    decreases |ops|
  {
    hide PanesRefine, Step, StepHistories, Invariant;
    if ops == [] {
      assert PanesRefine(map[], map[], 0) by { NothingRefines(); }
    } else {
      var init := ops[..|ops| - 1];
      QueuesRefineHistory(epoch, init);
      InvariantHolds(epoch, init);
      StepRefines(Run(epoch, init), RunLog(init), RunHistories(epoch, init), LastTouch(init), ops[|ops| - 1]);
    }
  }

  lemma NothingRefines()
    ensures PanesRefine(map[], map[], 0)
  {
  }

  /**
   * Hence `first_unread_at` is the time of the oldest event that is neither read, nor expired, nor over the
   * cap, and there is none exactly when every event is one of these. No expired event is left.
   */
  lemma FirstUnreadExact(pane: PaneAttention, h: History, touched: nat)
    requires PaneRefines(pane, h, touched)
    ensures FirstUnreadAt(pane) == None <==>
            forall i :: Max(0, |h| - UNREAD_CAP) <= i < |h| ==> Gone(h[i], pane.readThroughSeq, touched)
    ensures forall i: nat :: FirstUnread(pane, h, touched, i) ==> FirstUnreadAt(pane) == Some(h[i].occurredAt)
    ensures forall j :: 0 <= j < |pane.unread| ==> !IsExpired(pane.unread[j].occurredAt, UNREAD_TTL, touched)
  {
    hide Cut, Ordered, Gone;
    var k := Cut(h, pane.readThroughSeq, touched);
    CutIs(h, pane.readThroughSeq, touched, k);
    if k < |h| {
      assert pane.unread[0] == h[k];
    } else {
      forall i | Max(0, |h| - UNREAD_CAP) <= i < |h|
        ensures Gone(h[i], pane.readThroughSeq, touched)
      {
        EarlierIsGone(h, touched, pane.readThroughSeq, i, |h| - 1);
      }
    }
    forall i: nat | FirstUnread(pane, h, touched, i)
      ensures FirstUnreadAt(pane) == Some(h[i].occurredAt)
    {
      FirstUnreadIs(pane, h, touched, i);
    }
    forall j | 0 <= j < |pane.unread|
      ensures !IsExpired(pane.unread[j].occurredAt, UNREAD_TTL, touched)
    {
      NotGoneIsLive(h, pane.readThroughSeq, touched, k + j);
    }
  }

  /** Position `i` holds the oldest event that is neither read, nor expired, nor over the cap. */
  ghost predicate FirstUnread(pane: PaneAttention, h: History, touched: nat, i: nat) {
    && Max(0, |h| - UNREAD_CAP) <= i < |h| && !Gone(h[i], pane.readThroughSeq, touched)
    && forall j :: Max(0, |h| - UNREAD_CAP) <= j < i ==> Gone(h[j], pane.readThroughSeq, touched)
  }

  lemma NotGoneIsLive(h: History, watermark: nat, now: nat, i: nat)
    requires i < |h| && !Gone(h[i], watermark, now)
    ensures !IsExpired(h[i].occurredAt, UNREAD_TTL, now)
  {
  }

  lemma EarlierIsGone(h: History, touched: nat, watermark: nat, i: nat, j: nat)
    requires Ordered(h, touched) && i <= j < |h| && Gone(h[j], watermark, touched)
    ensures Gone(h[i], watermark, touched)
  {
  }

  lemma FirstUnreadIs(pane: PaneAttention, h: History, touched: nat, i: nat)
    requires PaneRefines(pane, h, touched) && FirstUnread(pane, h, touched, i)
    ensures FirstUnreadAt(pane) == Some(h[i].occurredAt)
  {
    hide Cut, Ordered;
    var k := Cut(h, pane.readThroughSeq, touched);
    CutIs(h, pane.readThroughSeq, touched, k);
    LaterIsLive(h, touched, touched, i);
    LaterIsUnread(h, touched, pane.readThroughSeq, i);
    assert k < |h| ==> !Gone(h[k], pane.readThroughSeq, touched);
  }
}
