/** The identity caps: `enforce_identity_caps` of `src/attention/ledger.rs`. */
module Eviction {
  import opened Common
  import opened AttentionTypes

  /** What identities are ordered by: a time, then an event number, then the identifier. */
  datatype Rank = Rank(time: nat, seqNo: nat, id: Id)

  predicate RankLess(a: Rank, b: Rank) {
    a.time < b.time || (a.time == b.time && (a.seqNo < b.seqNo || (a.seqNo == b.seqNo && StringLess(a.id, b.id))))
  }

  /** Fully read panes rank by when they were read, unread ones by their oldest unread event. */
  function PaneRank(id: Id, pane: PaneAttention): Rank {
    if pane.unread == []
    then Rank(if pane.readAt.Some? then pane.readAt.value else 0, pane.latestEventSeq, id)
    else Rank(pane.unread[0].occurredAt, pane.unread[0].seqNo, id)
  }

  function NotifRank(id: Id, notif: NotifAttention): Rank {
    Rank(if !notif.read then notif.occurredAt else if notif.readAt.Some? then notif.readAt.value else 0,
         notif.eventSeq, id)
  }

  /** Fully read identities if there are any, otherwise all of them. */
  function PaneCandidates(panes: map<Id, PaneAttention>): set<Id> {
    var read := set id | id in panes && panes[id].unread == [];
    if read != {} then read else panes.Keys
  }

  function NotifCandidates(notifs: map<Id, NotifAttention>): set<Id> {
    var read := set id | id in notifs && notifs[id].read;
    if read != {} then read else notifs.Keys
  }

  /** `victim` has the least rank among the candidates. */
  predicate Least(candidates: set<Id>, rank: map<Id, Rank>, victim: Id)
    requires candidates <= rank.Keys
  {
    victim in candidates && forall other :: other in candidates && other != victim ==>
        RankLess(rank[victim], rank[other])
  }

  function PaneRanks(panes: map<Id, PaneAttention>): map<Id, Rank> {
    map id | id in panes :: PaneRank(id, panes[id])
  }

  function NotifRanks(notifs: map<Id, NotifAttention>): map<Id, Rank> {
    map id | id in notifs :: NotifRank(id, notifs[id])
  }

  predicate PaneVictim(panes: map<Id, PaneAttention>, id: Id) {
    Least(PaneCandidates(panes), PaneRanks(panes), id)
  }

  predicate NotifVictim(notifs: map<Id, NotifAttention>, id: Id) {
    Least(NotifCandidates(notifs), NotifRanks(notifs), id)
  }

  /** Event numbers, which decide ties between equal times, are all different. */
  predicate DistinctSeqs(rank: map<Id, Rank>) {
    forall a, b :: a in rank && b in rank && a != b ==> rank[a].seqNo != rank[b].seqNo
  }

  lemma {:induction false} LeastExists(candidates: set<Id>, rank: map<Id, Rank>)
    requires candidates != {} && candidates <= rank.Keys && DistinctSeqs(rank)
    ensures exists v :: v in candidates && Least(candidates, rank, v)
    decreases |candidates|
  {
    var x :| x in candidates;
    var rest := candidates - {x};
    if rest == {} {
      assert candidates == {x};
      assert x in candidates && Least(candidates, rank, x);
    } else {
      LeastExists(rest, rank);
      var v :| v in rest && Least(rest, rank, v);
      var best := if RankLess(rank[v], rank[x]) then v else x;
      assert best in candidates && Least(candidates, rank, best);
    }
  }

  /** The victim is a function of the table: iteration order cannot matter. */
  lemma LeastUnique(candidates: set<Id>, rank: map<Id, Rank>, v: Id, w: Id)
    requires candidates <= rank.Keys && DistinctSeqs(rank)
    requires Least(candidates, rank, v) && Least(candidates, rank, w)
    ensures v == w
  {
    assert v != w ==> RankLess(rank[v], rank[w]);
  }

  /** `min_by` over a hash table, which may yield its entries in any order. */
  method MinBy(candidates: set<Id>, rank: map<Id, Rank>) returns (best: Id)
    requires candidates != {} && candidates <= rank.Keys && DistinctSeqs(rank)
    ensures best in candidates && Least(candidates, rank, best)
  {
    best :| best in candidates;
    var rest := candidates - {best};
    while rest != {}
      invariant rest <= candidates && best in candidates && best !in rest
      invariant Least(candidates - rest, rank, best)
      decreases |rest|
    {
      var id :| id in rest;
      if RankLess(rank[id], rank[best]) {
        best := id;
      }
      rest := rest - {id};
    }
    assert candidates - rest == candidates;
  }

  /** The table after eviction, if it had grown one past the cap. */
  ghost function CapPanes(panes: map<Id, PaneAttention>): map<Id, PaneAttention> {
    if |panes| > IDENTITY_CAP && exists v :: PaneVictim(panes, v)
    then var v :| PaneVictim(panes, v); panes - {v}
    else panes
  }

  ghost function CapNotifs(notifs: map<Id, NotifAttention>): map<Id, NotifAttention> {
    if |notifs| > IDENTITY_CAP && exists v :: NotifVictim(notifs, v)
    then var v :| NotifVictim(notifs, v); notifs - {v}
    else notifs
  }
}
