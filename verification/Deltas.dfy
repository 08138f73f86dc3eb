/**
 * Lists of changes, one entry per identity, as the ledger sends them to its replicas.
 *
 * The source has two record types with the same shape, `PaneDelta` and `NotifDelta`. Each is only
 * ever built in two ways: with every field taken from the current state, or as a bare removal.
 * `Delta` keeps exactly these two ways: `Some(view)` and `None`.
 */
module Deltas {
  import opened Common

  datatype Delta<V> = Delta(id: Id, view: Option<V>)

  /** What a table shows for one identity; `None` when the identity is absent. */
  function Shown<V>(table: map<Id, V>, id: Id): Option<V> {
    if id in table then Some(table[id]) else None
  }

  predicate Lists<V(==)>(deltas: seq<Delta<V>>, id: Id) {
    exists i :: 0 <= i < |deltas| && deltas[i].id == id
  }

  predicate UniqueIds<V>(deltas: seq<Delta<V>>) {
    forall i, j :: 0 <= i < j < |deltas| ==> deltas[i].id != deltas[j].id
  }

  /**
   * The list carries a copy of `before` to `after`: no identity occurs twice, an entry shows the
   * final value, and an identity without an entry is the same in both.
   * Identities in `pending` still wait for their entry.
   */
  ghost predicate DescribesExcept<V(!new)>(
    deltas: seq<Delta<V>>, before: map<Id, V>, after: map<Id, V>, pending: set<Id>)
  {
    && UniqueIds(deltas)
    && (forall i :: 0 <= i < |deltas| && deltas[i].id !in pending ==> deltas[i].view == Shown(after, deltas[i].id))
    && (forall id :: id !in pending && !Lists(deltas, id) ==> Shown(before, id) == Shown(after, id))
  }

  ghost predicate Describes<V(!new)>(deltas: seq<Delta<V>>, before: map<Id, V>, after: map<Id, V>) {
    DescribesExcept(deltas, before, after, {})
  }

  /** Every listed identity shows something else than it did before. */
  ghost predicate Minimal<V>(deltas: seq<Delta<V>>, before: map<Id, V>, after: map<Id, V>) {
    forall i :: 0 <= i < |deltas| ==> Shown(before, deltas[i].id) != Shown(after, deltas[i].id)
  }

  /** Position of the first entry for `id` at or after `from`; the length if there is none. */
  function Position<V>(deltas: seq<Delta<V>>, id: Id, from: nat): (k: nat)
    requires from <= |deltas|
    ensures from <= k <= |deltas|
    ensures k < |deltas| ==> deltas[k].id == id
    ensures forall i :: from <= i < k ==> deltas[i].id != id
    decreases |deltas| - from
  {
    if from == |deltas| || deltas[from].id == id then from else Position(deltas, id, from + 1)
  }

  /** Replaces the first entry of the same identity in place, or appends. */
  function Upsert<V>(deltas: seq<Delta<V>>, delta: Delta<V>): (r: seq<Delta<V>>)
    ensures |deltas| <= |r| <= |deltas| + 1
    ensures UniqueIds(deltas) ==> UniqueIds(r)
    ensures forall id :: Lists(r, id) <==> Lists(deltas, id) || id == delta.id
    ensures UniqueIds(deltas) ==>
              forall i :: 0 <= i < |r| ==>
                  r[i] == if i == |deltas| || deltas[i].id == delta.id then delta else deltas[i]
  {
    var k := Position(deltas, delta.id, 0);
    var r := if k < |deltas| then deltas[k := delta] else deltas + [delta];
    assert r[k].id == delta.id;
    assert forall i :: 0 <= i < |deltas| ==> r[i].id == deltas[i].id;
    r
  }

  /** After an upsert the identity no longer waits for its entry, and it is the only one affected. */
  lemma UpsertSettles<V(!new)>(
    deltas: seq<Delta<V>>, before: map<Id, V>, mid: map<Id, V>, after: map<Id, V>, pending: set<Id>, id: Id)
    requires DescribesExcept(deltas, before, mid, pending)
    requires forall other :: other != id ==> Shown(mid, other) == Shown(after, other)
    ensures DescribesExcept(Upsert(deltas, Delta(id, Shown(after, id))), before, after, pending - {id})
  {
    var delta := Delta(id, Shown(after, id));
    var r := Upsert(deltas, delta);
    forall i | 0 <= i < |r| && r[i].id !in pending - {id}
      ensures r[i].view == Shown(after, r[i].id)
    {
      if r[i] != delta {
        assert deltas[i].view == Shown(mid, deltas[i].id);
      }
    }
  }

  /** Gives every listed identity its final entry, in order. */
  method UpsertAll<V(!new)>(
    deltas: seq<Delta<V>>, ids: seq<Id>, table: map<Id, V>, ghost before: map<Id, V>, ghost pending: set<Id>)
    returns (r: seq<Delta<V>>)
    requires DescribesExcept(deltas, before, table, pending)
    ensures DescribesExcept(r, before, table, pending - Elements(ids))
    ensures forall id :: Lists(r, id) <==> Lists(deltas, id) || id in ids
  {
    hide DescribesExcept;
    r := deltas;
    assert pending - Elements(ids[..0]) == pending;
    for i := 0 to |ids|
      invariant DescribesExcept(r, before, table, pending - Elements(ids[..i]))
      invariant forall id :: Lists(r, id) <==> Lists(deltas, id) || id in ids[..i]
    {
      var next := Upsert(r, Delta(ids[i], Shown(table, ids[i])));
      UpsertSettles(r, before, table, table, pending - Elements(ids[..i]), ids[i]);
      assert ids[..i + 1] == ids[..i] + [ids[i]];
      assert pending - Elements(ids[..i]) - {ids[i]} == pending - Elements(ids[..i + 1]);
      r := next;
    }
    assert ids[..|ids|] == ids;
  }

  /** A list is minimal if every listed identity is among some that really changed. */
  lemma MinimalWithin<V(!new)>(deltas: seq<Delta<V>>, before: map<Id, V>, after: map<Id, V>, changed: set<Id>)
    requires forall id :: Lists(deltas, id) ==> id in changed
    requires forall id :: id in changed ==> Shown(before, id) != Shown(after, id)
    ensures Minimal(deltas, before, after)
  {
    assert forall i :: 0 <= i < |deltas| ==> Lists(deltas, deltas[i].id);
  }

  /** Extends a minimal list by further identities that changed. */
  method ListAlso<V(!new)>(
    deltas: seq<Delta<V>>, changed: seq<Id>, table: map<Id, V>, ghost before: map<Id, V>, ghost mid: map<Id, V>)
    returns (r: seq<Delta<V>>)
    requires Describes(deltas, before, mid) && Minimal(deltas, before, mid)
    requires forall id :: id !in changed ==> Shown(mid, id) == Shown(table, id)
    requires forall id :: id in changed ==> Shown(before, id) != Shown(table, id)
    ensures Describes(r, before, table) && Minimal(r, before, table)
  {
    ghost var listed := set i | 0 <= i < |deltas| :: deltas[i].id;
    assert forall id :: Lists(deltas, id) ==> id in listed;
    assert forall id :: id in listed ==> Lists(deltas, id) && Shown(before, id) != Shown(mid, id);
    r := UpsertAll(deltas, changed, table, before, Elements(changed));
    assert Elements(changed) - Elements(changed) == {};
    MinimalWithin(r, before, table, listed + Elements(changed));
  }

  /** Applies the entries one by one, as a replica does. */
  function Apply<V>(table: map<Id, V>, deltas: seq<Delta<V>>): map<Id, V>
    decreases |deltas|
  {
    if deltas == [] then table
    else
      var d := deltas[0];
      Apply(if d.view.Some? then table[d.id := d.view.value] else table - {d.id}, deltas[1..])
  }

  lemma {:induction false} ApplyShows<V(!new)>(table: map<Id, V>, deltas: seq<Delta<V>>, id: Id)
    requires UniqueIds(deltas)
    ensures forall i :: 0 <= i < |deltas| && deltas[i].id == id ==> Shown(Apply(table, deltas), id) == deltas[i].view
    ensures !Lists(deltas, id) ==> Shown(Apply(table, deltas), id) == Shown(table, id)
    decreases |deltas|
  {
    if deltas != [] {
      var d := deltas[0];
      var next := if d.view.Some? then table[d.id := d.view.value] else table - {d.id};
      ApplyShows(next, deltas[1..], id);
      assert forall i :: 0 < i < |deltas| ==> deltas[i] == deltas[1..][i - 1];
      if Lists(deltas[1..], id) {
        var i :| 0 <= i < |deltas[1..]| && deltas[1..][i].id == id;
        assert deltas[i + 1].id == id;
      }
    }
  }

  /** A replica that held `before` holds exactly `after` once it has applied the list. */
  lemma ApplyDescribed<V(!new)>(deltas: seq<Delta<V>>, before: map<Id, V>, after: map<Id, V>)
    requires Describes(deltas, before, after)
    ensures Apply(before, deltas) == after
  {
    var result := Apply(before, deltas);
    forall id
      ensures Shown(result, id) == Shown(after, id)
    {
      ApplyShows(before, deltas, id);
    }
    SameShownSameTable(result, after);
  }

  /** A copy of some other table comes out right iff it agrees with `before` on every identity that is not listed. */
  lemma ApplyElsewhere<V(!new)>(deltas: seq<Delta<V>>, copy: map<Id, V>, before: map<Id, V>, after: map<Id, V>)
    requires Describes(deltas, before, after)
    ensures Apply(copy, deltas) == after <==>
            forall id :: !Lists(deltas, id) ==> Shown(copy, id) == Shown(before, id)
  {
    var result := Apply(copy, deltas);
    forall id
      ensures Lists(deltas, id) ==> Shown(result, id) == Shown(after, id)
      ensures !Lists(deltas, id) ==> Shown(result, id) == Shown(copy, id) && Shown(before, id) == Shown(after, id)
    {
      ApplyShows(copy, deltas, id);
    }
    if forall id :: !Lists(deltas, id) ==> Shown(copy, id) == Shown(before, id) {
      SameShownSameTable(result, after);
    }
  }

  lemma SameShownSameTable<V(!new)>(a: map<Id, V>, b: map<Id, V>)
    requires forall id :: Shown(a, id) == Shown(b, id)
    ensures a == b
  {
    forall id
      ensures id in a <==> id in b
      ensures id in a && id in b ==> a[id] == b[id]
    {
      assert Shown(a, id) == Shown(b, id);
    }
  }

  /** An empty minimal list is the same thing as an unchanged table. */
  lemma EmptyIffUnchanged<V(!new)>(deltas: seq<Delta<V>>, before: map<Id, V>, after: map<Id, V>)
    requires Describes(deltas, before, after) && Minimal(deltas, before, after)
    ensures deltas == [] <==> before == after
  {
    if deltas == [] {
      ApplyDescribed(deltas, before, after);
    } else {
      assert Shown(before, deltas[0].id) != Shown(after, deltas[0].id);
    }
  }
}
