/** The three ways the tracker page changes its list of transactions, as the
    new list value each handler computes: delete by identifier, create with the
    next identifier, and update of the record being edited. */
module Ledger {

  import opened Sequences
  import opened Records

  /** The test `handleDelete` passes to `filter`: the record is not the one deleted. */
  function Survives(id: int): Transaction -> bool
  {
    (t: Transaction) => t.id != id
  }

  /** The list `handleDelete` installs: every record whose identifier differs from `id`. */
  function Deleted(ts: seq<Transaction>, id: int): (r: seq<Transaction>)
    ensures forall i :: 0 <= i < |r| ==> r[i].id != id && r[i] in ts
    ensures forall i :: 0 <= i < |ts| && ts[i].id != id ==> ts[i] in r
  {
    Filter(ts, Survives(id))
  }

  /** Deletion keeps each surviving record as many times as it occurs, and none
      of the records carrying the deleted identifier. */
  lemma DeleteCounts(ts: seq<Transaction>, id: int)
    ensures forall t :: multiset(Deleted(ts, id))[t] == if t.id != id then multiset(ts)[t] else 0
  {
    FilterMultiplicity(ts, Survives(id));
  }

  /** Deletion keeps the surviving records in their original relative order. */
  lemma DeleteKeepsOrder(ts: seq<Transaction>, id: int)
    ensures IsSubsequence(Deleted(ts, id), ts)
  {
    FilterIsSubsequence(ts, Survives(id));
  }

  /** Deleting an identifier that no record carries leaves the list as it was. */
  lemma DeleteAbsentIsNoOp(ts: seq<Transaction>, id: int)
    requires forall i :: 0 <= i < |ts| ==> ts[i].id != id
    ensures Deleted(ts, id) == ts
  {
    FilterKeepsAll(ts, Survives(id));
  }

  /** Deleting the same identifier twice is deleting it once. */
  lemma DeleteIdempotent(ts: seq<Transaction>, id: int)
    ensures Deleted(Deleted(ts, id), id) == Deleted(ts, id)
  {
    FilterIdempotent(ts, Survives(id));
  }

  /** Deletion keeps identifiers unique. */
  lemma DeletePreservesUniqueIds(ts: seq<Transaction>, id: int)
    requires UniqueIds(ts)
    ensures UniqueIds(Deleted(ts, id))
  {
    FilterKeepsKeysDistinct(ts, Survives(id), IdOf);
  }

  /** `Math.max(...ids, 0)`: the largest identifier in the list, with 0 as the floor. */
  function MaxId(ts: seq<Transaction>): (m: int)
    ensures 0 <= m
    ensures forall i :: 0 <= i < |ts| ==> ts[i].id <= m
    ensures m == 0 || exists i :: 0 <= i < |ts| && ts[i].id == m
  {
    if ts == [] then 0
    else
      var rest := MaxId(ts[1..]);
      assert forall i :: 1 <= i < |ts| ==> ts[i] == ts[1..][i - 1];
      if ts[0].id > rest then ts[0].id else rest
  }

  /** The identifier `handleSubmit` gives a new record: above every identifier in
      the list, and exactly one above the largest of them (or 1 when none is positive). */
  function NextId(ts: seq<Transaction>): (n: int)
    ensures 1 <= n
    ensures forall i :: 0 <= i < |ts| ==> ts[i].id < n
    ensures n == 1 || exists i :: 0 <= i < |ts| && ts[i].id == n - 1
    ensures ts == [] ==> n == 1
  {
    MaxId(ts) + 1
  }

  /** The list the create branch of `handleSubmit` installs: the old list followed
      by one record built from the form under a fresh identifier. */
  function Created(ts: seq<Transaction>, e: Entry): (r: seq<Transaction>)
    ensures |r| == |ts| + 1 && r[..|ts|] == ts
    ensures r[|ts|].date == e.date && r[|ts|].amount == e.amount
    ensures r[|ts|].kind == e.kind && r[|ts|].category == e.category
    ensures forall i :: 0 <= i < |ts| ==> ts[i].id < r[|ts|].id
    ensures r[|ts|].id == NextId(ts)
  {
    ts + [WithId(e, NextId(ts))]
  }

  /** Creation keeps identifiers unique. */
  lemma CreatePreservesUniqueIds(ts: seq<Transaction>, e: Entry)
    requires UniqueIds(ts)
    ensures UniqueIds(Created(ts, e))
  {
    var r := Created(ts, e);
    forall i, j | 0 <= i < j < |r|
      ensures IdOf(r[i]) != IdOf(r[j])
    {
      assert r[i] == ts[i];
      if j < |ts| {
        assert r[j] == ts[j];
      }
    }
  }

  /** Deleting the record just created gives back the list it was created in. */
  lemma {:induction false} DeleteUndoesCreate(ts: seq<Transaction>, e: Entry)
    ensures Deleted(Created(ts, e), NextId(ts)) == ts
  {
    var id := NextId(ts);
    var keep := Survives(id);
    FilterAppend(ts, [WithId(e, id)], keep);
    FilterKeepsAll(ts, keep);
    assert Filter([WithId(e, id)], keep) == [];
  }

  /** Creating, deleting the new record and creating again issues the same
      identifier twice: identifiers are unique among live records only. */
  lemma RecreateReusesId(ts: seq<Transaction>, e: Entry, e': Entry)
    ensures NextId(Deleted(Created(ts, e), NextId(ts))) == NextId(ts)
    ensures Created(Deleted(Created(ts, e), NextId(ts)), e') == Created(ts, e')
  {
    DeleteUndoesCreate(ts, e);
  }

  /** After the record with the largest positive identifier is deleted, the next
      identifier issued is not above the deleted one. */
  lemma DeleteMaxAllowsReuse(ts: seq<Transaction>)
    requires 1 <= MaxId(ts)
    ensures NextId(Deleted(ts, MaxId(ts))) <= MaxId(ts)
  {
    var m := MaxId(ts);
    var d := Deleted(ts, m);
    forall i | 0 <= i < |d|
      ensures d[i].id < m
    {
      var k :| 0 <= k < |ts| && ts[k] == d[i];
    }
  }

  /** The list `map` computes in the update branch: each record whose identifier
      is `id` becomes `t`, every other record stays, positions are kept. */
  function Replaced(ts: seq<Transaction>, id: int, t: Transaction): (r: seq<Transaction>)
    ensures |r| == |ts|
    ensures forall i :: 0 <= i < |ts| && ts[i].id == id ==> r[i] == t
    ensures forall i :: 0 <= i < |ts| && ts[i].id != id ==> r[i] == ts[i]
  {
    if ts == [] then []
    else [if ts[0].id == id then t else ts[0]] + Replaced(ts[1..], id, t)
  }

  /** The list the update branch of `handleSubmit` installs: the record being
      edited is replaced, in place, by the form's fields under its own identifier. */
  function Updated(ts: seq<Transaction>, id: int, e: Entry): (r: seq<Transaction>)
    ensures |r| == |ts|
    ensures forall i :: 0 <= i < |ts| ==> r[i].id == ts[i].id
    ensures forall i :: 0 <= i < |ts| && ts[i].id == id ==> r[i] == WithId(e, id)
    ensures forall i :: 0 <= i < |ts| && ts[i].id != id ==> r[i] == ts[i]
  {
    Replaced(ts, id, WithId(e, id))
  }

  /** Updating keeps identifiers unique. */
  lemma UpdatePreservesUniqueIds(ts: seq<Transaction>, id: int, e: Entry)
    requires UniqueIds(ts)
    ensures UniqueIds(Updated(ts, id, e))
  {
    var r := Updated(ts, id, e);
    forall i, j | 0 <= i < j < |r|
      ensures IdOf(r[i]) != IdOf(r[j])
    {
      assert IdOf(ts[i]) != IdOf(ts[j]);
    }
  }

  /** Updating an identifier that no record carries leaves the list as it was. */
  lemma UpdateAbsentIsNoOp(ts: seq<Transaction>, id: int, e: Entry)
    requires forall i :: 0 <= i < |ts| ==> ts[i].id != id
    ensures Updated(ts, id, e) == ts
  {
  }

  /** Submitting the same edit twice is submitting it once. */
  lemma UpdateIdempotent(ts: seq<Transaction>, id: int, e: Entry)
    ensures Updated(Updated(ts, id, e), id, e) == Updated(ts, id, e)
  {
  }

  /** Deleting an edited record leaves no trace of the edit. */
  lemma {:induction false} DeleteErasesUpdate(ts: seq<Transaction>, id: int, e: Entry)
    ensures Deleted(Updated(ts, id, e), id) == Deleted(ts, id)
  {
    if ts != [] {
      DeleteErasesUpdate(ts[1..], id, e);
      var u := Updated(ts, id, e);
      assert u[1..] == Updated(ts[1..], id, e);
      assert u[0].id == ts[0].id;
      if ts[0].id != id {
        assert u[0] == ts[0];
      }
    }
  }
}
