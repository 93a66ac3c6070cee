/** The state of the `Index` page component and the handlers that overwrite it. */
module IndexPage {

  import opened Sequences
  import opened Records
  import opened Ledger
  import opened Query

  /** The page's state: the list of transactions, the record the form is editing
      (`None` when the form adds a new one) and the filters. */
  class Tracker {
    var transactions: seq<Transaction>
    var editing: Option<Transaction>
    var filters: Criteria

    /** Identifiers are unique: true of the initial list and kept by every handler. */
    ghost predicate Valid()
      reads this
    {
      UniqueIds(transactions)
    }

    /** The page as first rendered: the two seed records, no edit, no filter. */
    constructor ()
      ensures Valid()
      ensures transactions == Seed && editing == None && filters == NoCriteria
    {
      transactions := Seed;
      editing := None;
      filters := NoCriteria;
    }

    /** `filteredTransactions`: exactly the records that pass the current filters,
        in list order. */
    function FilteredTransactions(): (r: seq<Transaction>)
      reads this
      ensures |r| == Count(transactions, Selects(filters))
      ensures forall t :: t in r <==> t in transactions && Matches(t, filters)
      ensures IsSubsequence(r, transactions)
    {
      FilteredKeepsOrder(transactions, filters);
      Filtered(transactions, filters)
    }

    /** `totalBalance`: the income amounts of the whole list, not of the filtered
        view, less every other amount. */
    function TotalBalance(): (b: real)
      reads this
      ensures b == Total(Filter(transactions, IsIncome)) - Total(Filter(transactions, IsNotIncome))
    {
      Balance(transactions)
    }

    /** `handleEdit`: the form is opened on `t`, or on an empty form for `None`. */
    method Edit(t: Option<Transaction>)
      modifies this
      ensures editing == t
      ensures transactions == old(transactions) && filters == old(filters)
    {
      editing := t;
    }

    /** A change of the filters: the view changes, the balance does not. */
    method SetFilters(c: Criteria)
      modifies this
      ensures filters == c
      ensures transactions == old(transactions) && editing == old(editing)
      ensures TotalBalance() == old(TotalBalance())
    {
      filters := c;
    }

    /** `handleDelete`: every record with identifier `id` goes; a missing
        identifier changes nothing. */
    method Delete(id: int)
      requires Valid()
      modifies this
      ensures Valid()
      ensures transactions == Deleted(old(transactions), id)
      ensures IsSubsequence(transactions, old(transactions))
      ensures (forall i :: 0 <= i < |old(transactions)| ==> old(transactions)[i].id != id) ==>
        transactions == old(transactions)
      ensures forall k :: 0 <= k < |old(transactions)| && old(transactions)[k].id == id ==>
        Balance(transactions) == Balance(old(transactions)) - Signed(old(transactions)[k])
      ensures editing == old(editing) && filters == old(filters)
    {
      var before := transactions;
      DeleteSummary(before, id);
      transactions := Deleted(before, id);
    }

    /** The create branch of `handleSubmit`: one record is appended under the next
        identifier, which is above every identifier already in the list. */
    method Create(e: Entry)
      requires Valid()
      modifies this
      ensures Valid()
      ensures transactions == Created(old(transactions), e)
      ensures transactions[|old(transactions)|] == WithId(e, NextId(old(transactions)))
      ensures Balance(transactions) ==
        Balance(old(transactions)) + Signed(WithId(e, NextId(old(transactions))))
      ensures editing == old(editing) && filters == old(filters)
    {
      var before := transactions;
      CreatePreservesUniqueIds(before, e);
      BalanceAfterCreate(before, e);
      transactions := Created(before, e);
    }

    /** The update branch of `handleSubmit`: the record with identifier `id` is
        replaced in place by the form's fields, keeping that identifier. */
    method Update(id: int, e: Entry)
      requires Valid()
      modifies this
      ensures Valid()
      ensures transactions == Updated(old(transactions), id, e)
      ensures forall k :: 0 <= k < |old(transactions)| && old(transactions)[k].id == id ==>
        transactions[k] == WithId(e, id) &&
        Balance(transactions) == Balance(old(transactions)) - Signed(old(transactions)[k]) + Signed(WithId(e, id))
      ensures editing == old(editing) && filters == old(filters)
    {
      var before := transactions;
      UpdatePreservesUniqueIds(before, id, e);
      forall k | 0 <= k < |before| && before[k].id == id
        ensures Balance(Updated(before, id, e)) ==
          Balance(before) - Signed(before[k]) + Signed(WithId(e, id))
      {
        BalanceAfterUpdate(before, k, e);
      }
      transactions := Updated(before, id, e);
    }

    /** `handleSubmit`: updates the record being edited and leaves edit mode, or,
        with no record being edited, creates a record. */
    method Submit(e: Entry)
      requires Valid()
      modifies this
      ensures Valid()
      ensures old(editing).Some? ==> transactions == Updated(old(transactions), old(editing).value.id, e)
      ensures old(editing).None? ==> transactions == Created(old(transactions), e)
      ensures editing == None && filters == old(filters)
    {
      if editing.Some? {
        Update(editing.value.id, e);
        editing := None;
      } else {
        Create(e);
      }
    }
  }
}
