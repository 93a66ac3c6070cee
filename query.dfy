/** What the tracker page derives from its list on every render: the filtered
    view (`filteredTransactions`) and the signed total (`totalBalance`). */
module Query {

  import opened Sequences
  import opened Records
  import opened Ledger

  /** The `filters` state; `None` stands for the empty string, which puts no
      constraint on that field. */
  datatype Criteria = Criteria(kind: Option<Kind>, category: Option<Category>, dateFrom: Option<Date>, dateTo: Option<Date>)

  /** The filters the page starts with: every field empty. */
  const NoCriteria: Criteria := Criteria(None, None, None, None)

  /** A record passes the filters when it meets every constraint that is set. */
  predicate Matches(t: Transaction, c: Criteria): (m: bool)
    ensures c == NoCriteria ==> m
    ensures m && c.dateFrom.Some? && c.dateTo.Some? ==> DateLe(c.dateFrom.value, c.dateTo.value)
  {
    DateLeIsTotalOrder();
    (c.kind.Some? ==> t.kind == c.kind.value) &&
    (c.category.Some? ==> t.category == c.category.value) &&
    (c.dateFrom.Some? ==> DateLe(c.dateFrom.value, t.date)) &&
    (c.dateTo.Some? ==> DateLe(t.date, c.dateTo.value))
  }

  /** The test `filteredTransactions` passes to `filter`. */
  function Selects(c: Criteria): Transaction -> bool
  {
    (t: Transaction) => Matches(t, c)
  }

  /** `filteredTransactions`: the records that pass every set constraint. */
  function Filtered(ts: seq<Transaction>, c: Criteria): (r: seq<Transaction>)
    ensures |r| == Count(ts, Selects(c))
    ensures forall i :: 0 <= i < |r| ==> r[i] in ts && Matches(r[i], c)
    ensures forall i :: 0 <= i < |ts| && Matches(ts[i], c) ==> ts[i] in r
  {
    Filter(ts, Selects(c))
  }

  /** With every filter field empty, the view is the whole list in its order. */
  lemma FilterWithoutCriteriaIsIdentity(ts: seq<Transaction>)
    ensures Filtered(ts, NoCriteria) == ts
  {
    FilterKeepsAll(ts, Selects(NoCriteria));
  }

  /** The view keeps each passing record as many times as it occurs in the list,
      and no other record. */
  lemma FilteredCounts(ts: seq<Transaction>, c: Criteria)
    ensures forall t :: multiset(Filtered(ts, c))[t] == if Matches(t, c) then multiset(ts)[t] else 0
  {
    FilterMultiplicity(ts, Selects(c));
  }

  /** The view never reorders the records it keeps. */
  lemma FilteredKeepsOrder(ts: seq<Transaction>, c: Criteria)
    ensures IsSubsequence(Filtered(ts, c), ts)
  {
    FilterIsSubsequence(ts, Selects(c));
  }

  /** Filtering the view again with the same filters changes nothing. */
  lemma FilteredIdempotent(ts: seq<Transaction>, c: Criteria)
    ensures Filtered(Filtered(ts, c), c) == Filtered(ts, c)
  {
    FilterIdempotent(ts, Selects(c));
  }

  /** The filters that keep only the type constraint of `c`, and so on. */
  function KindOnly(c: Criteria): Criteria { Criteria(c.kind, None, None, None) }
  function CategoryOnly(c: Criteria): Criteria { Criteria(None, c.category, None, None) }
  function FromOnly(c: Criteria): Criteria { Criteria(None, None, c.dateFrom, None) }
  function ToOnly(c: Criteria): Criteria { Criteria(None, None, None, c.dateTo) }

  /** The constraints combine by AND: applying them one at a time, each to the
      previous view, gives the same view as applying them all at once. */
  lemma FilterIsConjunctive(ts: seq<Transaction>, c: Criteria)
    ensures Filtered(ts, c) ==
      Filtered(Filtered(Filtered(Filtered(ts, KindOnly(c)), CategoryOnly(c)), FromOnly(c)), ToOnly(c))
  {
    var kc := Criteria(c.kind, c.category, None, None);
    var kcf := Criteria(c.kind, c.category, c.dateFrom, None);
    FilterThenFilter(ts, Selects(KindOnly(c)), Selects(CategoryOnly(c)), Selects(kc));
    FilterThenFilter(ts, Selects(kc), Selects(FromOnly(c)), Selects(kcf));
    FilterThenFilter(ts, Selects(kcf), Selects(ToOnly(c)), Selects(c));
  }

  /** A date range whose upper bound lies before its lower bound selects nothing. */
  lemma EmptyDateRangeSelectsNothing(ts: seq<Transaction>, c: Criteria)
    requires c.dateFrom.Some? && c.dateTo.Some?
    requires DateLe(c.dateTo.value, c.dateFrom.value) && c.dateTo.value != c.dateFrom.value
    ensures Filtered(ts, c) == []
  {
    DateLeIsTotalOrder();
    FilterDropsAll(ts, Selects(c));
  }

  /** The effect of one record on the balance: its amount when it is income,
      the negated amount otherwise. */
  function Signed(t: Transaction): real
  {
    if t.kind == Income then t.amount else -t.amount
  }

  /** One step of the `reduce` in `totalBalance`. */
  function Step(acc: real, t: Transaction): real
  {
    acc + Signed(t)
  }

  /** The `reduce` itself, left to right from accumulator `acc`. */
  function Fold(acc: real, ts: seq<Transaction>): real
    decreases |ts|
  {
    if ts == [] then acc else Fold(Step(acc, ts[0]), ts[1..])
  }

  /** `totalBalance`: the fold over the whole list, starting at 0. */
  function Balance(ts: seq<Transaction>): (b: real)
    ensures ts == [] ==> b == 0.0
    ensures b == Total(Filter(ts, IsIncome)) - Total(Filter(ts, IsNotIncome))
  {
    FoldIsSignedSum(0.0, ts);
    SignedSumIsIncomeMinusRest(ts);
    Fold(0.0, ts)
  }

  /** The sum of the effects, added right to left. */
  function SignedSum(ts: seq<Transaction>): real
  {
    if ts == [] then 0.0 else Signed(ts[0]) + SignedSum(ts[1..])
  }

  /** The sum of the amounts, whatever their type. */
  function Total(ts: seq<Transaction>): real
  {
    if ts == [] then 0.0 else ts[0].amount + Total(ts[1..])
  }

  /** The record is income. */
  function IsIncome(t: Transaction): bool { t.kind == Income }

  /** The record is anything but income. */
  function IsNotIncome(t: Transaction): bool { t.kind != Income }

  /** The left-to-right fold adds the signed effects to its accumulator. */
  lemma {:induction false} FoldIsSignedSum(acc: real, ts: seq<Transaction>)
    ensures Fold(acc, ts) == acc + SignedSum(ts)
    decreases |ts|
  {
    if ts != [] {
      FoldIsSignedSum(Step(acc, ts[0]), ts[1..]);
    }
  }

  /** The signed sum is the income amounts less all other amounts. */
  lemma {:induction false} SignedSumIsIncomeMinusRest(ts: seq<Transaction>)
    ensures SignedSum(ts) == Total(Filter(ts, IsIncome)) - Total(Filter(ts, IsNotIncome))
  {
    if ts != [] {
      SignedSumIsIncomeMinusRest(ts[1..]);
    }
  }

  /** The signed sum of a concatenation is the sum of the parts' signed sums. */
  lemma {:induction false} SignedSumAppend(a: seq<Transaction>, b: seq<Transaction>)
    ensures SignedSum(a + b) == SignedSum(a) + SignedSum(b)
  {
    if a == [] {
      assert a + b == b;
    } else {
      assert (a + b)[1..] == a[1..] + b;
      SignedSumAppend(a[1..], b);
    }
  }

  /** Appending a record moves the balance by its amount: up for income, down otherwise. */
  lemma BalanceAppend(ts: seq<Transaction>, t: Transaction)
    ensures Balance(ts + [t]) == Balance(ts) + Signed(t)
  {
    FoldIsSignedSum(0.0, ts + [t]);
    FoldIsSignedSum(0.0, ts);
    SignedSumAppend(ts, [t]);
  }

  /** Creating a record moves the balance by the new amount, with its sign. */
  lemma BalanceAfterCreate(ts: seq<Transaction>, e: Entry)
    ensures Balance(Created(ts, e)) == Balance(ts) + Signed(WithId(e, NextId(ts)))
  {
    BalanceAppend(ts, WithId(e, NextId(ts)));
  }

  /** With unique identifiers, the tail has unique identifiers and none of
      them is the head's. */
  lemma UniqueIdsTail(ts: seq<Transaction>)
    requires ts != [] && UniqueIds(ts)
    ensures UniqueIds(ts[1..])
    ensures forall i :: 1 <= i < |ts| ==> ts[i].id != ts[0].id
  {
    forall i, j | 0 <= i < j < |ts| - 1
      ensures IdOf(ts[1..][i]) != IdOf(ts[1..][j])
    {
      assert IdOf(ts[i + 1]) != IdOf(ts[j + 1]);
    }
    forall i | 1 <= i < |ts|
      ensures ts[i].id != ts[0].id
    {
      assert IdOf(ts[0]) != IdOf(ts[i]);
    }
  }

  /** Deleting one record of a list with unique identifiers removes its effect
      from the signed sum. */
  lemma {:induction false} SignedSumAfterDelete(ts: seq<Transaction>, k: nat)
    requires UniqueIds(ts) && k < |ts|
    ensures SignedSum(Deleted(ts, ts[k].id)) == SignedSum(ts) - Signed(ts[k])
  {
    UniqueIdsTail(ts);
    var id := ts[k].id;
    if k == 0 {
      DeleteAbsentIsNoOp(ts[1..], id);
    } else {
      SignedSumAfterDelete(ts[1..], k - 1);
      assert ts[1..][k - 1] == ts[k];
    }
  }

  /** Deleting a record of a list with unique identifiers takes back exactly
      that record's effect on the balance. */
  lemma BalanceAfterDelete(ts: seq<Transaction>, k: nat)
    requires UniqueIds(ts) && k < |ts|
    ensures Balance(Deleted(ts, ts[k].id)) == Balance(ts) - Signed(ts[k])
  {
    FoldIsSignedSum(0.0, ts);
    FoldIsSignedSum(0.0, Deleted(ts, ts[k].id));
    SignedSumAfterDelete(ts, k);
  }

  /** Everything a delete guarantees about the page's list: identifiers stay
      unique, order is kept, a missing identifier changes nothing, and the balance
      loses the deleted record's effect. */
  lemma DeleteSummary(ts: seq<Transaction>, id: int)
    requires UniqueIds(ts)
    ensures UniqueIds(Deleted(ts, id))
    ensures IsSubsequence(Deleted(ts, id), ts)
    ensures (forall i :: 0 <= i < |ts| ==> ts[i].id != id) ==> Deleted(ts, id) == ts
    ensures forall k :: 0 <= k < |ts| && ts[k].id == id ==>
      Balance(Deleted(ts, id)) == Balance(ts) - Signed(ts[k])
  {
    DeletePreservesUniqueIds(ts, id);
    DeleteKeepsOrder(ts, id);
    if forall i :: 0 <= i < |ts| ==> ts[i].id != id {
      DeleteAbsentIsNoOp(ts, id);
    }
    forall k | 0 <= k < |ts| && ts[k].id == id
      ensures Balance(Deleted(ts, id)) == Balance(ts) - Signed(ts[k])
    {
      BalanceAfterDelete(ts, k);
    }
  }

  /** Editing one record of a list with unique identifiers swaps its effect on
      the signed sum for the effect of the edited fields. */
  lemma {:induction false} SignedSumAfterUpdate(ts: seq<Transaction>, k: nat, e: Entry)
    requires UniqueIds(ts) && k < |ts|
    ensures SignedSum(Updated(ts, ts[k].id, e)) == SignedSum(ts) - Signed(ts[k]) + Signed(WithId(e, ts[k].id))
  {
    UniqueIdsTail(ts);
    var id := ts[k].id;
    var u := Updated(ts, id, e);
    assert u[1..] == Updated(ts[1..], id, e);
    if k == 0 {
      UpdateAbsentIsNoOp(ts[1..], id, e);
    } else {
      SignedSumAfterUpdate(ts[1..], k - 1, e);
      assert ts[1..][k - 1] == ts[k];
    }
  }

  /** Editing a record of a list with unique identifiers replaces that record's
      effect on the balance by the effect of the edited fields. */
  lemma BalanceAfterUpdate(ts: seq<Transaction>, k: nat, e: Entry)
    requires UniqueIds(ts) && k < |ts|
    ensures Balance(Updated(ts, ts[k].id, e)) ==
      Balance(ts) - Signed(ts[k]) + Signed(WithId(e, ts[k].id))
  {
    FoldIsSignedSum(0.0, ts);
    FoldIsSignedSum(0.0, Updated(ts, ts[k].id, e));
    SignedSumAfterUpdate(ts, k, e);
  }

  /** The filters that show only expenses. */
  const ExpensesOnly: Criteria := Criteria(Some(Expense), None, None, None)

  /** The initial list: balance 950, one expense; deleting record 2 leaves a
      balance of 1000 and no expense; the next identifier is 3, and it is issued
      again after the record that received it is deleted. */
  lemma SeedScenario(e: Entry)
    ensures Balance(Seed) == 950.0
    ensures Filtered(Seed, ExpensesOnly) == [Seed[1]]
    ensures Balance(Deleted(Seed, 2)) == 1000.0
    ensures Filtered(Deleted(Seed, 2), ExpensesOnly) == []
    ensures NextId(Seed) == 3
    ensures NextId(Deleted(Created(Seed, e), 3)) == 3
  {
    var income, expense := Seed[0], Seed[1];
    assert Seed[1..] == [expense] && [expense][1..] == [];
    assert Fold(0.0, Seed) == Fold(1000.0, [expense]) == Fold(950.0, []);
    var onlyExpenses := Selects(ExpensesOnly);
    assert Filter([expense], onlyExpenses) == [expense] + Filter([], onlyExpenses);
    assert Filter(Seed, onlyExpenses) == Filter([expense], onlyExpenses);
    assert Filter(Seed, Survives(2)) == [income] + Filter([expense], Survives(2));
    assert Deleted(Seed, 2) == [income];
    assert Fold(0.0, [income]) == Fold(1000.0, []);
    assert Filter([income], onlyExpenses) == Filter([], onlyExpenses);
    assert MaxId(Seed[1..]) == 2;
    RecreateReusesId(Seed, e, e);
  }
}
