# Finance tracker ledger, modelled in Dafny

The finance tracker is a single React page (`src/pages/Index.jsx`) that keeps a
list of income and expense transactions in component state. It seeds the list
with two records. Records can be added, edited and deleted. The page shows a
view narrowed by optional type, category and date-range filters, and a balance
over the whole list.

This project models that ledger logic and proves its properties. The page's
rendering is not modelled.

- `sequences.dfy` (module `Sequences`): the order-preserving filter that
  `handleDelete` and the filtered view use (`Array.prototype.filter`), the
  subsequence relation and their lemmas.
- `records.dfy` (module `Records`): the transaction record, the `type` and
  `category` enumerations, the `categories` constant, dates and their order, the
  seed list, and identifier uniqueness.
- `ledger.dfy` (module `Ledger`): the new list each handler computes. `Deleted` is
  `handleDelete`. `NextId` and `Created` are the create branch of `handleSubmit`.
  `Updated` is its edit branch.
- `query.dfy` (module `Query`): the filters and `filteredTransactions`, the
  `totalBalance` fold, and how each handler moves the balance.
- `index_page.dfy` (module `IndexPage`): class `Tracker` holds the page state
  (`transactions`, `editingTransaction`, `filters`). Its methods overwrite that
  state as the handlers do and are proved against the `Ledger` functions.

Representation choices:
- `amount` is a `real`, so sums are exact.
- A date is a (year, month, day) triple ordered lexicographically. This is the
  order that `new Date(...)` comparisons give on well-formed `YYYY-MM-DD` strings.
- An empty filter field (the empty string in the page) is `None`.
- The balance adds the amount when `type` is `"income"` and subtracts it otherwise.
  With the closed enumeration, "otherwise" means `Expense`.

The code does no validation of amounts, types or categories. Updating an
identifier that is not in the list silently changes nothing, and so does
deleting one. The model follows the code here. It has no validation error and
no "not found" result, and any `real` amount is accepted, negative ones included.

Identifiers are `max(existing ids, 0) + 1`. They are unique among live records
only. Creating a record, deleting it straight away and then creating another one
issues the same identifier again (`Ledger.RecreateReusesId`). In general, deleting the record
with the largest identifier lets the next creation issue an identifier no greater
than the deleted one (`Ledger.DeleteMaxAllowsReuse`). It is the deleted one
exactly when the remaining largest identifier is one below it.

## Model

| member | source | states |
|---|---|---|
| `Sequences.Filter` | src/pages/Index.jsx:50-52 | the result's length is exactly the number of input positions that pass the test; every element it keeps is in the input and passes the test; every input element that passes the test is kept |
| `Sequences.FilterMultiplicity` | src/pages/Index.jsx:50-52 | the filter keeps every passing element as many times as it occurs in the input, and no failing element |
| `Records.CategoriesListEveryCategoryOnce` | src/pages/Index.jsx:22 | the `categories` constant lists every category value, each exactly once |
| `Records.DateLeIsTotalOrder` | src/pages/Index.jsx:51 | the date comparison the filter uses is reflexive, antisymmetric, transitive and total |
| `Ledger.Deleted` | src/pages/Index.jsx:37 | no kept record carries the deleted identifier; every kept record comes from the old list; every record with another identifier is kept |
| `Ledger.DeleteCounts` | src/pages/Index.jsx:37 | a delete keeps each record with another identifier as many times as it occurred, and no record with the deleted identifier |
| `Ledger.DeleteKeepsOrder` | src/pages/Index.jsx:37 | the records left after a delete are a subsequence of the old list, in their original relative order |
| `Ledger.DeleteAbsentIsNoOp` | src/pages/Index.jsx:37 | deleting an identifier that no record carries leaves the list unchanged |
| `Ledger.DeleteIdempotent` | src/pages/Index.jsx:37 | deleting the same identifier twice gives the same list as deleting it once |
| `Ledger.DeletePreservesUniqueIds` | src/pages/Index.jsx:37 | if identifiers were unique before a delete, they are unique after it |
| `Ledger.MaxId` | src/pages/Index.jsx:62 | `Math.max(...ids, 0)`: at least 0, at least every identifier, and either 0 or the identifier of some record |
| `Ledger.NextId` | src/pages/Index.jsx:62 | the new identifier is at least 1, greater than every identifier in the list, 1 on an empty list, and otherwise 1 or one more than an identifier in the list |
| `Ledger.Created` | src/pages/Index.jsx:72-73 | creating appends exactly one record at the end; the earlier records are untouched; the new record carries the form's fields, and its identifier is `NextId` of the old list, above all existing ones |
| `Ledger.CreatePreservesUniqueIds` | src/pages/Index.jsx:62-73 | if identifiers were unique before a create, they are unique after it |
| `Ledger.DeleteUndoesCreate` | src/pages/Index.jsx:73 | deleting the record that a create just added gives back exactly the list before the create |
| `Ledger.RecreateReusesId` | src/pages/Index.jsx:62 | after creating, then deleting the new record, the next identifier is the one just deleted, and a second create gives the same list as creating directly |
| `Ledger.DeleteMaxAllowsReuse` | src/pages/Index.jsx:62 | after deleting the record with the largest positive identifier, the next identifier issued is not greater than that identifier |
| `Ledger.Replaced` | src/pages/Index.jsx:70 | the `map` keeps the length; every record with the edited identifier becomes the new record; every other record stays at its position |
| `Ledger.Updated` | src/pages/Index.jsx:62-70 | an update keeps the length and every identifier at its position; the edited record becomes the form's fields under its own identifier; every other record is unchanged |
| `Ledger.UpdatePreservesUniqueIds` | src/pages/Index.jsx:70 | if identifiers were unique before an update, they are unique after it |
| `Ledger.UpdateAbsentIsNoOp` | src/pages/Index.jsx:70 | updating an identifier that no record carries leaves the list unchanged (there is no "not found" error) |
| `Ledger.UpdateIdempotent` | src/pages/Index.jsx:70 | submitting the same edit twice gives the same list as submitting it once |
| `Ledger.DeleteErasesUpdate` | src/pages/Index.jsx:37 | deleting an edited record gives the same list as deleting it unedited |
| `Query.Matches` | src/pages/Index.jsx:51 | the test of one record against the filters: with every field empty every record passes, and a record can only pass both date bounds when the lower bound is on or before the upper one |
| `Query.Filtered` | src/pages/Index.jsx:50-52 | the view's length is the number of list positions that pass; it holds exactly the records of the list that meet every set constraint: equal type, equal category, date on or after the lower bound, date on or before the upper bound |
| `Query.FilteredCounts` | src/pages/Index.jsx:50-52 | the view keeps each passing record as many times as it occurs in the list, and no other record |
| `Query.FilterWithoutCriteriaIsIdentity` | src/pages/Index.jsx:51 | with every filter field empty, the view is the whole list in its order |
| `Query.FilteredKeepsOrder` | src/pages/Index.jsx:50-52 | the view is a subsequence of the list, in list order |
| `Query.FilteredIdempotent` | src/pages/Index.jsx:50-52 | filtering the view again with the same filters changes nothing |
| `Query.FilterIsConjunctive` | src/pages/Index.jsx:51 | applying the four constraints one after another gives the same view as applying them together (AND semantics) |
| `Query.EmptyDateRangeSelectsNothing` | src/pages/Index.jsx:51 | when the upper date bound lies strictly before the lower one, the view is empty |
| `Query.FoldIsSignedSum` | src/pages/Index.jsx:54-56 | the left-to-right `reduce` from any accumulator adds each income amount to it and subtracts each other amount |
| `Query.SignedSumIsIncomeMinusRest` | src/pages/Index.jsx:55 | the signed sum of the records is the total of the income amounts less the total of all other amounts |
| `Query.Balance` | src/pages/Index.jsx:54-56 | `totalBalance`, the `reduce` from 0: it is 0 on an empty list and, in general, total income amounts minus all other amounts over the whole list |
| `Query.BalanceAppend` | src/pages/Index.jsx:54-56 | appending a record raises the balance by its amount when it is income and lowers it by its amount otherwise |
| `Query.BalanceAfterCreate` | src/pages/Index.jsx:73 | a create moves the balance by the new amount, up for income, down for expense |
| `Query.DeleteSummary` | src/pages/Index.jsx:37 | with unique identifiers, a delete keeps them unique, keeps order, changes nothing for a missing identifier and takes the deleted record's signed amount off the balance |
| `Query.BalanceAfterDelete` | src/pages/Index.jsx:37 | with unique identifiers, deleting a record takes exactly its signed amount off the balance |
| `Query.BalanceAfterUpdate` | src/pages/Index.jsx:70 | with unique identifiers, an edit replaces the edited record's signed amount in the balance by that of the new fields |
| `Query.SeedScenario` | src/pages/Index.jsx:5-20 | for the seed list the balance is 950, the expense-only view is record 2, deleting record 2 leaves balance 1000 and no expenses, the next identifier is 3 and it is issued again after its record is deleted |
| `IndexPage.Tracker.constructor` | src/pages/Index.jsx:25-27 | the page starts with the seed list, no record being edited and every filter empty; identifiers are unique |
| `IndexPage.Tracker.FilteredTransactions` | src/pages/Index.jsx:50-52 | the rendered view's length is the number of list positions that pass the filters; it holds exactly the records of the state that pass its filters, in list order |
| `IndexPage.Tracker.TotalBalance` | src/pages/Index.jsx:54-56 | the shown balance is income minus all other amounts over the whole list, not the filtered view |
| `IndexPage.Tracker.Edit` | src/pages/Index.jsx:31-34 | the form's record becomes the given one (or none, to add); list and filters are unchanged |
| `IndexPage.Tracker.SetFilters` | src/pages/Index.jsx:46-48 | the filters are replaced; the list, the edit and the balance are unchanged |
| `IndexPage.Tracker.Delete` | src/pages/Index.jsx:36-37 | the list becomes `Deleted` of the old one: order kept, a missing identifier changes nothing, the balance loses the deleted record's signed amount, identifiers stay unique |
| `IndexPage.Tracker.Create` | src/pages/Index.jsx:72-73 | the list becomes `Created` of the old one: the form's record is appended under `NextId`, the balance moves by its signed amount, identifiers stay unique |
| `IndexPage.Tracker.Update` | src/pages/Index.jsx:69-71 | the list becomes `Updated` of the old one: the edited record is replaced at its position under its own identifier, the balance moves accordingly, identifiers stay unique |
| `IndexPage.Tracker.Submit` | src/pages/Index.jsx:58-74 | with a record being edited the list is updated under that record's identifier, otherwise a record is created; afterwards nothing is being edited; identifiers stay unique |

## Left out

- Rendering, Chakra UI components, the modal's open and close state, and toast notifications (src/pages/Index.jsx:28-29, 38-43, 76-82, 85-191). These are presentation only.
- Reading the form with `FormData` and `parseFloat` (src/pages/Index.jsx:60-66). A create or update takes an already-typed `Entry`, so a non-numeric amount (NaN) cannot arise.
- `toFixed(2)` display formatting (src/pages/Index.jsx:89, 132).
- Parsing dates with `new Date(...)` (src/pages/Index.jsx:51). Dates are ordered triples. An unparseable date string, for which every comparison is false, is not modelled.
- IndexPage.Tracker.SetFilters: replaces the whole filter record. It does not model how `handleFilterChange` updates one field named by the event.
- Floating-point rounding of amounts and of the balance. Amounts are exact reals.
- `type` values other than `"income"` and `"expense"`. The forms offer no others, and the enumeration is closed.
