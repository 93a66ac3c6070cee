/** The transaction record of the tracker page, its enumerations, its dates and
    the two records the page starts with. */
module Records {

  import Sequences

  datatype Option<T> = None | Some(value: T)

  /** The `type` field: the two choices the forms offer. */
  datatype Kind = Income | Expense

  /** The `category` field: the fixed choices of the `categories` constant. */
  datatype Category = Groceries | Bills | Salary | Entertainment | Healthcare | Other

  /** The `categories` constant, in the order the selects list them. */
  const Categories: seq<Category> := [Groceries, Bills, Salary, Entertainment, Healthcare, Other]

  /** The listed categories are exactly the category values, each listed once. */
  lemma CategoriesListEveryCategoryOnce()
    ensures forall c: Category :: c in Categories
    ensures forall i, j :: 0 <= i < j < |Categories| ==> Categories[i] != Categories[j]
  {
    forall c: Category
      ensures c in Categories
    {
      match c
      case Groceries => assert Categories[0] == c;
      case Bills => assert Categories[1] == c;
      case Salary => assert Categories[2] == c;
      case Entertainment => assert Categories[3] == c;
      case Healthcare => assert Categories[4] == c;
      case Other => assert Categories[5] == c;
    }
  }

  /** A calendar day, written `YYYY-MM-DD` in the page. */
  datatype Date = Date(year: int, month: int, day: int)

  /** `a` is on or before `b`: the comparison the page makes on parsed ISO dates. */
  predicate DateLe(a: Date, b: Date)
  {
    a.year < b.year ||
    (a.year == b.year && (a.month < b.month || (a.month == b.month && a.day <= b.day)))
  }

  /** DateLe is a total order, so the date bounds of the filter behave as intervals. */
  lemma DateLeIsTotalOrder()
    ensures forall a :: DateLe(a, a)
    ensures forall a, b :: DateLe(a, b) && DateLe(b, a) ==> a == b
    ensures forall a, b, c :: DateLe(a, b) && DateLe(b, c) ==> DateLe(a, c)
    ensures forall a, b :: DateLe(a, b) || DateLe(b, a)
  {
  }

  /** What the form supplies for a new or edited record. */
  datatype Entry = Entry(date: Date, amount: real, kind: Kind, category: Category)

  /** One ledger record; `amount` is a magnitude whose sign comes from `kind`. */
  datatype Transaction = Transaction(id: int, date: Date, amount: real, kind: Kind, category: Category)

  /** The record the form's fields make under identifier `id`. */
  function WithId(e: Entry, id: int): Transaction
  {
    Transaction(id, e.date, e.amount, e.kind, e.category)
  }

  /** The `initialTransactions` constant. */
  const Seed: seq<Transaction> := [
    Transaction(1, Date(2023, 1, 1), 1000.0, Income, Salary),
    Transaction(2, Date(2023, 1, 2), 50.0, Expense, Groceries)
  ]

  /** The identifier of a record. */
  function IdOf(t: Transaction): int
  {
    t.id
  }

  /** No two records of the ledger carry the same identifier. */
  predicate UniqueIds(ts: seq<Transaction>)
  {
    Sequences.DistinctKeys(ts, IdOf)
  }
}
