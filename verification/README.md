# Library inventory and transaction bookkeeping, modelled in Dafny

This project models the record keeping of a small library-management
application. It covers four tables and the two `save` hooks that tie them
together:

- **Books**, keyed by a unique ISBN. Each book carries `quantity_available`
  and `quantity_total`, both non-negative and both defaulting to zero.
- **Purchases**, an append-only log of acquisitions. Saving a purchase
  upserts the book with that ISBN: a stored book gains the purchased copies
  in both counters; an unknown ISBN becomes a new book whose counters are
  both the purchased quantity. The purchase record is appended either way.
- **Members**, keyed by a unique member id. Each carries an outstanding debt,
  which defaults to zero.
- **Transactions**, an append-only log of issues and returns. Saving a
  transaction first writes its stock change: an issue takes one copy off the
  shelf and a return puts one back, with no cap. Only then does it validate.
  The validation rejects a return that would leave the member's debt above
  KES 500; issues are not checked. A return rejected this way keeps the copy
  it added, but no transaction row is written. No step writes a member's debt.

The state is one immutable `Library` value: a `map<string, Book>` keyed by
ISBN, a `seq<Purchase>`, a `map<string, Member>` keyed by member id and a
`seq<Transaction>`. Each operation is a pure function from a state to a new
state. Money is integer cents, because every amount in the system is a
decimal with two places. Debt may be negative, since nothing clamps it.

Modules:

- `Results` (results.dfy): `Option`, `Result` and `Outcome` wrappers.
- `Models` (models.dfy): the entities, the constants and the key-discipline
  predicates.
- `Catalog` (catalog.dfy): direct creation of books and members, with the
  unique constraints and the defaults.
- `Purchasing` (purchasing.dfy): the purchase upsert.
- `Transactions` (transactions.dfy): the transaction save and its validation.
  The stock change is written first, then the member is resolved and the
  transaction validated, as in the code.
- `Replay` (replay.dfy): any interleaving of purchases and transaction saves,
  and the laws that hold across all of them.
- `Scenarios` (scenarios.dfy): the situations the model tests set up,
  evaluated on the model.

## Model

| member | source | states |
|---|---|---|
| Models.IsbnIdentifiesOneBook | LibProject/LibApp/models.py:9 | In a store keyed by ISBN, an ISBN names exactly one book when it is stored and none otherwise. |
| Catalog.CreateBook | LibProject/LibApp/models.py:6-11 | Creating a book is refused with a duplicate-ISBN error exactly when the ISBN is stored, and then nothing changes. Otherwise exactly that key is added, with the given fields; omitted quantities are 0; every other book and every other table is unchanged; key discipline is kept. |
| Catalog.AddMember | LibProject/LibApp/models.py:48-52 | Creating a member is refused exactly when the member id is stored. Otherwise exactly that key is added, an omitted debt is 0, and every other member and table is unchanged. |
| Catalog.SecondBookWithSameIsbnRefused | LibProject/LibApp/models.py:9 | Once a book is created, creating another with the same ISBN is refused, and the first keeps its title. |
| Catalog.SecondMemberWithSameIdRefused | LibProject/LibApp/models.py:51 | Once a member is created, creating another with the same member id is refused, and the first keeps their name. |
| Purchasing.FindBook | LibProject/LibApp/models.py:28 | The filter on the isbn column: when books are keyed by ISBN, the lookup finds a book exactly when some stored book's isbn column equals the ISBN, and the book it returns has that isbn. That book is the one stored under the ISBN. |
| Purchasing.FindBookIsIsbnFilter | LibProject/LibApp/models.py:28 | In a store keyed by ISBN, the lookup is the filter on the isbn column: it finds a book exactly when some stored book's isbn column equals the ISBN, and then returns a stored book whose isbn column is that ISBN. |
| Purchasing.RecordPurchase | LibProject/LibApp/models.py:26-46 | The purchase is appended to the log in both branches. A stored ISBN gains exactly the purchased quantity in `available` and in `total`, and keeps its title, author and ISBN. An unknown ISBN becomes a book copied from the purchase with available = total = quantity. No other book, member or transaction changes. The key set grows by exactly that ISBN. |
| Purchasing.PurchaseLeavesOneBookPerIsbn | LibProject/LibApp/models.py:28-44 | After a purchase exactly one stored book has its ISBN. The book count grows by at most one, and stays the same exactly when the ISBN was already stored. |
| Purchasing.PurchaseKeepsLentCopies | LibProject/LibApp/models.py:32-33 | A purchase leaves `total - available` of every book unchanged, so it preserves `available <= total`. |
| Purchasing.TwoPurchasesOfNewIsbn | LibProject/LibApp/models.py:28-44 | Two purchases q1, q2 of a new ISBN give one new book with available = total = q1 + q2 and the first purchase's title, and log both purchases in order. |
| Purchasing.RepeatedPurchaseAddsAgain | LibProject/LibApp/models.py:30-46 | Purchasing is not idempotent: repeating any purchase adds its quantity to both counters again and logs it again. |
| Models.KindOf | LibProject/LibApp/models.py:79-84 | The stored label `issue` is exactly an issue, `return` exactly a return, and any other label is the other kind carrying that label. The kind type cannot hold an "other" kind labelled `issue` or `return`. A transaction keeps its raw label, and the save hook and the validation act on the kind of that label. |
| Transactions.Clean | LibProject/LibApp/models.py:69-75 | Validation fails exactly for a return with debt + fee - paid > 50000 cents, and then with the debt-ceiling error. An issue or any other type always passes. |
| Transactions.AdjustStock | LibProject/LibApp/models.py:79-84 | The stock write fails exactly for an issue at 0 available. Otherwise an issue changes available by -1, a return by +1, and any other type by 0. Title, author, ISBN and total never change. |
| Transactions.SaveTransaction | LibProject/LibApp/models.py:69-87 | An unknown book is refused with nothing written. An issue at zero is refused with nothing written. Otherwise the stock change is written before anything else: an issue takes one copy and a return adds one, whatever happens next. A missing member is then refused, keeping the stock change. An issue is logged exactly when a copy was available and the member exists; debt never refuses it. A return is logged exactly when the member exists and debt + fee - paid <= 50000 cents. Any other type leaves stock alone and is logged exactly when the member exists. Exactly one row is logged on success and none on failure. The refusals that change the state are those after a stock change: for debt or for a missing member. Totals, other books, members and purchases never change. |
| Transactions.MissingMemberKeepsStockChange | LibProject/LibApp/models.py:77-87 | An issue with stock, or a return, whose member is not stored is refused but keeps its stock change, and logs nothing. |
| Transactions.RefusedReturnKeepsStockChange | LibProject/LibApp/models.py:77-87 | A return refused for debt still changes the state: its copy stays added, and no transaction is logged. |
| Transactions.NonReturnKeepsStockBounded | LibProject/LibApp/models.py:79-81 | Saving anything but a return preserves `available <= total` for every book. |
| Transactions.ReturnCanExceedTotal | LibProject/LibApp/models.py:82-84 | Any return of a book with all its copies on the shelf leaves available = total + 1, accepted or not, so returns do not preserve the bound. |
| Transactions.IssueThenReturnRestoresAvailability | LibProject/LibApp/models.py:79-84 | An accepted issue followed by a return of the same book restores every book exactly, whether or not the return is refused. Members are unchanged. |
| Replay.RunKeepsMembers | LibProject/LibApp/models.py:77-87 | After any sequence of purchases and transaction saves, every member, and so every debt, is exactly as before. |
| Replay.RunKeepsValid | LibProject/LibApp/models.py:26-46 | Any sequence of events keeps every book under its own ISBN and every member under their own id. |
| Replay.RunCatalogue | LibProject/LibApp/models.py:28-44 | After any sequence of events the stored ISBNs are exactly the earlier ones plus every ISBN purchased. Books are never removed. |
| Replay.RunPurchaseLog | LibProject/LibApp/models.py:46 | After any sequence of events the purchase log is the old log followed by the purchases among the events, in order. |
| Replay.RunTransactionLog | LibProject/LibApp/models.py:85-87 | The transaction log only grows: the old log stays a prefix, and each event adds at most one row. |
| Replay.RunTotal | LibProject/LibApp/models.py:26-46 | Stock conservation: after any sequence of events a book's total equals its starting total (0 if absent) plus every copy purchased for its ISBN. Transactions never change totals. |
| Replay.RunWithoutReturnsStaysBounded | LibProject/LibApp/models.py:79-81 | A sequence of events with no return preserves `available <= total` for every book. |
| Scenarios.IssueAtCeilingIsLogged | LibProject/LibApp/tests.py:20-25 | With a member already at KES 500, an issue charging 10 and paying 1 is logged and takes a copy. See "Divergences from the tests". |
| Scenarios.IssueWithoutStockIsRefused | LibProject/LibApp/tests.py:27-31 | An issue with no copy available is refused and the state is unchanged. |
| Scenarios.IssueLeavesDebtUntouched | LibProject/LibApp/tests.py:33-37 | An issue charging 10 and paying 5 leaves 4 of 5 copies available, and the member's debt stays 0. See "Divergences from the tests". |
| Scenarios.PurchaseOfStoredBook | LibProject/LibApp/tests.py:103-113 | Buying 3 copies of a stored book at 5 of 10 gives 8 of 13, still one book, with one purchase logged. |
| Scenarios.BookWithoutQuantitiesIsEmpty | LibProject/LibApp/tests.py:70-77 | A book created without quantities has 0 available and 0 in total. |
| Scenarios.UnlistedLabelIsLoggedWithoutStockChange | LibProject/LibApp/models.py:64-87 | A transaction labelled `Issue` (capitalised, not one of the choices) is saved and logged, and leaves the stock unchanged. |
| Scenarios.DuplicateMemberIdIsRefused | LibProject/LibApp/tests.py:151-155 | A second member with a stored member id is refused; the first has the default debt 0. |

## Divergences from the tests

The application's model tests expect behaviour that the code does not have.
The model follows the code.

- LibProject/LibApp/tests.py:20-25 expects an issue to be refused when the
  member already owes KES 500. The validation at
  LibProject/LibApp/models.py:71 only checks returns, so the issue is
  accepted (`Scenarios.IssueAtCeilingIsLogged`).
- LibProject/LibApp/tests.py:33-37 expects the member's debt to become 5
  after an issue charging 10 and paying 5. Nothing in
  LibProject/LibApp/models.py:77-87 writes `outstanding_debt`, so the debt
  stays 0 (`Scenarios.IssueLeavesDebtUntouched`, `Replay.RunKeepsMembers`).
- LibProject/LibApp/tests.py:27-31 expects a validation error for an issue
  with no stock. The code does refuse it, but the refusal comes from the
  database. Writing the count of -1 violates the non-negative column, so the
  error is an integrity error rather than a validation error. The model
  records the refusal as `OutOfStock`, with nothing written.

## Consequences of the code as written

- The stock change is written before validation
  (LibProject/LibApp/models.py:77-87). A return refused for debt, and a
  transaction whose member is missing, keep their stock change.
- A return is not capped at `quantity_total`
  (LibProject/LibApp/models.py:82-84).
- Issues are not checked against the debt ceiling, and no save writes
  `outstanding_debt` (LibProject/LibApp/models.py:69-87). So debt at or
  below KES 500 is not an invariant the code maintains: a member can be
  created, or left, above it.
- `available <= total` is kept through purchases and issues, but not through
  returns (`Transactions.ReturnCanExceedTotal`). A book created directly
  may also start with available > total.

## Modelling decisions

- A transaction names its book by ISBN and its member by member id. These
  are unique columns, so either one identifies a row. A member that is not
  stored is first noticed by the validation (a return) or by the row insert
  (any type). Both come after the stock write, so the stock change stays
  and no row is logged (`UnknownMember`). A book that is not stored is
  refused before anything is written (`UnknownBook`).
- The transaction type column offers `issue` and `return`, but saving does
  not validate choices. `TxKind.Other(name)` stands for any other stored
  value; the subset type `TxType` keeps the two chosen labels out of it,
  and `KindOf` maps a stored label to its kind. A `Transaction` stores the
  raw label, and `Transaction.Kind()` is `KindOf` of that label, so every
  label can be saved. A transaction of any other kind changes no stock and
  is logged.
- The debt ceiling is 50000 cents (KES 500.00). The comparison is strict
  (`> 50000` refuses), as in the code.

## Left out

- Dates: the purchase date and the transaction timestamp are set by the
  database clock and are not modelled.
- Database ids, and the `__str__` renderings that embed a date.
- Field validation done by the web framework: ISBN length (13), the other
  `max_length` limits, email format, and the digit limits of the decimal
  columns.
- The upper bound of the non-negative integer columns (2147483647 on most
  databases): counts are unbounded naturals.
- Purchasing.RecordPurchase: quantities are naturals, so a purchase with a
  negative quantity is not modelled. In the code it is accepted by the ORM.
  For a stored ISBN whose counts stay non-negative, the book is written
  first with both counts lowered (LibProject/LibApp/models.py:30-34). The
  purchase row is then refused by its non-negative quantity column
  (LibProject/LibApp/models.py:20) at the final save
  (LibProject/LibApp/models.py:46), so the book keeps the lowered counts. For an unknown ISBN, the book insert is refused
  first (LibProject/LibApp/models.py:37) and nothing is written.
- Catalog.CreateBook: quantities are naturals, so the negative counts that
  the non-negative columns refuse (LibProject/LibApp/models.py:10-11) are not
  modelled.
- Deleting books and members. Both foreign keys of a transaction declare a
  cascade (LibProject/LibApp/models.py:62-63), which the ORM carries out by
  deleting the transactions that refer to the deleted row. The model has no
  delete operation, so it does not model the cascade.
- Search. It has no implementation in LibProject/LibApp/models.py.
- Saving a stored row again. Both save hooks run on every save, not only on
  the first one, so editing a stored transaction re-runs its stock change
  (LibProject/LibApp/models.py:79-84), and re-saving a stored purchase
  re-runs its upsert (LibProject/LibApp/models.py:28-44). In both cases the
  row is updated in place rather than appended. The model covers the first
  save only: every save appends a new row.
- Stale in-memory instances. The hooks read and write the instances they
  hold: `self.member` at LibProject/LibApp/models.py:72 and `self.book` at
  LibProject/LibApp/models.py:80-84. `book.save()` writes every column, so
  a stale book instance can overwrite `quantity_total` and
  `quantity_available` with old values. The model reads the stored rows.
  `Replay.RunTotal` ("transactions never change totals") assumes fresh
  instances.
- Transactions.SaveTransaction: a transaction whose book row is not stored
  is refused with nothing written. In the code, `self.book.save()` on such an
  instance writes the in-memory book as a row, and the save then goes on.
- Views, URL routing, forms, authentication, signup and the password-reset
  email flow.
- Atomicity and concurrency. The code issues separate `save()` calls with no
  locking; the model applies one operation at a time.
