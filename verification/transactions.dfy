/**
 * Saving a borrowing transaction. The stock change is written first; only
 * then is the transaction validated, and the validation looks at returns
 * alone. A return refused for debt therefore keeps its extra copy on the
 * shelf while no transaction is logged. No step ever writes a member's debt.
 */
module Transactions {
  import opened Results
  import opened Models

  /** The state after a save attempt, with whether the transaction row was written. */
  datatype Step = Step(library: Library, status: Outcome<Error>)

  /** The debt a member would carry once this transaction's fee and payment are settled. */
  function DebtAfter(m: Member, t: Transaction): Cents {
    m.debt + (t.fee - t.paid)
  }

  /** The validation run after the stock change: a return may not lift the debt above the ceiling. */
  function Clean(m: Member, t: Transaction): (o: Outcome<Error>)
    ensures o.Fail? <==> t.Kind() == Return && m.debt + t.fee - t.paid > DebtCeiling
    ensures o.Fail? ==> o.error == DebtCeilingExceeded
  {
    if t.Kind() == Return && DebtAfter(m, t) > DebtCeiling then Fail(DebtCeilingExceeded) else Pass
  }

  /**
   * The stock change of a transaction on its book. An issue at zero would
   * store a negative count, which the non-negative column refuses.
   */
  function AdjustStock(b: Book, kind: TxType): (r: Option<Book>)
    ensures r.None? <==> kind == Issue && b.available == 0
    ensures r.Some? ==> (r.value.title == b.title && r.value.author == b.author
                         && r.value.isbn == b.isbn && r.value.total == b.total)
    ensures r.Some? && kind == Issue ==> r.value.available + 1 == b.available
    ensures r.Some? && kind == Return ==> r.value.available == b.available + 1
    ensures r.Some? && kind.Other? ==> r.value == b
  {
    match kind
    case Issue => if b.available == 0 then None else Some(b.(available := b.available - 1))
    case Return => Some(b.(available := b.available + 1))
    case Other(_) => Some(b)
  }

  /**
   * Saves transaction `t`: write the stock change to its book, validate, and
   * only then append the transaction. The member is first needed by the
   * validation or by the row insert, both after the stock write, so a
   * missing member is discovered only once the stock change is stored.
   */
  function SaveTransaction(lib: Library, t: Transaction): (r: Step)
    // members, purchases and the set of stored books never change
    ensures r.library.members == lib.members
    ensures r.library.purchases == lib.purchases
    ensures r.library.books.Keys == lib.books.Keys
    ensures forall k | k in lib.books && k != t.isbn :: r.library.books[k] == lib.books[k]
    // exactly one row is logged on success, none on failure
    ensures r.status.Pass? ==> r.library.transactions == lib.transactions + [t]
    ensures r.status.Fail? ==> r.library.transactions == lib.transactions
    // an unknown book is refused before anything is written
    ensures t.isbn !in lib.books ==> r == Step(lib, Fail(UnknownBook))
    // the book keeps its descriptive fields and its total
    ensures t.isbn in lib.books ==>
      var was := lib.books[t.isbn];
      var now := r.library.books[t.isbn];
      now.title == was.title && now.author == was.author && now.isbn == was.isbn && now.total == was.total
    // an issue is refused for lack of stock before anything is written, and never for debt
    ensures t.isbn in lib.books && t.Kind() == Issue ==>
      var was := lib.books[t.isbn].available;
      && (r.status.Pass? <==> was > 0 && t.memberId in lib.members)
      && (was == 0 ==> r == Step(lib, Fail(OutOfStock)))
      && (was > 0 ==> r.library.books[t.isbn].available == was - 1)
    // a return always adds a copy, whether or not it is then refused
    ensures t.isbn in lib.books && t.Kind() == Return ==>
      && r.library.books[t.isbn].available == lib.books[t.isbn].available + 1
      && (r.status.Pass? <==> t.memberId in lib.members
                              && lib.members[t.memberId].debt + t.fee - t.paid <= DebtCeiling)
    // any other type leaves the stock alone and is logged when its member exists
    ensures t.isbn in lib.books && t.Kind().Other? ==>
      r.library.books == lib.books && (r.status.Pass? <==> t.memberId in lib.members)
    // a missing member is reported once the stock change has been written
    ensures t.isbn in lib.books && t.memberId !in lib.members
            && !(t.Kind() == Issue && lib.books[t.isbn].available == 0) ==>
      r.status == Fail(UnknownMember)
    // a refusal for debt concerns a return of a stored member
    ensures r.status == Fail(DebtCeilingExceeded) ==> t.Kind() == Return && t.memberId in lib.members
    // the refusals that leave a trace are those that come after a stock change
    ensures r.status.Fail? && r.library != lib ==>
      && r.library.books[t.isbn] != lib.books[t.isbn]
      && (r.status.error == DebtCeilingExceeded || r.status.error == UnknownMember)
    ensures Valid(lib) ==> Valid(r.library)
  {
    if t.isbn !in lib.books then Step(lib, Fail(UnknownBook))
    else
      match AdjustStock(lib.books[t.isbn], t.Kind())
      case None => Step(lib, Fail(OutOfStock))
      case Some(b) =>
        var stocked := lib.(books := lib.books[t.isbn := b]);
        if t.memberId !in lib.members then Step(stocked, Fail(UnknownMember))
        else
          match Clean(lib.members[t.memberId], t)
          case Fail(e) => Step(stocked, Fail(e))
          case Pass => Step(stocked.(transactions := stocked.transactions + [t]), Pass)
  }

  /**
   * A save whose member is not stored still writes its stock change, and
   * logs nothing.
   */
  lemma MissingMemberKeepsStockChange(lib: Library, t: Transaction)
    requires t.isbn in lib.books && t.memberId !in lib.members
    requires t.Kind() == Return || (t.Kind() == Issue && lib.books[t.isbn].available > 0)
    ensures var r := SaveTransaction(lib, t);
      && r.status == Fail(UnknownMember)
      && r.library != lib
      && r.library.books[t.isbn] == AdjustStock(lib.books[t.isbn], t.Kind()).value
      && r.library.transactions == lib.transactions
  {
  }

  /**
   * Mutate-before-validate: a return refused for debt still leaves its
   * copy on the shelf, and logs nothing.
   */
  lemma RefusedReturnKeepsStockChange(lib: Library, t: Transaction)
    requires t.isbn in lib.books && t.memberId in lib.members && t.Kind() == Return
    requires DebtAfter(lib.members[t.memberId], t) > DebtCeiling
    ensures var r := SaveTransaction(lib, t);
      && r.status == Fail(DebtCeilingExceeded)
      && r.library != lib
      && r.library.books[t.isbn].available == lib.books[t.isbn].available + 1
      && r.library.transactions == lib.transactions
  {
  }

  /** Issues and non-returns never raise availability above the total. */
  lemma NonReturnKeepsStockBounded(lib: Library, t: Transaction)
    requires StockBounded(lib.books)
    requires t.Kind() != Return
    ensures StockBounded(SaveTransaction(lib, t).library.books)
  {
  }

  /**
   * A return has no cap: returning a book with every copy on the shelf leaves
   * more copies available than it has in total, accepted or not.
   */
  lemma ReturnCanExceedTotal(lib: Library, t: Transaction)
    requires t.isbn in lib.books && t.Kind() == Return
    requires lib.books[t.isbn].available == lib.books[t.isbn].total
    ensures var r := SaveTransaction(lib, t).library;
      r.books[t.isbn].available == r.books[t.isbn].total + 1 && !StockBounded(r.books)
  {
  }

  /**
   * Issuing a copy and then returning it puts availability back where it was,
   * even when the return is refused, for debt or for a missing member.
   */
  lemma IssueThenReturnRestoresAvailability(lib: Library, issue: Transaction, ret: Transaction)
    requires issue.Kind() == Issue && ret.Kind() == Return && ret.isbn == issue.isbn
    requires SaveTransaction(lib, issue).status.Pass?
    ensures var r := SaveTransaction(SaveTransaction(lib, issue).library, ret).library;
      && r.books == lib.books
      && r.members == lib.members
  {
  }
}
