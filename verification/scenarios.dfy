/**
 * The concrete situations the application's model tests set up, evaluated
 * on the model. Two of them come out differently from what the tests
 * expect; the lemmas state what the code does.
 */
module Scenarios {
  import opened Results
  import opened Models
  import Catalog
  import Purchasing
  import Transactions

  /** The fixture of the transaction tests: five copies of one book and a member owing `debt` cents. */
  function Fixture(available: nat, debt: Cents): (lib: Library)
    ensures Valid(lib)
    ensures "1234567890123" in lib.books && lib.books["1234567890123"].available == available
    ensures "1234" in lib.members && lib.members["1234"].debt == debt
  {
    var b := Book("Test Book", "Test Author", "1234567890123", available, 5);
    var m := Member("Test Member", "test@example.com", "1234", debt);
    Library(map[b.isbn := b], [], map[m.memberId := m], [])
  }

  /** An issue of the fixture book to the fixture member, charging `fee` and receiving `paid` cents. */
  function IssueOf(fee: Cents, paid: Cents): (t: Transaction)
    ensures t.Kind() == Issue && t.isbn == "1234567890123" && t.memberId == "1234"
  {
    Transaction("1234567890123", "1234", "issue", fee, paid)
  }

  /**
   * A member already at the ceiling can still borrow: an issue charging 10
   * and paying 1 is logged, because only returns are checked against the ceiling.
   */
  lemma IssueAtCeilingIsLogged()
    ensures var r := Transactions.SaveTransaction(Fixture(5, DebtCeiling), IssueOf(1000, 100));
      && r.status == Pass
      && r.library.books["1234567890123"].available == 4
      && |r.library.transactions| == 1
  {
  }

  /** An issue with no copy on the shelf is refused and changes nothing. */
  lemma IssueWithoutStockIsRefused()
    ensures var lib := Fixture(0, DebtCeiling);
      Transactions.SaveTransaction(lib, IssueOf(1000, 100)) == Transactions.Step(lib, Fail(OutOfStock))
  {
  }

  /**
   * An issue charging 10 and paying 5 takes a copy off the shelf but leaves
   * the member's debt at zero: no step writes the debt.
   */
  lemma IssueLeavesDebtUntouched()
    ensures var r := Transactions.SaveTransaction(Fixture(5, 0), IssueOf(1000, 500));
      && r.status == Pass
      && r.library.books["1234567890123"].available == 4
      && r.library.members["1234"].debt == 0
  {
  }

  /** Buying three more copies of a stored book with 5 of 10 on the shelf gives 8 of 13. */
  lemma PurchaseOfStoredBook()
    ensures var b := Book("Test Book", "Test Author", "1234567890123", 5, 10);
      var lib := Library(map[b.isbn := b], [], map[], []);
      var r := Purchasing.RecordPurchase(lib, Purchase("Test Book", "Test Author", "1234567890123", 3));
      && r.books["1234567890123"].available == 8
      && r.books["1234567890123"].total == 13
      && |r.books| == 1
      && |r.purchases| == 1
  {
  }

  /** A book created without quantities has none available and none in total. */
  lemma BookWithoutQuantitiesIsEmpty()
    ensures var r := Catalog.CreateBook(EmptyLibrary, "Default Book", "Default Author", "9876543210987", None, None);
      && r.Ok?
      && r.value.books["9876543210987"].available == 0
      && r.value.books["9876543210987"].total == 0
  {
  }

  /**
   * A label outside the two choices, here a capitalised `Issue`, is saved and
   * logged without touching the stock, since the save hook compares labels exactly.
   */
  lemma UnlistedLabelIsLoggedWithoutStockChange()
    ensures var lib := Fixture(5, 0);
      var t := Transaction("1234567890123", "1234", "Issue", 1000, 0);
      var r := Transactions.SaveTransaction(lib, t);
      && r.status == Pass
      && r.library.books == lib.books
      && r.library.transactions == [t]
  {
  }

  /** A second member with a stored member id is refused. */
  lemma DuplicateMemberIdIsRefused()
    ensures var r := Catalog.AddMember(EmptyLibrary, "Test Member 1", "test1@example.com", "12345", None);
      && r.Ok?
      && r.value.members["12345"].debt == 0
      && Catalog.AddMember(r.value, "Test Member 2", "test2@example.com", "12345", None) == Err(DuplicateMemberId)
  {
  }
}
