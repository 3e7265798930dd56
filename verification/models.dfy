/**
 * The entities of the library: books keyed by their unique ISBN, the purchase
 * log, members keyed by their unique member id, and the transaction log.
 * Money is held as integer cents, since every amount in the system is a
 * decimal with two places.
 */
module Models {

  /** An amount of money in cents (KES 1.00 == 100). */
  type Cents = int

  /** The highest debt, in cents, a return may leave a member with: KES 500. */
  const DebtCeiling: Cents := 50000

  /** Stock of a book created without explicit quantities. */
  const DefaultQuantity: nat := 0

  /** Debt of a member created without an explicit debt. */
  const DefaultDebt: Cents := 0

  /** A catalogue entry. Both counts are non-negative integer columns. */
  datatype Book = Book(title: string, author: string, isbn: string, available: nat, total: nat)

  /** One acquisition event; the purchase date is stamped by the database. */
  datatype Purchase = Purchase(title: string, author: string, isbn: string, quantity: nat)

  /** A borrower. The debt is not constrained in sign. */
  datatype Member = Member(name: string, email: string, memberId: string, debt: Cents)

  /**
   * The transaction type column. Only `issue` and `return` are offered as
   * choices, but saving does not validate choices, so any other label can be
   * stored.
   */
  datatype TxKind = Issue | Return | Other(name: string)

  /** A stored type: the two chosen labels are always `Issue` and `Return`, never `Other`. */
  type TxType = k: TxKind | k.Other? ==> k.name != "issue" && k.name != "return" witness Issue

  /** The type a stored label denotes: the save hook compares the label with `issue` and then `return`. */
  function KindOf(column: string): (k: TxType)
    ensures k == Issue <==> column == "issue"
    ensures k == Return <==> column == "return"
    ensures k.Other? ==> k.name == column
  {
    if column == "issue" then Issue else if column == "return" then Return else Other(column)
  }

  /**
   * A borrowing record, naming its book by ISBN and its member by member id.
   * The type is kept as the stored label, as in the type column.
   */
  datatype Transaction = Transaction(isbn: string, memberId: string, typeName: string, fee: Cents, paid: Cents) {

    /** The kind the save hook acts on. */
    function Kind(): TxType {
      KindOf(typeName)
    }
  }

  /** The whole persistent state: the four tables of the application. */
  datatype Library = Library(
    books: map<string, Book>,
    purchases: seq<Purchase>,
    members: map<string, Member>,
    transactions: seq<Transaction>)

  /** Why an operation was refused. */
  datatype Error =
    | DuplicateIsbn           // unique constraint on the book's ISBN
    | DuplicateMemberId       // unique constraint on the member id
    | UnknownBook             // the transaction names no stored book
    | UnknownMember           // the transaction names no stored member
    | OutOfStock              // an issue would drive availability below zero
    | DebtCeilingExceeded     // a return would leave the member above the ceiling

  /** A fresh database. */
  const EmptyLibrary := Library(map[], [], map[], [])

  /** Every book is stored under its own ISBN. */
  ghost predicate BooksKeyed(books: map<string, Book>) {
    forall k | k in books :: books[k].isbn == k
  }

  /** Every member is stored under their own member id. */
  ghost predicate MembersKeyed(members: map<string, Member>) {
    forall k | k in members :: members[k].memberId == k
  }

  /** The key discipline of both unique columns. */
  ghost predicate Valid(lib: Library) {
    BooksKeyed(lib.books) && MembersKeyed(lib.members)
  }

  /** No book has more copies available than it has in total. */
  ghost predicate StockBounded(books: map<string, Book>) {
    forall k | k in books :: books[k].available <= books[k].total
  }

  /** The keys of the stored books whose ISBN column equals `isbn`. */
  function BooksWithIsbn(books: map<string, Book>, isbn: string): set<string> {
    set k | k in books && books[k].isbn == isbn
  }

  /** The unique constraint: in a well-keyed store, an ISBN names at most one book. */
  lemma IsbnIdentifiesOneBook(books: map<string, Book>, isbn: string)
    requires BooksKeyed(books)
    ensures isbn in books ==> BooksWithIsbn(books, isbn) == {isbn}
    ensures isbn !in books ==> BooksWithIsbn(books, isbn) == {}
  {
  }
}
