/**
 * Saving a purchase: the book with the purchased ISBN gains the purchased
 * copies in both its counters, or is created with exactly that stock, and the
 * purchase itself is then appended to the purchase log.
 */
module Purchasing {
  import opened Results
  import opened Models

  /**
   * The first stored book whose isbn column equals `isbn`, if any. With books
   * keyed by ISBN that is the book stored under `isbn`.
   */
  function FindBook(books: map<string, Book>, isbn: string): (r: Option<Book>)
    ensures r.Some? <==> isbn in books
    ensures r.Some? ==> r.value == books[isbn]
    // in a keyed store this is the filter on the isbn column
    ensures BooksKeyed(books) ==> (r.Some? <==> BooksWithIsbn(books, isbn) != {})
    ensures BooksKeyed(books) && r.Some? ==> r.value.isbn == isbn
  {
    if isbn in books then
      assert BooksKeyed(books) ==> isbn in BooksWithIsbn(books, isbn);
      Some(books[isbn])
    else None
  }

  /**
   * In a store keyed by ISBN, the lookup is the filter on the isbn column:
   * it finds a book exactly when some stored book carries the ISBN, and
   * returns a stored book carrying it.
   */
  lemma FindBookIsIsbnFilter(books: map<string, Book>, isbn: string)
    requires BooksKeyed(books)
    ensures var r := FindBook(books, isbn);
      && (r.Some? <==> BooksWithIsbn(books, isbn) != {})
      && (r.Some? ==> r.value.isbn == isbn && r.value in books.Values)
  {
  }

  /**
   * Saves purchase `p` and upserts its book. Quantities are naturals, so no
   * purchase is refused.
   */
  function RecordPurchase(lib: Library, p: Purchase): (r: Library)
    // the purchase record is appended in both branches
    ensures r.purchases == lib.purchases + [p]
    // afterwards the ISBN is stored, and only that key may be new
    ensures r.books.Keys == lib.books.Keys + {p.isbn}
    // a known ISBN gains exactly the purchased quantity in both counters, keeping its descriptive fields
    ensures p.isbn in lib.books ==>
      var was := lib.books[p.isbn];
      var now := r.books[p.isbn];
      && now.title == was.title && now.author == was.author && now.isbn == was.isbn
      && now.available == was.available + p.quantity
      && now.total == was.total + p.quantity
    // an unknown ISBN becomes a book copied from the purchase, all of whose copies are on the shelf
    ensures p.isbn !in lib.books ==>
      r.books[p.isbn] == Book(p.title, p.author, p.isbn, p.quantity, p.quantity)
    // every other book is untouched
    ensures forall k | k in lib.books && k != p.isbn :: r.books[k] == lib.books[k]
    ensures r.members == lib.members && r.transactions == lib.transactions
    ensures Valid(lib) ==> Valid(r)
  {
    var book := match FindBook(lib.books, p.isbn)
      case Some(b) => b.(available := b.available + p.quantity, total := b.total + p.quantity)
      case None => Book(p.title, p.author, p.isbn, p.quantity, p.quantity);
    lib.(books := lib.books[p.isbn := book], purchases := lib.purchases + [p])
  }

  /** After any purchase exactly one book carries its ISBN, and the catalogue grew by at most one book. */
  lemma PurchaseLeavesOneBookPerIsbn(lib: Library, p: Purchase)
    requires Valid(lib)
    ensures BooksWithIsbn(RecordPurchase(lib, p).books, p.isbn) == {p.isbn}
    ensures |lib.books| <= |RecordPurchase(lib, p).books| <= |lib.books| + 1
    ensures p.isbn in lib.books <==> |RecordPurchase(lib, p).books| == |lib.books|
  {
  }

  /** The gap between total and available copies of every book is the same after a purchase. */
  lemma PurchaseKeepsLentCopies(lib: Library, p: Purchase)
    ensures forall k | k in lib.books ::
      RecordPurchase(lib, p).books[k].total - RecordPurchase(lib, p).books[k].available
      == lib.books[k].total - lib.books[k].available
    ensures StockBounded(lib.books) ==> StockBounded(RecordPurchase(lib, p).books)
  {
  }

  /** Two purchases of a new ISBN create one book whose stock is their sum. */
  lemma TwoPurchasesOfNewIsbn(lib: Library, p1: Purchase, p2: Purchase)
    requires p1.isbn == p2.isbn && p1.isbn !in lib.books
    ensures var r := RecordPurchase(RecordPurchase(lib, p1), p2);
      && r.books[p1.isbn].available == p1.quantity + p2.quantity
      && r.books[p1.isbn].total == p1.quantity + p2.quantity
      && r.books[p1.isbn].title == p1.title
      && |r.books| == |lib.books| + 1
      && r.purchases == lib.purchases + [p1, p2]
  {
  }

  /** Purchasing is not idempotent: repeating a purchase repeats its stock increase and its log entry. */
  lemma RepeatedPurchaseAddsAgain(lib: Library, p: Purchase)
    ensures var once := RecordPurchase(lib, p);
      var twice := RecordPurchase(once, p);
      && twice.books[p.isbn].total == once.books[p.isbn].total + p.quantity
      && twice.books[p.isbn].available == once.books[p.isbn].available + p.quantity
      && |twice.purchases| == |once.purchases| + 1
      && twice != once
  {
  }
}
