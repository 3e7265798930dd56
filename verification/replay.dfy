/**
 * Any interleaving of purchases and transaction saves, applied one after the
 * other, and the bookkeeping laws that hold across all of them.
 */
module Replay {
  import opened Models
  import Purchasing
  import Transactions

  /** One state-changing request. */
  datatype Event = Bought(purchase: Purchase) | Recorded(transaction: Transaction)

  /** Applies one event, keeping whatever state it leaves behind even when it is refused. */
  function Apply(lib: Library, e: Event): (r: Library)
    ensures r.members == lib.members
    ensures r.purchases == lib.purchases + (if e.Bought? then [e.purchase] else [])
    ensures r.books.Keys == lib.books.Keys + (if e.Bought? then {e.purchase.isbn} else {})
    ensures |lib.transactions| <= |r.transactions| <= |lib.transactions| + 1
    ensures r.transactions[..|lib.transactions|] == lib.transactions
    ensures Valid(lib) ==> Valid(r)
  {
    match e
    case Bought(p) => Purchasing.RecordPurchase(lib, p)
    case Recorded(t) => Transactions.SaveTransaction(lib, t).library
  }

  /** Applies the events in order. */
  function Run(lib: Library, es: seq<Event>): Library
    decreases |es|
  {
    if es == [] then lib else Run(Apply(lib, es[0]), es[1..])
  }

  /** The purchases among the events, in order. */
  function PurchasesIn(es: seq<Event>): seq<Purchase>
    decreases |es|
  {
    if es == [] then []
    else (if es[0].Bought? then [es[0].purchase] else []) + PurchasesIn(es[1..])
  }

  /** The number of copies of `isbn` bought by the events. */
  function Purchased(es: seq<Event>, isbn: string): nat
    decreases |es|
  {
    if es == [] then 0
    else (if es[0].Bought? && es[0].purchase.isbn == isbn then es[0].purchase.quantity else 0)
         + Purchased(es[1..], isbn)
  }

  /** The ISBNs of the purchases among the events. */
  function IsbnsBought(es: seq<Event>): set<string>
    decreases |es|
  {
    if es == [] then {}
    else (if es[0].Bought? then {es[0].purchase.isbn} else {}) + IsbnsBought(es[1..])
  }

  /** The total stock of `isbn`, zero when it is not catalogued. */
  function TotalOf(books: map<string, Book>, isbn: string): nat {
    if isbn in books then books[isbn].total else 0
  }

  /** No event ever writes a member: every member, and so every debt, is as it was. */
  lemma {:induction false} RunKeepsMembers(lib: Library, es: seq<Event>)
    ensures Run(lib, es).members == lib.members
    decreases |es|
  {
    if es != [] {
      RunKeepsMembers(Apply(lib, es[0]), es[1..]);
    }
  }

  /** The unique ISBN and member-id keying survives any sequence of events. */
  lemma {:induction false} RunKeepsValid(lib: Library, es: seq<Event>)
    requires Valid(lib)
    ensures Valid(Run(lib, es))
    decreases |es|
  {
    if es != [] {
      RunKeepsValid(Apply(lib, es[0]), es[1..]);
    }
  }

  /** The catalogue after the events is the old one plus every ISBN bought: books are never removed. */
  lemma {:induction false} RunCatalogue(lib: Library, es: seq<Event>)
    ensures Run(lib, es).books.Keys == lib.books.Keys + IsbnsBought(es)
    decreases |es|
  {
    if es != [] {
      RunCatalogue(Apply(lib, es[0]), es[1..]);
    }
  }

  /** The purchase log is the old log followed by every purchase among the events, in order. */
  lemma {:induction false} RunPurchaseLog(lib: Library, es: seq<Event>)
    ensures Run(lib, es).purchases == lib.purchases + PurchasesIn(es)
    decreases |es|
  {
    if es == [] {
      assert lib.purchases + [] == lib.purchases;
    } else {
      var lib1 := Apply(lib, es[0]);
      RunPurchaseLog(lib1, es[1..]);
      var head: seq<Purchase> := if es[0].Bought? then [es[0].purchase] else [];
      var tail := PurchasesIn(es[1..]);
      assert Run(lib, es) == Run(lib1, es[1..]);
      assert PurchasesIn(es) == head + tail;
      assert lib1.purchases == lib.purchases + head;
    }
  }

  /** The transaction log only grows, by at most one row per event. */
  lemma {:induction false} RunTransactionLog(lib: Library, es: seq<Event>)
    ensures |lib.transactions| <= |Run(lib, es).transactions| <= |lib.transactions| + |es|
    ensures Run(lib, es).transactions[..|lib.transactions|] == lib.transactions
    decreases |es|
  {
    if es != [] {
      var lib1 := Apply(lib, es[0]);
      RunTransactionLog(lib1, es[1..]);
      assert lib1.transactions[..|lib.transactions|] == lib.transactions;
      var r := Run(lib, es).transactions;
      assert r[..|lib.transactions|] == r[..|lib1.transactions|][..|lib.transactions|];
    }
  }

  /**
   * Stock conservation: a book's total is its starting total plus every copy
   * bought for its ISBN. Transactions never change a total.
   */
  lemma {:induction false} RunTotal(lib: Library, es: seq<Event>, isbn: string)
    ensures TotalOf(Run(lib, es).books, isbn) == TotalOf(lib.books, isbn) + Purchased(es, isbn)
    decreases |es|
  {
    if es != [] {
      var lib1 := Apply(lib, es[0]);
      RunTotal(lib1, es[1..], isbn);
      var bought := if es[0].Bought? && es[0].purchase.isbn == isbn then es[0].purchase.quantity else 0;
      assert TotalOf(lib1.books, isbn) == TotalOf(lib.books, isbn) + bought;
    }
  }

  /** Without returns, no book ever has more copies available than in total. */
  lemma {:induction false} RunWithoutReturnsStaysBounded(lib: Library, es: seq<Event>)
    requires StockBounded(lib.books)
    requires forall i | 0 <= i < |es| :: es[i].Recorded? ==> es[i].transaction.Kind() != Return
    ensures StockBounded(Run(lib, es).books)
    decreases |es|
  {
    if es != [] {
      match es[0] {
        case Bought(p) => Purchasing.PurchaseKeepsLentCopies(lib, p);
        case Recorded(t) => Transactions.NonReturnKeepsStockBounded(lib, t);
      }
      RunWithoutReturnsStaysBounded(Apply(lib, es[0]), es[1..]);
    }
  }
}
