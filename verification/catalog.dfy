/**
 * Direct creation of books and members, as an administrator does it: the
 * unique columns refuse a duplicate, and omitted fields take their defaults.
 */
module Catalog {
  import opened Results
  import opened Models

  /**
   * Creates a book row. Omitted quantities default to zero; an ISBN already
   * stored violates the unique constraint and nothing is written.
   */
  function CreateBook(lib: Library, title: string, author: string, isbn: string,
                      available: Option<nat>, total: Option<nat>): (r: Result<Library, Error>)
    ensures r.Err? <==> isbn in lib.books
    ensures r.Err? ==> r.error == DuplicateIsbn
    ensures r.Ok? ==> r.value.books.Keys == lib.books.Keys + {isbn}
    ensures r.Ok? ==> forall k | k in lib.books :: r.value.books[k] == lib.books[k]
    ensures r.Ok? ==> var b := r.value.books[isbn];
      && b.title == title && b.author == author && b.isbn == isbn
      && (available.None? ==> b.available == DefaultQuantity)
      && (available.Some? ==> b.available == available.value)
      && (total.None? ==> b.total == DefaultQuantity)
      && (total.Some? ==> b.total == total.value)
    ensures r.Ok? ==> (r.value.purchases == lib.purchases && r.value.members == lib.members
                       && r.value.transactions == lib.transactions)
    ensures r.Ok? && Valid(lib) ==> Valid(r.value)
  {
    if isbn in lib.books then Err(DuplicateIsbn)
    else
      var b := Book(title, author, isbn, available.GetOr(DefaultQuantity), total.GetOr(DefaultQuantity));
      Ok(lib.(books := lib.books[isbn := b]))
  }

  /**
   * Creates a member row. An omitted debt defaults to zero; a member id
   * already stored violates the unique constraint and nothing is written.
   */
  function AddMember(lib: Library, name: string, email: string, memberId: string,
                     debt: Option<Cents>): (r: Result<Library, Error>)
    ensures r.Err? <==> memberId in lib.members
    ensures r.Err? ==> r.error == DuplicateMemberId
    ensures r.Ok? ==> r.value.members.Keys == lib.members.Keys + {memberId}
    ensures r.Ok? ==> forall k | k in lib.members :: r.value.members[k] == lib.members[k]
    ensures r.Ok? ==> var m := r.value.members[memberId];
      && m.name == name && m.email == email && m.memberId == memberId
      && (debt.None? ==> m.debt == DefaultDebt)
      && (debt.Some? ==> m.debt == debt.value)
    ensures r.Ok? ==> (r.value.books == lib.books && r.value.purchases == lib.purchases
                       && r.value.transactions == lib.transactions)
    ensures r.Ok? && Valid(lib) ==> Valid(r.value)
  {
    if memberId in lib.members then Err(DuplicateMemberId)
    else
      var m := Member(name, email, memberId, debt.GetOr(DefaultDebt));
      Ok(lib.(members := lib.members[memberId := m]))
  }

  /** A second book with a stored ISBN is refused, and the first one is kept as it was. */
  lemma SecondBookWithSameIsbnRefused(lib: Library, title: string, author: string, isbn: string,
                                       available: Option<nat>, total: Option<nat>,
                                       title': string, author': string,
                                       available': Option<nat>, total': Option<nat>)
    requires CreateBook(lib, title, author, isbn, available, total).Ok?
    ensures var lib1 := CreateBook(lib, title, author, isbn, available, total).value;
      && CreateBook(lib1, title', author', isbn, available', total') == Err(DuplicateIsbn)
      && lib1.books[isbn].title == title
  {
  }

  /** A second member with a stored member id is refused, and the first one is kept as it was. */
  lemma SecondMemberWithSameIdRefused(lib: Library, name: string, email: string, memberId: string,
                                      debt: Option<Cents>, name': string, email': string, debt': Option<Cents>)
    requires AddMember(lib, name, email, memberId, debt).Ok?
    ensures var lib1 := AddMember(lib, name, email, memberId, debt).value;
      && AddMember(lib1, name', email', memberId, debt') == Err(DuplicateMemberId)
      && lib1.members[memberId].name == name
  {
  }
}
