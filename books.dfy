/**
 * BookService: creating books, the owner-only flag toggles, and the
 * borrow / return / approve-return workflow over the book table and the
 * borrowing-history table. Every operation runs its guards in the source's
 * order; the first guard that fails throws and nothing is written.
 */
module Books {
  import opened Wrappers
  import opened Entities
  import Mapper

  type Books = map<BookId, Book>
  type Histories = map<HistoryId, BookTransactionHistory>

  const NoBookFound := "No book found with the Id::"
  const NoBookFoundById := "No book found with the Id:: "
  const NoBookFoundForApproval := "No book found with the ID::"
  const CannotUpdateShareable := "You cant update books shareable status"
  const CannotUpdateArchived := "You cant update others books archived status"
  const CannotBorrow := "The requested bok cant be borrowed"
  const CannotBorrowOwnBook := "You cant borrow your own book"
  const AlreadyBorrowed := "The requested book is already borrowed"
  const CannotReturn := "The requested bok cant be borrowed since its archived or not shareable"
  const NotBorrowed := "You did not borrow this book"
  const CannotApprove := "The requested book cannot be borrowed since its archived or not shareable"
  const CannotApproveOwnBook := "You cannot borrow or return your own book"
  const NotReturnedYet := "The book is not returned yet.You cannot approve"

  /**
   * The three custom queries of the history repository. Their query text is
   * not part of this model, so they are given as functions of the two tables.
   * The two finders are single-result queries: they give no row, one row, or
   * fail when several rows match, as the repository then throws.
   */
  datatype HistoryQueries = HistoryQueries(
    isAlreadyBorrowed: (Books, Histories, BookId, UserId) -> bool,
    findByBookIdAndUserId: (Books, Histories, BookId, UserId) -> Result<Option<HistoryId>, Error>,
    findByBookIdAndOwnerId: (Books, Histories, BookId, UserId) -> Result<Option<HistoryId>, Error>)
  {
    /** A finder's row is a stored row, and its only failure is a match on several rows. */
    ghost predicate ReturnsStoredRows()
    {
      && (forall books, histories, bookId, userId ::
            StoredOrTooMany(findByBookIdAndUserId(books, histories, bookId, userId), histories))
      && (forall books, histories, bookId, userId ::
            StoredOrTooMany(findByBookIdAndOwnerId(books, histories, bookId, userId), histories))
    }
  }

  /** A single-result lookup that either names a stored row, finds none, or found several. */
  predicate StoredOrTooMany(found: Result<Option<HistoryId>, Error>, histories: Histories)
  {
    match found
    case Success(Some(id)) => id in histories
    case Success(None) => true
    case Failure(error) => error == IncorrectResultSize
  }

  /** The ownership test of the source: the book's owner has the caller's id. */
  predicate IsOwner(book: Book, caller: User)
  {
    book.owner.Some? && book.owner.value.id == caller.id
  }

  /** The flag guard of borrowing and returning, as written: archived or shareable disqualifies. */
  predicate BorrowBlocked(book: Book)
  {
    book.archived || book.shareable
  }

  /** The flag guard of approving a return, as written: archived or not shareable disqualifies. */
  predicate ApprovalBlocked(book: Book)
  {
    book.archived || !book.shareable
  }

  /** The book after an owner's toggle: the shareable flag flipped, all else as it was. */
  function Toggled(book: Book): Book
  {
    book.(shareable := !book.shareable)
  }

  /** A toggle flips `shareable`, never touches `archived`, and undoes itself. */
  lemma ToggledInvolution(book: Book)
    ensures Toggled(book).shareable == !book.shareable
    ensures Toggled(book).archived == book.archived
    ensures Toggled(Toggled(book)) == book
  {
  }

  class BookService {
    var books: Books
    var histories: Histories
    var nextBookId: BookId
    var nextHistoryId: HistoryId
    const queries: HistoryQueries

    /** Keys are below the next key to be assigned; a stored book knows its key and has an owner. */
    ghost predicate Valid()
      reads this
    {
      && queries.ReturnsStoredRows()
      && (forall k :: k in books ==> k < nextBookId && books[k].id == Some(k) && books[k].owner.Some?)
      && (forall k :: k in histories ==> k < nextHistoryId)
    }

    constructor (queries: HistoryQueries)
      requires queries.ReturnsStoredRows()
      ensures Valid()
      ensures books == map[] && histories == map[] && this.queries == queries
    {
      this.queries := queries;
      books, histories := map[], map[];
      nextBookId, nextHistoryId := 0, 0;
    }

    /**
     * Creates a book owned by the caller. A request id that names a stored
     * book overwrites that book (the repository's save merges); otherwise
     * the book gets the next key.
     */
    method Save(request: BookRequest, caller: User) returns (id: BookId)
      requires Valid()
      modifies this
      ensures Valid()
      ensures histories == old(histories) && nextHistoryId == old(nextHistoryId)
      ensures request.id.Some? && request.id.value in old(books) ==> id == request.id.value
      ensures !(request.id.Some? && request.id.value in old(books)) ==> id == old(nextBookId) && id !in old(books)
      ensures books == old(books)[id := Mapper.ToBook(request).(id := Some(id), owner := Some(caller))]
      ensures IsOwner(books[id], caller) && !books[id].archived && books[id].shareable == request.shareable
    {
      var book := Mapper.ToBook(request);
      book := book.(owner := Some(caller));
      if book.id.Some? && book.id.value in books {
        id := book.id.value;
      } else {
        id := nextBookId;
        nextBookId := nextBookId + 1;
      }
      books := books[id := book.(id := Some(id))];
    }

    /** The public view of a stored book, or not-found. */
    method FindById(bookId: BookId) returns (r: Result<BookResponse, Error>)
      requires Valid()
      ensures r.Success? <==> bookId in books
      ensures r.Success? ==> r.value == Mapper.ToBookResponse(books[bookId]) && r.value.id == Some(bookId)
      ensures r.Failure? ==> r.error == EntityNotFound(NoBookFoundById, bookId)
    {
      if bookId in books {
        r := Success(Mapper.ToBookResponse(books[bookId]));
      } else {
        r := Failure(EntityNotFound(NoBookFoundById, bookId));
      }
    }

    /** Flips the shareable flag of the caller's own book. */
    method UpdateShareableStatus(bookId: BookId, caller: User) returns (r: Result<BookId, Error>)
      requires Valid()
      modifies this
      ensures Valid()
      ensures histories == old(histories) && nextHistoryId == old(nextHistoryId) && nextBookId == old(nextBookId)
      ensures bookId !in old(books) ==> r == Failure(EntityNotFound(NoBookFound, bookId))
      ensures bookId in old(books) && !IsOwner(old(books)[bookId], caller) ==>
                r == Failure(OperationNotPermitted(CannotUpdateShareable))
      ensures r.Failure? ==> books == old(books)
      ensures r.Success? <==> bookId in old(books) && IsOwner(old(books)[bookId], caller)
      ensures r.Success? ==> r.value == bookId && books == old(books)[bookId := Toggled(old(books)[bookId])]
    {
      if bookId !in books {
        return Failure(EntityNotFound(NoBookFound, bookId));
      }
      var book := books[bookId];
      if !IsOwner(book, caller) {
        return Failure(OperationNotPermitted(CannotUpdateShareable));
      }
      books := books[bookId := Toggled(book)];
      r := Success(bookId);
    }

    /**
     * Meant to flip the archived flag; as written it flips the shareable flag,
     * exactly as `UpdateShareableStatus` does, and leaves `archived` alone.
     */
    method UpdateArchivedStatus(bookId: BookId, caller: User) returns (r: Result<BookId, Error>)
      requires Valid()
      modifies this
      ensures Valid()
      ensures histories == old(histories) && nextHistoryId == old(nextHistoryId) && nextBookId == old(nextBookId)
      ensures bookId !in old(books) ==> r == Failure(EntityNotFound(NoBookFound, bookId))
      ensures bookId in old(books) && !IsOwner(old(books)[bookId], caller) ==>
                r == Failure(OperationNotPermitted(CannotUpdateArchived))
      ensures r.Failure? ==> books == old(books)
      ensures r.Success? <==> bookId in old(books) && IsOwner(old(books)[bookId], caller)
      ensures r.Success? ==> r.value == bookId && books == old(books)[bookId := Toggled(old(books)[bookId])]
      ensures forall k :: k in books ==> books[k].archived == old(books)[k].archived
    {
      if bookId !in books {
        return Failure(EntityNotFound(NoBookFound, bookId));
      }
      var book := books[bookId];
      if !IsOwner(book, caller) {
        return Failure(OperationNotPermitted(CannotUpdateArchived));
      }
      books := books[bookId := Toggled(book)];
      r := Success(bookId);
    }

    /**
     * Opens a borrowing episode. As written, a shareable book is refused and
     * only the book's owner gets past the ownership guard.
     */
    method BorrowBooks(bookId: BookId, caller: User) returns (r: Result<HistoryId, Error>)
      requires Valid()
      modifies this
      ensures Valid()
      ensures books == old(books) && nextBookId == old(nextBookId)
      ensures bookId !in books ==> r == Failure(EntityNotFound(NoBookFound, bookId))
      ensures bookId in books && BorrowBlocked(books[bookId]) ==>
                r == Failure(OperationNotPermitted(CannotBorrow))
      ensures bookId in books && !BorrowBlocked(books[bookId]) && !IsOwner(books[bookId], caller) ==>
                r == Failure(OperationNotPermitted(CannotBorrowOwnBook))
      ensures bookId in books && !BorrowBlocked(books[bookId]) && IsOwner(books[bookId], caller)
              && queries.isAlreadyBorrowed(books, old(histories), bookId, caller.id) ==>
                r == Failure(OperationNotPermitted(AlreadyBorrowed))
      ensures r.Failure? ==> histories == old(histories) && nextHistoryId == old(nextHistoryId)
      ensures r.Success? <==>
                && bookId in books && !BorrowBlocked(books[bookId]) && IsOwner(books[bookId], caller)
                && !queries.isAlreadyBorrowed(books, old(histories), bookId, caller.id)
      ensures r.Success? ==>
                && r.value !in old(histories)
                && histories == old(histories)[r.value := BookTransactionHistory(bookId, caller.id, false, false)]
    {
      if bookId !in books {
        return Failure(EntityNotFound(NoBookFound, bookId));
      }
      var book := books[bookId];
      if BorrowBlocked(book) {
        return Failure(OperationNotPermitted(CannotBorrow));
      }
      if !IsOwner(book, caller) {
        return Failure(OperationNotPermitted(CannotBorrowOwnBook));
      }
      var isAlreadyBorrowed := queries.isAlreadyBorrowed(books, histories, bookId, caller.id);
      if isAlreadyBorrowed {
        return Failure(OperationNotPermitted(AlreadyBorrowed));
      }
      var id := nextHistoryId;
      histories := histories[id := BookTransactionHistory(bookId, caller.id, false, false)];
      nextHistoryId := nextHistoryId + 1;
      r := Success(id);
    }

    /**
     * Looks up the caller's episode for the book and saves it back as found:
     * as written, nothing marks the episode returned, so no table changes.
     */
    method ReturnBorrowBook(bookId: BookId, caller: User) returns (r: Result<HistoryId, Error>)
      requires Valid()
      modifies this
      ensures Valid()
      ensures books == old(books) && histories == old(histories)
      ensures nextBookId == old(nextBookId) && nextHistoryId == old(nextHistoryId)
      ensures bookId !in books ==> r == Failure(EntityNotFound(NoBookFound, bookId))
      ensures bookId in books && BorrowBlocked(books[bookId]) ==>
                r == Failure(OperationNotPermitted(CannotReturn))
      ensures bookId in books && !BorrowBlocked(books[bookId]) && !IsOwner(books[bookId], caller) ==>
                r == Failure(OperationNotPermitted(CannotBorrowOwnBook))
      ensures bookId in books && !BorrowBlocked(books[bookId]) && IsOwner(books[bookId], caller)
              && queries.findByBookIdAndUserId(books, histories, bookId, caller.id).Failure? ==>
                r == Failure(IncorrectResultSize)
      ensures bookId in books && !BorrowBlocked(books[bookId]) && IsOwner(books[bookId], caller)
              && queries.findByBookIdAndUserId(books, histories, bookId, caller.id) == Success(None) ==>
                r == Failure(OperationNotPermitted(NotBorrowed))
      ensures r.Success? <==>
                && bookId in books && !BorrowBlocked(books[bookId]) && IsOwner(books[bookId], caller)
                && queries.findByBookIdAndUserId(books, histories, bookId, caller.id).Success?
                && queries.findByBookIdAndUserId(books, histories, bookId, caller.id).value.Some?
      ensures r.Success? ==> queries.findByBookIdAndUserId(books, histories, bookId, caller.id) == Success(Some(r.value))
      ensures r.Success? ==> r.value in histories
    {
      if bookId !in books {
        return Failure(EntityNotFound(NoBookFound, bookId));
      }
      var book := books[bookId];
      if BorrowBlocked(book) {
        return Failure(OperationNotPermitted(CannotReturn));
      }
      if !IsOwner(book, caller) {
        return Failure(OperationNotPermitted(CannotBorrowOwnBook));
      }
      var found := queries.findByBookIdAndUserId(books, histories, bookId, caller.id);
      if found.Failure? {
        return Failure(found.error);
      }
      if found.value.None? {
        return Failure(OperationNotPermitted(NotBorrowed));
      }
      var id := found.value.value;
      histories := histories[id := histories[id]];
      r := Success(id);
    }

    /**
     * Marks the episode the owner query finds as return-approved. As written,
     * the book must be shareable and the book's owner is refused.
     */
    method ApproveReturnBorrowedBook(bookId: BookId, caller: User) returns (r: Result<HistoryId, Error>)
      requires Valid()
      modifies this
      ensures Valid()
      ensures books == old(books) && nextBookId == old(nextBookId) && nextHistoryId == old(nextHistoryId)
      ensures bookId !in books ==> r == Failure(EntityNotFound(NoBookFoundForApproval, bookId))
      ensures bookId in books && ApprovalBlocked(books[bookId]) ==>
                r == Failure(OperationNotPermitted(CannotApprove))
      ensures bookId in books && !ApprovalBlocked(books[bookId]) && IsOwner(books[bookId], caller) ==>
                r == Failure(OperationNotPermitted(CannotApproveOwnBook))
      ensures bookId in books && !ApprovalBlocked(books[bookId]) && !IsOwner(books[bookId], caller)
              && queries.findByBookIdAndOwnerId(books, old(histories), bookId, caller.id).Failure? ==>
                r == Failure(IncorrectResultSize)
      ensures bookId in books && !ApprovalBlocked(books[bookId]) && !IsOwner(books[bookId], caller)
              && queries.findByBookIdAndOwnerId(books, old(histories), bookId, caller.id) == Success(None) ==>
                r == Failure(OperationNotPermitted(NotReturnedYet))
      ensures r.Failure? ==> histories == old(histories)
      ensures r.Success? <==>
                && bookId in books && !ApprovalBlocked(books[bookId]) && !IsOwner(books[bookId], caller)
                && queries.findByBookIdAndOwnerId(books, old(histories), bookId, caller.id).Success?
                && queries.findByBookIdAndOwnerId(books, old(histories), bookId, caller.id).value.Some?
      ensures r.Success? ==> queries.findByBookIdAndOwnerId(books, old(histories), bookId, caller.id) == Success(Some(r.value))
      ensures r.Success? ==>
                && r.value in old(histories)
                && histories == old(histories)[r.value := old(histories)[r.value].(returnApproved := true)]
    {
      if bookId !in books {
        return Failure(EntityNotFound(NoBookFoundForApproval, bookId));
      }
      var book := books[bookId];
      if ApprovalBlocked(book) {
        return Failure(OperationNotPermitted(CannotApprove));
      }
      if IsOwner(book, caller) {
        return Failure(OperationNotPermitted(CannotApproveOwnBook));
      }
      var found := queries.findByBookIdAndOwnerId(books, histories, bookId, caller.id);
      if found.Failure? {
        return Failure(found.error);
      }
      if found.value.None? {
        return Failure(OperationNotPermitted(NotReturnedYet));
      }
      var id := found.value.value;
      var history := histories[id];
      history := history.(returnApproved := true);
      histories := histories[id := history];
      r := Success(id);
    }
  }

  /** Toggling the shareable status twice restores the book table. */
  method ShareableToggleTwice(service: BookService, bookId: BookId, owner: User)
    requires service.Valid() && bookId in service.books && IsOwner(service.books[bookId], owner)
    modifies service
    ensures service.Valid()
    ensures service.books == old(service.books) && service.histories == old(service.histories)
  {
    var first := service.UpdateShareableStatus(bookId, owner);
    var second := service.UpdateShareableStatus(bookId, owner);
    ToggledInvolution(old(service.books)[bookId]);
    assert service.books == old(service.books);
  }

  /** Toggling the "archived" status twice restores the book table, too. */
  method ArchivedToggleTwice(service: BookService, bookId: BookId, owner: User)
    requires service.Valid() && bookId in service.books && IsOwner(service.books[bookId], owner)
    modifies service
    ensures service.Valid()
    ensures service.books == old(service.books) && service.histories == old(service.histories)
  {
    var first := service.UpdateArchivedStatus(bookId, owner);
    var second := service.UpdateArchivedStatus(bookId, owner);
    ToggledInvolution(old(service.books)[bookId]);
    assert service.books == old(service.books);
  }

  /**
   * Right after a successful borrow, no caller can approve a return of that
   * book: the borrow left it unshareable, which the approval guard refuses.
   */
  method BorrowThenApprove(service: BookService, bookId: BookId, borrower: User, approver: User)
    returns (borrowed: Result<HistoryId, Error>, approved: Result<HistoryId, Error>)
    requires service.Valid()
    modifies service
    ensures borrowed.Success? ==> approved == Failure(OperationNotPermitted(CannotApprove))
  {
    borrowed := service.BorrowBooks(bookId, borrower);
    approved := service.ApproveReturnBorrowedBook(bookId, approver);
  }
}
