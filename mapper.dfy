/** BookMapper: conversions between requests, books, episodes and responses. */
module Mapper {
  import opened Wrappers
  import opened Entities

  /**
   * Builds an unsaved book from a creation request. Fields the request does
   * not carry are left empty; a fresh book has no ratings, so its rate is 0.
   */
  function ToBook(request: BookRequest): Book
  {
    Book(
      id := request.id,
      title := request.title,
      authorName := request.authorName,
      isbn := None,
      synopsis := request.synopsis,
      bookCover := None,
      archived := false,
      shareable := request.shareable,
      owner := None,
      rate := 0.0)
  }

  /** The public view of a book. The owner is shown by full name, so a book must have one. */
  function ToBookResponse(book: Book): BookResponse
    requires book.owner.Some?
  {
    BookResponse(
      id := book.id,
      title := book.title,
      authorName := book.authorName,
      isbn := book.isbn,
      synopsis := book.synopsis,
      owner := FullName(book.owner.value),
      cover := None,
      rate := book.rate,
      archived := book.archived,
      shareable := book.shareable)
  }

  /**
   * The view of one borrowing episode. `book` is the row the episode refers to
   * (the episode's `getBook()`).
   */
  function ToBorrowedBookResponse(history: BookTransactionHistory, book: Book): BorrowedBookResponse
    requires book.id == Some(history.bookId)
  {
    BorrowedBookResponse(
      id := book.id,
      title := book.title,
      authorName := book.authorName,
      isbn := book.isbn,
      rate := book.rate,
      returned := history.returned,
      returnApproved := history.returnApproved)
  }

  /** A book built from a request is never archived, whatever the request says. */
  lemma ToBookNeverArchived()
    ensures forall request: BookRequest :: !ToBook(request).archived
  {
  }

  /** `ToBook` carries over exactly the id, title, author, synopsis and shareable flag. */
  lemma ToBookCopiesRequest(request: BookRequest)
    ensures var book := ToBook(request);
      && book.id == request.id && book.title == request.title
      && book.authorName == request.authorName && book.synopsis == request.synopsis
      && book.shareable == request.shareable
      && book.owner.None? && book.isbn.None? && book.bookCover.None?
  {
  }

  /** `ToBookResponse` preserves every descriptive field and flag of the book. */
  lemma ToBookResponsePreserves(book: Book)
    requires book.owner.Some?
    ensures var response := ToBookResponse(book);
      && response.id == book.id && response.title == book.title
      && response.authorName == book.authorName && response.isbn == book.isbn
      && response.synopsis == book.synopsis && response.rate == book.rate
      && response.archived == book.archived && response.shareable == book.shareable
      && response.owner == FullName(book.owner.value)
  {
  }

  /**
   * Creating a book from a request, stamping an owner on it and viewing it
   * gives back the request's title, author, synopsis and shareable flag,
   * unarchived and shown as owned by that user.
   */
  lemma ResponseOfRequest(request: BookRequest, owner: User)
    ensures var response := ToBookResponse(ToBook(request).(owner := Some(owner)));
      && response.id == request.id && response.title == request.title
      && response.authorName == request.authorName && response.synopsis == request.synopsis
      && response.shareable == request.shareable && !response.archived
      && response.owner == FullName(owner)
  {
  }

  /**
   * The view of an episode describes its book exactly as the book's own view
   * does, and takes the two flags from the episode.
   */
  lemma BorrowedResponseAgreesWithBookResponse(history: BookTransactionHistory, book: Book)
    requires book.id == Some(history.bookId) && book.owner.Some?
    ensures var borrowed := ToBorrowedBookResponse(history, book);
      var shown := ToBookResponse(book);
      && borrowed.id == shown.id == Some(history.bookId)
      && borrowed.title == shown.title && borrowed.authorName == shown.authorName
      && borrowed.isbn == shown.isbn && borrowed.rate == shown.rate
      && borrowed.returned == history.returned && borrowed.returnApproved == history.returnApproved
  {
  }
}
