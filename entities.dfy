/**
 * The persisted records the services work on, the request and response records
 * the mapper converts between, and the exceptions the services throw.
 * Identifiers are the integer keys the persistence layer assigns.
 */
module Entities {
  import opened Wrappers

  type UserId = int
  type BookId = int
  type HistoryId = int
  type RoleId = int
  type TokenId = int

  /** A point in time, counted in whole minutes. */
  type Minutes = int

  datatype Role = Role(id: RoleId, name: string)

  datatype User = User(
    id: UserId,
    firstName: string,
    lastName: string,
    email: string,
    password: string,
    accountLocked: bool,
    enabled: bool,
    roles: seq<Role>)

  /** The display name of a user: first name, one space, last name. */
  function FullName(user: User): string
  {
    user.firstName + " " + user.lastName
  }

  /**
   * A book. `id` is absent until the book is persisted; `owner` is absent
   * until `BookService.save` stamps the connected user onto it.
   */
  datatype Book = Book(
    id: Option<BookId>,
    title: string,
    authorName: string,
    isbn: Option<string>,
    synopsis: string,
    bookCover: Option<string>,
    archived: bool,
    shareable: bool,
    owner: Option<User>,
    rate: real)

  /**
   * One borrowing episode, as a row of the history table: it refers to
   * its book and its borrowing user by key.
   */
  datatype BookTransactionHistory = BookTransactionHistory(
    bookId: BookId,
    userId: UserId,
    returned: bool,
    returnApproved: bool)

  /** An account-activation token bound to the user it was issued for. */
  datatype Token = Token(
    token: string,
    createdAt: Minutes,
    expiresAt: Minutes,
    validateAt: Option<Minutes>,
    user: User)

  datatype BookRequest = BookRequest(
    id: Option<BookId>,
    title: string,
    authorName: string,
    synopsis: string,
    shareable: bool)

  datatype BookResponse = BookResponse(
    id: Option<BookId>,
    title: string,
    authorName: string,
    isbn: Option<string>,
    synopsis: string,
    owner: string,
    cover: Option<seq<bv8>>,
    rate: real,
    archived: bool,
    shareable: bool)

  datatype BorrowedBookResponse = BorrowedBookResponse(
    id: Option<BookId>,
    title: string,
    authorName: string,
    isbn: Option<string>,
    rate: real,
    returned: bool,
    returnApproved: bool)

  datatype RegistrationRequest = RegistrationRequest(
    firstName: string,
    lastName: string,
    email: string,
    password: string)

  datatype EmailTemplate = ActivateAccountTemplate
  {
    function Name(): string { "activate_account" }
  }

  /** The arguments handed to the email service for one message. */
  datatype Email = Email(
    to: string,
    username: string,
    template: EmailTemplate,
    confirmationUrl: string,
    activationCode: string,
    subject: string)

  /** The exceptions the services throw. */
  datatype Error =
    | EntityNotFound(message: string, id: int)   // message followed by the id
    | OperationNotPermitted(message: string)
    | IllegalState(message: string)
    | Runtime(message: string)
    | UsernameNotFound(message: string)
    | Messaging                                   // the email service failed
    | IncorrectResultSize                         // a single-result query matched several rows
}
