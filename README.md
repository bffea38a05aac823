# Book Social Network: lending rules and account activation, in Dafny

This project models the core of a library-lending backend written in Java with
Spring. Two services carry its logic:

- `BookService` creates books, lets an owner toggle a book's flags, and runs the
  borrow / return / approve-return workflow over the book table and the
  borrowing-history table (one row per borrowing episode).
- `AuthenticationService` registers disabled users, issues six-digit
  activation codes that expire after 15 minutes, and enables an account when
  a code is presented in time. An expired code makes it issue a new one.

Around them sit `BookMapper` (pure record conversions), the role repository,
and the startup runner that makes sure a `USER` role exists.

Each table is a `map` from key to record, held in a class field. New rows get
the next key from a counter, as the database's identity column does. A
service operation is a method that runs the source's guards in the source's
order. In the `BookService` operations, `Register` and the startup runner,
the first guard that fails returns an `Error` value and writes nothing;
otherwise the method performs the write. Two operations write before they
fail: `SendValidationEmail` stores its token and then reports a failed email,
and `ActivateAccount` on an expired token stores a new token and then fails.
Every service operation's postconditions state the result for every guard
outcome and the whole new state of the tables. The pure
conversions are functions, with lemmas about what they preserve.

The clock is a `now` parameter counted in whole minutes. The secure random
source is a function `nat -> DigitIndex` giving the i-th draw of
`nextInt(10)`. The email service is a function `Email -> bool` that says
whether it accepted a message; `false` stands for the `MessagingException` it
can throw. The password encoder's output is a parameter of `Register`.

Modules: `Wrappers` (Option/Result/Outcome), `Entities` (records and
exceptions), `Mapper`, `Books`, `Roles`, `Auth`, `Application`.

## Where the code departs from its evident intent

The model follows the code as written. In these places the code's own words
say something else was meant:

- Borrowing and returning refuse a book that is archived **or shareable**
  (book/BookService.java:159 and :189), so only an unshareable book can be
  borrowed, although the return path's message reads "…since its archived or
  not shareable" (:191). Approving a return refuses a book that is archived
  or **not** shareable (:210).
- Borrowing and returning throw when the caller is **not** the owner
  (:165 and :195), so only the owner gets through, although the message is
  "You cant borrow your own book" (:166 and :196). Approving a return refuses
  the owner (:215).
- Returning finds the caller's episode and saves it back unchanged
  (:200-203). Nothing sets `returned`.
- The method named `updateArchivedStatus` (:143) flips `shareable` (:151),
  exactly as `updateShareableStatus` does; `archived` is never changed.
- Activation sets `validateAt` (auth/AuthenticationService.java:127) but
  never reads it, so a token that was already used activates again as long
  as it has not expired.
- `register` (:42-56) does not send the activation email;
  `sendValidationEmail` (:58) is a separate public operation.
- Saving a book whose request carries the key of an existing book overwrites
  that book, including its owner, because `toBook` copies the request's id
  (book/BookMapper.java:10) and the repository's `save` merges.

`Books.BorrowThenApprove` proves one consequence: right after a successful
borrow, every approval of that book fails on the flag guard.

## Model

| member | source | states |
|---|---|---|
| `Mapper.ToBook` | src/main/java/com/tech/BookStore/book/BookMapper.java:8-17 | builds an unsaved book from a request; its properties are stated by `ToBookNeverArchived` and `ToBookCopiesRequest` |
| `Mapper.ToBookResponse` | src/main/java/com/tech/BookStore/book/BookMapper.java:19-31 | the public view of a book with an owner; its properties are stated by `ToBookResponsePreserves` and `ResponseOfRequest` |
| `Mapper.ToBorrowedBookResponse` | src/main/java/com/tech/BookStore/book/BookMapper.java:33-44 | the view of one episode and its book; its properties are stated by `BorrowedResponseAgreesWithBookResponse` |
| `Mapper.ToBookNeverArchived` | src/main/java/com/tech/BookStore/book/BookMapper.java:14 | every book built from a request has `archived = false`, whatever the request |
| `Mapper.ToBookCopiesRequest` | src/main/java/com/tech/BookStore/book/BookMapper.java:8-17 | `toBook` copies id, title, author, synopsis and shareable from the request and leaves owner, isbn and cover empty |
| `Mapper.ToBookResponsePreserves` | src/main/java/com/tech/BookStore/book/BookMapper.java:19-31 | `toBookResponse` preserves id, title, author, isbn, synopsis, rate, archived and shareable, and shows the owner by full name |
| `Mapper.ResponseOfRequest` | src/main/java/com/tech/BookStore/book/BookMapper.java:8-31 | viewing a book built from a request and stamped with an owner gives back the request's id, title, author, synopsis and shareable flag, unarchived, owned by that user's full name |
| `Mapper.BorrowedResponseAgreesWithBookResponse` | src/main/java/com/tech/BookStore/book/BookMapper.java:33-44 | an episode's view describes its book exactly as the book's own view does (id, title, author, isbn, rate) and takes `returned`/`returnApproved` from the episode |
| `Books.HistoryQueries` | src/main/java/com/tech/BookStore/book/BookService.java:170-222 | the history repository's `isAlreadyBorrowed`, `findByBookIdAndUserId` and `findByBookIdAndOwnerId` (called at :170, :200 and :219) as functions of the two tables; the two finders are single-result lookups: `ReturnsStoredRows` says a found row is a stored row and that their only failure is an incorrect-result-size error, raised when several rows match |
| `Books.ToggledInvolution` | src/main/java/com/tech/BookStore/book/BookService.java:138-139 | an owner's toggle flips `shareable`, leaves `archived` alone, and applied twice restores the book |
| `Books.BookService.constructor` | src/main/java/com/tech/BookStore/book/BookService.java:23-28 | the service starts with empty tables and the injected history queries |
| `Books.BookService.Save` | src/main/java/com/tech/BookStore/book/BookService.java:30-37 | stores the mapped book stamped with the caller as owner; a request key naming a stored book overwrites it, otherwise the book gets a fresh key; the history table is untouched |
| `Books.BookService.FindById` | src/main/java/com/tech/BookStore/book/BookService.java:39-44 | succeeds exactly when the key is stored, with that book's response; otherwise not-found with the key |
| `Books.BookService.UpdateShareableStatus` | src/main/java/com/tech/BookStore/book/BookService.java:130-141 | unknown key: not-found; non-owner: refused; both leave the tables unchanged; the owner gets the book with `shareable` flipped and nothing else changed |
| `Books.BookService.UpdateArchivedStatus` | src/main/java/com/tech/BookStore/book/BookService.java:143-154 | same guards as the shareable toggle with its own message; the owner's call flips `shareable`, and no book's `archived` flag changes |
| `Books.BookService.BorrowBooks` | src/main/java/com/tech/BookStore/book/BookService.java:156-184 | guards in order: not-found, archived-or-shareable, caller not the owner, already borrowed; each failure writes nothing; success adds exactly one episode (book, caller, not returned, not approved) under a fresh key and changes nothing else |
| `Books.BookService.ReturnBorrowBook` | src/main/java/com/tech/BookStore/book/BookService.java:186-205 | same flag and ownership guards as borrowing, then the finder's incorrect-result-size failure when several episodes match, and "You did not borrow this book" when it finds none; on success returns the found episode's key; no table changes in any case, so `returned` is never set |
| `Books.BookService.ApproveReturnBorrowedBook` | src/main/java/com/tech/BookStore/book/BookService.java:207-224 | guards in order: not-found, archived-or-not-shareable, caller is the owner, several episodes found (incorrect result size), no episode found; failures write nothing; success sets `returnApproved` on the found episode only |
| `Books.ShareableToggleTwice` | src/main/java/com/tech/BookStore/book/BookService.java:130-141 | two shareable toggles by the owner leave both tables as they were |
| `Books.ArchivedToggleTwice` | src/main/java/com/tech/BookStore/book/BookService.java:143-154 | two "archived" toggles by the owner leave both tables as they were |
| `Books.BorrowThenApprove` | src/main/java/com/tech/BookStore/book/BookService.java:156-224 | after a successful borrow, an approval of the same book by any caller fails on the flag guard |
| `Roles.RoleRepo.constructor` | src/main/java/com/tech/BookStore/role/RoleRepo.java:7-11 | the role table starts empty |
| `Roles.RoleRepo.FindByName` | src/main/java/com/tech/BookStore/role/RoleRepo.java:10 | a single-result query: no role with the name gives an empty result, exactly one gives that role, several make it fail with an incorrect-result-size error |
| `Roles.RoleRepo.Save` | src/main/java/com/tech/BookStore/role/RoleRepo.java:7 | adds one role with the given name under a fresh key and changes no other role |
| `Application.SeedUserRole` | src/main/java/com/tech/BookStore/BookStoreApplication.java:24-32 | afterwards a USER role exists; an existing USER role leaves the table unchanged; existing roles are untouched and at most one role, named USER, is added |
| `Application.SeedUserRoleIdempotent` | src/main/java/com/tech/BookStore/BookStoreApplication.java:24-32 | seeding twice gives the same role table as seeding once |
| `Application.Runner` | src/main/java/com/tech/BookStore/BookStoreApplication.java:21-33 | the runner leaves the role table as `SeedUserRole` of the old table and the next key; it fails, writing nothing, exactly when the lookup finds several USER roles |
| `Application.RunnerTwice` | src/main/java/com/tech/BookStore/BookStoreApplication.java:24-32 | running the runner twice leaves the table as one run does, with the same outcome both times |
| `Application.RunnerThenRegister` | src/main/java/com/tech/BookStore/auth/AuthenticationService.java:44-55 | once the runner has completed without failing, `register` succeeds |
| `Auth.AuthenticationService.constructor` | src/main/java/com/tech/BookStore/auth/AuthenticationService.java:27-38 | the service starts with no users and no tokens, bound to the shared role repository and the activation URL |
| `Auth.AuthenticationService.Register` | src/main/java/com/tech/BookStore/auth/AuthenticationService.java:42-56 | fails, saving nothing, exactly when the USER lookup does not find exactly one role: "Role user is not initialized" when there is none, the lookup's incorrect-result-size error when there are several; otherwise saves one new user with the request's names and email, the encoded password, `enabled = false`, `accountLocked = false` and that stored USER role as its only role |
| `Auth.AuthenticationService.GenerateActivationCode` | src/main/java/com/tech/BookStore/auth/AuthenticationService.java:86-95 | the code has exactly `length` characters (none for a negative length), each a decimal digit, the i-th chosen by the i-th random draw |
| `Auth.AuthenticationService.GenerateAndSaveActivationToken` | src/main/java/com/tech/BookStore/auth/AuthenticationService.java:72-84 | stores exactly one new token for the user whose code is the returned six-digit string, created now, expiring 15 minutes later, not validated |
| `Auth.AuthenticationService.SendValidationEmail` | src/main/java/com/tech/BookStore/auth/AuthenticationService.java:58-71 | the new token is stored whether or not the email service accepts the message; the outcome is a messaging failure exactly when it refuses the activation email carrying that token's code |
| `Auth.AuthenticationService.ActivateAccount` | src/main/java/com/tech/BookStore/auth/AuthenticationService.java:115-129 | unknown code: "Invalid token", nothing changes; now strictly after expiry: a new token for the same user expiring later, the user and the old token unchanged, then failure; otherwise (expiry inclusive) the bound user becomes enabled and the token's `validateAt` becomes now, whatever `validateAt` was |
| `Auth.ActivateTwice` | src/main/java/com/tech/BookStore/auth/AuthenticationService.java:117-128 | two activations with the same unexpired code both succeed and leave the user enabled |

## Left out

- Paginated finders `findAllBooks`, `findAllBooksByOwner`, `findAllBorrowedOwner`, `findAllReturnedBooks`: their repository queries and Spring's paging are not part of this model.
- `uploadBookCoverPicture` and `FileStorageService`: file I/O, and `uploadFile` has no body.
- `authenticate`: a wrapper over the authentication manager and the JWT signer, both external.
- Repository query text: `isAlreadyBorrowed`, `findByBookIdAndUserId` and `findByBookIdAndOwnerId` are functions of the two tables supplied when the service is built. The finders are assumed only to return stored rows or to fail because several rows match; which rows match is not modelled. So "a second borrow before any return fails" cannot be stated.
- Token lookup `findByToken`: taken as a single-result query on the code, so several tokens with the same code give an `IncorrectResultSize` failure.
- `ActivateAccount`: does not model the rollback that `@Transactional` performs when the expiry exception propagates; the resent token stays stored, as the writes happen in program order.
- Time: `LocalDateTime` is modelled as whole minutes, and the two clock reads at lines 77-78 (and at 118 and 127) are taken as one instant.
- Audit columns (created/modified date and user) are not modelled, so the save in `returnBorrowBook` changes nothing.
- Saving a book whose request key is not stored gets a fresh key; the persistence layer's handling of that case is taken to be an insert.
- `Book.java`, `User.java`, `Token.java`, `Role.java` and `BookTransactionHistory.java` are not part of this model. The records carry the fields the services use; a book's `rate` is a stored value; `fullName()` is the first name, a space and the last name.
- Password hashing and email delivery are foreign calls: the encoded password is a parameter and the email service is a function saying whether it accepted a message.
- Bean validation of requests, unique e-mail addresses and concurrency between requests are not modelled.
- `AuthenticationController`, `userDetailsServiceImpl` and `EmailTemplate` are routing, framework glue and a one-value enum.
