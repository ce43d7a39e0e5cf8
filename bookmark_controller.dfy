/**
 * `BookmarkRestController` of the rest variant: the bookmarks of one user,
 * addressed by username. Every handler first checks that an account with
 * that username exists and fails with `UserNotFound` otherwise.
 */
module BookmarkControl {
  import opened Common
  import opened Store
  import opened BookmarkEntity

  datatype BookmarkError = UserNotFound(userId: string)

  /** How `add` answers: 201 with the new bookmark's id, or 204. */
  datatype AddResponse = Created(id: int) | NoContent

  /** Some stored account has this username. */
  predicate HasUser(accounts: map<int, Account>, username: string) {
    exists k :: k in accounts && accounts[k].username == username
  }

  /**
   * `findByUsername`: an account with that username, or nothing when there
   * is none.
   */
  method FindByUsername(accounts: map<int, Account>, username: string) returns (r: Option<Account>)
    ensures r.None? <==> !HasUser(accounts, username)
    ensures r.Some? ==> r.value in accounts.Values && r.value.username == username
  {
    var pending := accounts.Keys;
    while pending != {}
      invariant pending <= accounts.Keys
      invariant forall k :: k in accounts && k !in pending ==> accounts[k].username != username
      decreases pending
    {
      // makes the `:|` below provably satisfiable
      ghost var some := SomeElement(pending);
      var k :| k in pending;
      if accounts[k].username == username {
        return Some(accounts[k]);
      }
      pending := pending - {k};
    }
    return None;
  }

  /** `findByAccountUsername`: the stored bookmarks whose account has that username. */
  function OwnedBy(bookmarks: map<int, Bookmark>, username: string): (r: set<Bookmark>)
    ensures forall k :: k in bookmarks ==> (bookmarks[k] in r <==> bookmarks[k].account.username == username)
    ensures forall b :: b in r ==> b in bookmarks.Values && b.account.username == username
  {
    set b | b in bookmarks.Values && b.account.username == username
  }

  class BookmarkRestController {
    const bookmarkRepository: Repository<Bookmark>
    const accountRepository: Repository<Account>

    /** Both stores are valid and every bookmark is stored under its own id. */
    ghost predicate Valid()
      reads this, bookmarkRepository, accountRepository
    {
      && bookmarkRepository.Valid()
      && accountRepository.Valid()
      && forall k :: k in bookmarkRepository.rows ==> bookmarkRepository.rows[k].id == Some(k)
    }

    constructor (bookmarkRepository: Repository<Bookmark>, accountRepository: Repository<Account>)
      requires bookmarkRepository.Valid() && accountRepository.Valid()
      requires forall k :: k in bookmarkRepository.rows ==> bookmarkRepository.rows[k].id == Some(k)
      ensures this.bookmarkRepository == bookmarkRepository
      ensures this.accountRepository == accountRepository
      ensures Valid()
    {
      this.bookmarkRepository := bookmarkRepository;
      this.accountRepository := accountRepository;
    }

    /** `validateUser`: fails with `UserNotFound` exactly when no account has the username. */
    method ValidateUser(userId: string) returns (error: Option<BookmarkError>)
      ensures error.None? <==> HasUser(accountRepository.rows, userId)
      ensures error.Some? ==> error.value == UserNotFound(userId)
    {
      var account := FindByUsername(accountRepository.rows, userId);
      if account.None? {
        return Some(UserNotFound(userId));
      }
      return None;
    }

    /** `readBookmarks`: exactly the bookmarks filed under the user. */
    method ReadBookmarks(userId: string) returns (r: Result<set<Bookmark>, BookmarkError>)
      ensures HasUser(accountRepository.rows, userId) ==>
        r == Success(OwnedBy(bookmarkRepository.rows, userId))
      ensures !HasUser(accountRepository.rows, userId) ==> r == Failure(UserNotFound(userId))
    {
      var error := ValidateUser(userId);
      if error.Some? {
        return Failure(error.value);
      }
      r := Success(OwnedBy(bookmarkRepository.rows, userId));
    }

    /**
     * `add`: for a known user, stores one new bookmark under a fresh id,
     * built from the request's uri and description and the user's account;
     * the request's own id and account are ignored. Nothing else changes,
     * and the 204 answer is never given, because the user was checked first.
     */
    method Add(userId: string, input: Bookmark) returns (r: Result<AddResponse, BookmarkError>)
      requires Valid()
      modifies bookmarkRepository
      ensures Valid()
      ensures !HasUser(accountRepository.rows, userId) ==>
        r == Failure(UserNotFound(userId)) && bookmarkRepository.rows == old(bookmarkRepository.rows)
      ensures HasUser(accountRepository.rows, userId) ==> r.Success? && r.value.Created?
      ensures r.Success? ==>
        var k := r.value.id;
        k in bookmarkRepository.rows &&
        var added := bookmarkRepository.rows[k];
        && k == old(bookmarkRepository.FreshId())
        && bookmarkRepository.rows == old(bookmarkRepository.rows)[k := added]
        && added == Bookmark(Some(k), added.account, input.uri, input.description)
        && added.account in accountRepository.rows.Values
        && added.account.username == userId
    {
      var error := ValidateUser(userId);
      if error.Some? {
        return Failure(error.value);
      }
      var account := FindByUsername(accountRepository.rows, userId);
      match account
      case None =>
        r := Success(NoContent);
      case Some(owner) =>
        var k := bookmarkRepository.FreshId();
        var saved := NewBookmark(owner, input.uri, input.description).(id := Some(k));
        bookmarkRepository.Put(k, saved);
        r := Success(Created(k));
    }

    /**
     * `readBookmark`: the bookmark stored under `bookmarkId`, or none,
     * whether or not it belongs to the user.
     */
    method ReadBookmark(userId: string, bookmarkId: int) returns (r: Result<Option<Bookmark>, BookmarkError>)
      ensures HasUser(accountRepository.rows, userId) ==>
        r == Success(bookmarkRepository.FindById(bookmarkId))
      ensures !HasUser(accountRepository.rows, userId) ==> r == Failure(UserNotFound(userId))
    {
      var error := ValidateUser(userId);
      if error.Some? {
        return Failure(error.value);
      }
      r := Success(bookmarkRepository.FindById(bookmarkId));
    }
  }
}
