/**
 * The bookmark model: an account owns bookmarks, each a uri with a
 * description. A bookmark is not changed after it is built: there are only
 * a constructor, the copying factory `from` and getters (the datatype's
 * fields here).
 */
module BookmarkEntity {
  import opened Common

  /** An account: bookmarks are filed under its username. */
  datatype Account = Account(id: Option<int>, username: string, password: string)

  datatype Bookmark = Bookmark(id: Option<int>, account: Account, uri: string, description: string)

  /** `new Bookmark(account, uri, description)`: the identifier is left unset. */
  function NewBookmark(account: Account, uri: string, description: string): (b: Bookmark)
    ensures b.id.None?
    ensures b.account == account && b.uri == uri && b.description == description
  {
    Bookmark(None, account, uri, description)
  }

  /** `Bookmark.from(account, bookmark)`: uri and description copied for `account`, without an id. */
  function From(account: Account, bookmark: Bookmark): (b: Bookmark)
    ensures b.id.None?
    ensures b.account == account && b.uri == bookmark.uri && b.description == bookmark.description
  {
    NewBookmark(account, bookmark.uri, bookmark.description)
  }

  /** Copying a bookmark for its own account gives it back without its id. */
  lemma FromOwnAccountForgetsId(bookmark: Bookmark)
    ensures From(bookmark.account, bookmark) == bookmark.(id := None)
  {
  }

  /** `from` reads nothing of the source but its uri and description. */
  lemma FromReadsOnlyUriAndDescription(account: Account, b1: Bookmark, b2: Bookmark)
    requires b1.uri == b2.uri && b1.description == b2.description
    ensures From(account, b1) == From(account, b2)
  {
  }
}
