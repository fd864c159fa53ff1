/** The bookmark handlers: add, remove, list, status and count. The
    caller is the authenticated user the auth gate attached to the request. */
module BookmarkController {

  import opened Common
  import opened Collection
  import opened BookmarkModel
  import PostModel
  import opened Database

  /** `checkPostBookmarkStatus`: whether `user` has bookmarked `post`. */
  function IsBookmarked(db: Db, user: Id, post: Id): bool
    reads db
    requires db.Valid()
  {
    HasPair(db.bookmarks, user, post, db.nextId)
  }

  /** `getBookmarkCount`: `countDocuments({ post })`. */
  function BookmarkCount(db: Db, post: Id): nat
    reads db
  {
    |Matching(db.bookmarks, OnPost(post))|
  }

  /** `addBookmark`: 404 for a missing post, 400 for a pair already
      stored, otherwise one new row for (caller, post) and 201. */
  method AddBookmark(db: Db, caller: Id, post: Id) returns (status: int)
    requires db.Valid()
    modifies db`bookmarks, db`nextId, db`clock
    ensures db.Valid()
    ensures post !in db.posts ==> status == StatusNotFound
    ensures post in db.posts && old(IsBookmarked(db, caller, post)) ==> status == StatusBadRequest
    ensures post in db.posts && !old(IsBookmarked(db, caller, post)) ==> status == StatusCreated
    ensures status != StatusCreated ==> db.bookmarks == old(db.bookmarks)
    ensures status == StatusCreated ==>
      && db.bookmarks == old(db.bookmarks)[old(db.nextId) := PairRow(caller, post, old(db.clock))]
      && IsBookmarked(db, caller, post)
      && BookmarkCount(db, post) == old(BookmarkCount(db, post)) + 1
  {
    if post !in db.posts {
      return StatusNotFound;
    }
    if HasPair(db.bookmarks, caller, post, db.nextId) {
      return StatusBadRequest;
    }
    PostCountAfterInsert(db.bookmarks, db.nextId, PairRow(caller, post, db.clock), post);
    var _ := db.InsertBookmark(caller, post);
    status := StatusCreated;
  }

  /** `removeBookmark`: deletes the caller's row for `post` and answers
      200, or answers 404 when there is none. */
  method RemoveBookmark(db: Db, caller: Id, post: Id) returns (status: int)
    requires db.Valid()
    modifies db`bookmarks
    ensures db.Valid()
    ensures status == (if old(IsBookmarked(db, caller, post)) then StatusOk else StatusNotFound)
    ensures db.bookmarks == old(db.bookmarks) - Matching(old(db.bookmarks), PairOf(caller, post))
    ensures !IsBookmarked(db, caller, post)
    ensures status == StatusOk ==> BookmarkCount(db, post) == old(BookmarkCount(db, post)) - 1
  {
    var found := FindFirst(db.bookmarks, PairOf(caller, post), db.nextId);
    if found.None? {
      assert Matching(db.bookmarks, PairOf(caller, post)) == {};
      return StatusNotFound;
    }
    var gone := Matching(db.bookmarks, PairOf(caller, post));
    UniquePairAtMostOne(db.bookmarks, caller, post);
    assert gone == {found.value};
    PostCountAfterRemove(db.bookmarks, caller, post);
    db.bookmarks := db.bookmarks - {found.value};
    status := StatusOk;
  }

  /** The time `user` saved `post`: the creation time of the pair's row. */
  function SavedAt(db: Db, user: Id, post: Id): Time
    reads db
    requires db.Valid() && IsBookmarked(db, user, post)
  {
    db.bookmarks[FindFirst(db.bookmarks, PairOf(user, post), db.nextId).value].createdAt
  }

  /** One entry of the bookmark list: the post's own fields plus the flag. */
  datatype BookmarkedPost = BookmarkedPost(postId: Id, post: PostModel.Post, isBookmarked: bool)

  /** The rows of `user` whose post still exists, newest first. */
  function LiveRows(db: Db, user: Id): (rows: seq<Id>)
    reads db
    requires KeysBelow(db.bookmarks, db.nextId)
    ensures forall i :: 0 <= i < |rows| ==>
      rows[i] in db.bookmarks && db.bookmarks[rows[i]].user == user && db.bookmarks[rows[i]].post in db.posts
    ensures forall id ::
      id in db.bookmarks && db.bookmarks[id].user == user && db.bookmarks[id].post in db.posts ==> id in rows
    ensures StrictlyDescending(rows)
  {
    var bm, ps := db.bookmarks, db.posts;
    var newest := Descending(bm, ByUser(user), db.nextId);
    var live := (id: Id) => id in bm && bm[id].post in ps;
    FilterKeepsDescending(newest, live);
    var rows := Filter(newest, live);
    assert forall i :: 0 <= i < |rows| ==> rows[i] in rows;
    assert forall id :: id in bm && ByUser(user)(bm[id]) ==> id in Matching(bm, ByUser(user));
    rows
  }

  /** The list entry for each row: the row's post, flagged. */
  function Entries(bm: map<Id, PairRow>, ps: map<Id, PostModel.Post>, rows: seq<Id>): (r: seq<BookmarkedPost>)
    requires forall i :: 0 <= i < |rows| ==> rows[i] in bm && bm[rows[i]].post in ps
    ensures |r| == |rows|
    ensures forall i :: 0 <= i < |rows| ==> r[i] == BookmarkedPost(bm[rows[i]].post, ps[bm[rows[i]].post], true)
  {
    if rows == [] then [] else [BookmarkedPost(bm[rows[0]].post, ps[bm[rows[0]].post], true)] + Entries(bm, ps, rows[1..])
  }

  /** `getUserBookmarks`: the posts bookmarked by the user named in the
      request, or else by the caller, most recently saved first, each
      flagged `isBookmarked`; bookmarks of deleted posts are skipped. */
  function GetUserBookmarks(db: Db, caller: Id, userParam: Option<Id>): (r: seq<BookmarkedPost>)
    reads db
    requires db.Valid()
    ensures var owner := userParam.GetOr(caller);
      && (forall i :: 0 <= i < |r| ==>
            && r[i].isBookmarked
            && r[i].postId in db.posts && r[i].post == db.posts[r[i].postId]
            && IsBookmarked(db, owner, r[i].postId))
      && (forall p :: p in db.posts && IsBookmarked(db, owner, p) ==>
            exists i :: 0 <= i < |r| && r[i].postId == p)
      && (forall i, j :: 0 <= i < j < |r| ==>
            SavedAt(db, owner, r[i].postId) > SavedAt(db, owner, r[j].postId))
  {
    var owner := userParam.GetOr(caller);
    var rows := LiveRows(db, owner);
    var r := Entries(db.bookmarks, db.posts, rows);
    SavedAtIsRowTime(db, owner, rows);
    ListingComplete(db, owner, rows, r);
    r
  }

  /** Every live bookmark of `user` shows up in the listing. */
  lemma ListingComplete(db: Db, user: Id, rows: seq<Id>, r: seq<BookmarkedPost>)
    requires db.Valid()
    requires forall id ::
      id in db.bookmarks && db.bookmarks[id].user == user && db.bookmarks[id].post in db.posts ==> id in rows
    requires forall i :: 0 <= i < |rows| ==> rows[i] in db.bookmarks
    requires |r| == |rows| && forall i :: 0 <= i < |rows| ==> r[i].postId == db.bookmarks[rows[i]].post
    ensures forall p :: p in db.posts && IsBookmarked(db, user, p) ==> exists i :: 0 <= i < |r| && r[i].postId == p
  {
    forall p | p in db.posts && IsBookmarked(db, user, p)
      ensures exists i :: 0 <= i < |r| && r[i].postId == p
    {
      var id :| id in db.bookmarks && db.bookmarks[id].user == user && db.bookmarks[id].post == p;
      var i :| 0 <= i < |rows| && rows[i] == id;
      assert r[i].postId == p;
    }
  }

  /** Along a list of the user's live rows, the saving time of each row's
      post is the row's own creation time, so newest-first by id is
      newest-first by time. */
  lemma SavedAtIsRowTime(db: Db, user: Id, rows: seq<Id>)
    requires db.Valid()
    requires forall i :: 0 <= i < |rows| ==>
      rows[i] in db.bookmarks && db.bookmarks[rows[i]].user == user
    requires StrictlyDescending(rows)
    ensures forall i :: 0 <= i < |rows| ==>
      IsBookmarked(db, user, db.bookmarks[rows[i]].post)
      && SavedAt(db, user, db.bookmarks[rows[i]].post) == db.bookmarks[rows[i]].createdAt
    ensures forall i, j :: 0 <= i < j < |rows| ==>
      db.bookmarks[rows[i]].createdAt > db.bookmarks[rows[j]].createdAt
  {
    forall i | 0 <= i < |rows|
      ensures IsBookmarked(db, user, db.bookmarks[rows[i]].post)
      ensures SavedAt(db, user, db.bookmarks[rows[i]].post) == db.bookmarks[rows[i]].createdAt
    {
      var id := rows[i];
      var post := db.bookmarks[id].post;
      forall other | other in Matching(db.bookmarks, PairOf(user, post)) ensures other == id {
      }
      FindFirstUnique(db.bookmarks, PairOf(user, post), db.nextId, id);
    }
  }
}
