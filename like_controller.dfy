/** The like handlers: create, delete, the caller's likes, status and
    count. Likes are (user, post) rows like bookmarks; the store's unique
    index on the pair is what turns a second like into an error. */
module LikeController {

  import opened Common
  import opened Collection
  import opened BookmarkModel
  import PostModel
  import opened Database

  /** `checkLikeStatus`: whether `user` has liked `post`. */
  function IsLiked(db: Db, user: Id, post: Id): (b: bool)
    reads db
    requires db.Valid()
    ensures b <==> exists id :: id in db.likes && db.likes[id].user == user && db.likes[id].post == post
  {
    HasPair(db.likes, user, post, db.nextId)
  }

  /** `getLikeCount`: `countDocuments({ post })`. */
  function LikeCount(db: Db, post: Id): (n: nat)
    reads db
    ensures n == 0 <==> forall id :: id in db.likes ==> db.likes[id].post != post
  {
    var found := Matching(db.likes, OnPost(post));
    assert forall id :: id in db.likes && db.likes[id].post == post ==> id in found;
    |found|
  }

  /** `createLike`: 404 for a missing post; otherwise the row is saved and
      201 sent, unless the pair is already stored, which the unique index
      rejects with the duplicate-key error and the handler turns into 400. */
  method CreateLike(db: Db, caller: Id, post: Id) returns (status: int)
    requires db.Valid()
    modifies db`likes, db`nextId, db`clock
    ensures db.Valid()
    ensures post !in db.posts ==> status == StatusNotFound
    ensures post in db.posts && old(IsLiked(db, caller, post)) ==> status == StatusBadRequest
    ensures post in db.posts && !old(IsLiked(db, caller, post)) ==> status == StatusCreated
    ensures status != StatusCreated ==> db.likes == old(db.likes)
    ensures status == StatusCreated ==>
      && db.likes == old(db.likes)[old(db.nextId) := PairRow(caller, post, old(db.clock))]
      && IsLiked(db, caller, post)
      && LikeCount(db, post) == old(LikeCount(db, post)) + 1
  {
    if post !in db.posts {
      return StatusNotFound;
    }
    if HasPair(db.likes, caller, post, db.nextId) {
      // error code 11000
      return StatusBadRequest;
    }
    PostCountAfterInsert(db.likes, db.nextId, PairRow(caller, post, db.clock), post);
    var _ := db.InsertLike(caller, post);
    status := StatusCreated;
  }

  /** `deleteLike`: removes the caller's row for `post` and nobody else's;
      404 when the caller has none. */
  method DeleteLike(db: Db, caller: Id, post: Id) returns (status: int)
    requires db.Valid()
    modifies db`likes
    ensures db.Valid()
    ensures status == (if old(IsLiked(db, caller, post)) then StatusOk else StatusNotFound)
    ensures db.likes == old(db.likes) - Matching(old(db.likes), PairOf(caller, post))
    ensures !IsLiked(db, caller, post)
    ensures forall other :: other != caller ==> IsLiked(db, other, post) == old(IsLiked(db, other, post))
    ensures status == StatusOk ==> LikeCount(db, post) == old(LikeCount(db, post)) - 1
  {
    var found := FindFirst(db.likes, PairOf(caller, post), db.nextId);
    if found.None? {
      assert Matching(db.likes, PairOf(caller, post)) == {};
      return StatusNotFound;
    }
    var gone := Matching(db.likes, PairOf(caller, post));
    UniquePairAtMostOne(db.likes, caller, post);
    assert gone == {found.value};
    PostCountAfterRemove(db.likes, caller, post);
    ghost var before := db.likes;
    db.likes := db.likes - {found.value};
    forall other | other != caller
      ensures IsLiked(db, other, post) == HasPair(before, other, post, db.nextId)
    {
      if HasPair(before, other, post, db.nextId) {
        var id :| id in before && before[id].user == other && before[id].post == post;
        assert id in db.likes;
      }
    }
    status := StatusOk;
  }

  /** Liking twice, starting from no like, leaves exactly one like: the
      second call is refused. */
  method LikeTwice(db: Db, caller: Id, post: Id) returns (first: int, second: int)
    requires db.Valid() && post in db.posts && LikeCount(db, post) == 0
    modifies db`likes, db`nextId, db`clock
    ensures db.Valid()
    ensures first == StatusCreated && second == StatusBadRequest
    ensures LikeCount(db, post) == 1 && IsLiked(db, caller, post)
  {
    assert forall id :: id in db.likes && db.likes[id].post == post ==> id in Matching(db.likes, OnPost(post));
    first := CreateLike(db, caller, post);
    second := CreateLike(db, caller, post);
  }

  /** One entry of the caller's like list: the row and its populated post,
      `None` when that post no longer exists. */
  datatype LikeEntry = LikeEntry(likeId: Id, row: PairRow, post: Option<PostModel.Post>)

  function LikeEntries(likes: map<Id, PairRow>, posts: map<Id, PostModel.Post>, ids: seq<Id>): (r: seq<LikeEntry>)
    requires forall i :: 0 <= i < |ids| ==> ids[i] in likes
    ensures |r| == |ids|
    ensures forall i :: 0 <= i < |ids| ==>
      r[i].likeId == ids[i] && r[i].row == likes[ids[i]] && r[i].post == (if likes[ids[i]].post in posts then Some(posts[likes[ids[i]].post]) else None)
  {
    if ids == [] then []
    else
      var row := likes[ids[0]];
      [LikeEntry(ids[0], row, if row.post in posts then Some(posts[row.post]) else None)]
        + LikeEntries(likes, posts, ids[1..])
  }

  /** `getUserLikes`: every like of the caller, and only those, in the
      collection's order, each with its post when it still exists. */
  function GetUserLikes(db: Db, caller: Id): (r: seq<LikeEntry>)
    reads db
    requires db.Valid()
    ensures forall i :: 0 <= i < |r| ==>
      && r[i].likeId in db.likes && r[i].row == db.likes[r[i].likeId]
      && r[i].row.user == caller
      && r[i].post == (if r[i].row.post in db.posts then Some(db.posts[r[i].row.post]) else None)
    ensures forall id :: id in db.likes && db.likes[id].user == caller ==>
      exists i :: 0 <= i < |r| && r[i].likeId == id
    ensures forall i, j :: 0 <= i < j < |r| ==> r[i].likeId < r[j].likeId
  {
    var ids := Ascending(db.likes, ByUser(caller), db.nextId);
    var r := LikeEntries(db.likes, db.posts, ids);
    forall id | id in db.likes && db.likes[id].user == caller
      ensures exists i :: 0 <= i < |r| && r[i].likeId == id
    {
      assert id in Matching(db.likes, ByUser(caller));
      var i :| 0 <= i < |ids| && ids[i] == id;
      assert r[i].likeId == id;
    }
    r
  }
}
