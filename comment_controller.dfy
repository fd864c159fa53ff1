/** The comment handlers: create, delete, modify, and the by-post,
    by-user and count queries. */
module CommentController {

  import opened Common
  import opened Collection
  import PostModel
  import opened Database

  /** The filter `{ post }`. */
  function OnPost(post: Id): Comment -> bool {
    (c: Comment) => c.post == post
  }

  /** The filter `{ author }`. */
  function ByAuthor(user: Id): Comment -> bool {
    (c: Comment) => c.author == user
  }

  /** `getCommentCount`: `countDocuments({ post })`. */
  function CommentCount(db: Db, post: Id): (n: nat)
    reads db
    ensures n == 0 <==> forall id :: id in db.comments ==> db.comments[id].post != post
  {
    var found := Matching(db.comments, OnPost(post));
    assert forall id :: id in db.comments && db.comments[id].post == post ==> id in found;
    |found|
  }

  /** `getCommentsByPost`: exactly the comments on `post`, newest first. */
  function CommentsByPost(db: Db, post: Id): (r: seq<Id>)
    reads db
    requires db.Valid()
    ensures forall i :: 0 <= i < |r| ==> r[i] in db.comments && db.comments[r[i]].post == post
    ensures forall id :: id in db.comments && db.comments[id].post == post ==> id in r
    ensures forall i, j :: 0 <= i < j < |r| ==> db.comments[r[i]].createdAt > db.comments[r[j]].createdAt
  {
    var r := Descending(db.comments, OnPost(post), db.nextId);
    assert forall id :: id in db.comments && db.comments[id].post == post ==> id in Matching(db.comments, OnPost(post));
    r
  }

  /** `getCommentCount` agrees with `getCommentsByPost`: the count is the
      length of the post's listing. */
  lemma CountIsListingLength(db: Db, post: Id)
    requires db.Valid()
    ensures CommentCount(db, post) == |CommentsByPost(db, post)|
  {
    DescendingCount(db.comments, OnPost(post), db.nextId);
  }

  /** `getCommentsByUser`: exactly the comments written by `user`, in the
      collection's order. */
  function CommentsByUser(db: Db, user: Id): (r: seq<Id>)
    reads db
    requires db.Valid()
    ensures forall i :: 0 <= i < |r| ==> r[i] in db.comments && db.comments[r[i]].author == user
    ensures forall id :: id in db.comments && db.comments[id].author == user ==> id in r
    ensures forall i, j :: 0 <= i < j < |r| ==> r[i] < r[j]
  {
    var r := Ascending(db.comments, ByAuthor(user), db.nextId);
    assert forall id :: id in db.comments && db.comments[id].author == user ==> id in Matching(db.comments, ByAuthor(user));
    r
  }

  /** `createComment`: 404 for a missing post; otherwise the comment is
      stored with the caller as author, its id is pushed onto the end of the
      post's comment list (the save refreshes the post's `updatedAt`), and
      201 is sent. */
  method CreateComment(db: Db, caller: Id, post: Id, content: string) returns (status: int)
    requires db.Valid()
    modifies db`comments, db`posts, db`nextId, db`clock
    ensures db.Valid()
    ensures status == (if post in old(db.posts) then StatusCreated else StatusNotFound)
    ensures status == StatusNotFound ==> db.comments == old(db.comments) && db.posts == old(db.posts)
    ensures status == StatusCreated ==>
      var id := old(db.nextId);
      var p := old(db.posts)[post];
      && db.comments == old(db.comments)[id := Comment(content, caller, post, old(db.clock))]
      && db.posts == old(db.posts)[post := p.(comments := p.comments + [id], updatedAt := old(db.clock))]
      && CommentCount(db, post) == old(CommentCount(db, post)) + 1
      && CommentsByPost(db, post) == [id] + old(CommentsByPost(db, post))
  {
    if post !in db.posts {
      return StatusNotFound;
    }
    var now := db.clock;
    ghost var listed := CommentsByPost(db, post);
    MatchingInsert(db.comments, OnPost(post), db.nextId, Comment(content, caller, post, now));
    ListsAfterInsert(db.comments, OnPost(post), db.nextId, Comment(content, caller, post, now));
    var id := db.InsertComment(content, caller, post);
    assert CommentsByPost(db, post) == [id] + listed;
    var p := db.posts[post];
    db.PutPost(post, p.(comments := p.comments + [id], updatedAt := now));
    status := StatusCreated;
  }

  /** `deleteComment`: 404 for a missing comment, 403 when the caller did
      not write it, otherwise the comment alone is removed. The post keeps
      the id in its comment list. */
  method DeleteComment(db: Db, caller: Id, id: Id) returns (status: int)
    requires db.Valid()
    modifies db`comments
    ensures db.Valid()
    ensures status == (if id !in old(db.comments) then StatusNotFound
                       else if old(db.comments)[id].author != caller then StatusForbidden
                       else StatusOk)
    ensures db.comments == if status == StatusOk then old(db.comments) - {id} else old(db.comments)
    ensures db.posts == old(db.posts)
  {
    if id !in db.comments {
      return StatusNotFound;
    }
    if db.comments[id].author != caller {
      return StatusForbidden;
    }
    db.comments := db.comments - {id};
    status := StatusOk;
  }

  /** `modifyComment`: the same 404 and 403 answers; by the author, only
      the content is replaced. */
  method ModifyComment(db: Db, caller: Id, id: Id, content: string) returns (status: int)
    requires db.Valid()
    modifies db`comments
    ensures db.Valid()
    ensures status == (if id !in old(db.comments) then StatusNotFound
                       else if old(db.comments)[id].author != caller then StatusForbidden
                       else StatusOk)
    ensures db.comments == if status == StatusOk then old(db.comments)[id := old(db.comments)[id].(content := content)]
                           else old(db.comments)
    ensures status == StatusOk ==>
      db.comments[id].author == old(db.comments)[id].author && db.comments[id].post == old(db.comments)[id].post
  {
    if id !in db.comments {
      return StatusNotFound;
    }
    if db.comments[id].author != caller {
      return StatusForbidden;
    }
    db.comments := db.comments[id := db.comments[id].(content := content)];
    status := StatusOk;
  }
}
