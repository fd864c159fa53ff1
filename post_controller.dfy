/** The post handlers: create, delete, view, modify and the two lists. */
module PostController {

  import opened Common
  import opened Collection
  import opened PostModel
  import opened Database

  /** The filter `{ author }`. */
  function ByAuthor(user: Id): Post -> bool {
    (p: Post) => p.author == user
  }

  /** The filter `{}`. */
  function Any(): Post -> bool {
    (p: Post) => true
  }

  /** `viewPost`: the post, or `None` for the 404 answer. */
  function ViewPost(db: Db, id: Id): (r: Option<Post>)
    reads db
    ensures r.Some? <==> id in db.posts
    ensures r.Some? ==> r.value == db.posts[id] && r.value.Text() == db.posts[id].content
  {
    if id in db.posts then Some(db.posts[id]) else None
  }

  /** `getAllPosts`: every post, in the collection's order. */
  function AllPosts(db: Db): (r: seq<Id>)
    reads db
    requires db.Valid()
    ensures forall i :: 0 <= i < |r| ==> r[i] in db.posts
    ensures forall id :: id in db.posts ==> id in r
    ensures forall i, j :: 0 <= i < j < |r| ==> r[i] < r[j]
  {
    var r := Ascending(db.posts, Any(), db.nextId);
    assert forall id :: id in db.posts ==> id in Matching(db.posts, Any());
    r
  }

  /** `getAllPostsByUser`: exactly the posts whose author is `user`, in the
      collection's order. */
  function PostsByUser(db: Db, user: Id): (r: seq<Id>)
    reads db
    requires db.Valid()
    ensures forall i :: 0 <= i < |r| ==> r[i] in db.posts && db.posts[r[i]].author == user
    ensures forall id :: id in db.posts && db.posts[id].author == user ==> id in r
    ensures forall i, j :: 0 <= i < j < |r| ==> r[i] < r[j]
  {
    var r := Ascending(db.posts, ByAuthor(user), db.nextId);
    assert forall id :: id in db.posts && db.posts[id].author == user ==> id in Matching(db.posts, ByAuthor(user));
    r
  }

  /** `createPost`: stores a post with the given content and the caller as
      author, every other field at its default, and answers 201; empty
      content fails the `required` validator and gives 400. */
  method CreatePost(db: Db, caller: Id, content: string) returns (status: int)
    requires db.Valid()
    modifies db`posts, db`nextId, db`clock
    ensures db.Valid()
    ensures status == (if content == "" then StatusBadRequest else StatusCreated)
    ensures status == StatusBadRequest ==> db.posts == old(db.posts)
    ensures status == StatusCreated ==>
      var id := old(db.nextId);
      && db.posts == old(db.posts)[id := NewPost(content, caller, old(db.clock))]
      && db.posts[id].Text() == content && db.posts[id].author == caller
      && db.posts[id].image == None && db.posts[id].hashtags == [] && db.posts[id].likes == 0
      && db.posts[id].comments == []
      && PostsByUser(db, caller) == old(PostsByUser(db, caller)) + [id]
  {
    if content == "" {
      return StatusBadRequest;
    }
    var p := NewPost(content, caller, db.clock);
    ListsAfterInsert(db.posts, ByAuthor(caller), db.nextId, p);
    var _ := db.InsertPost(p);
    status := StatusCreated;
  }

  /** `deletePost`: 404 for a missing post, 403 when the caller is not its
      author, otherwise the post alone is removed: its comments, likes,
      bookmarks and reposts stay. */
  method DeletePost(db: Db, caller: Id, id: Id) returns (status: int)
    requires db.Valid()
    modifies db`posts
    ensures db.Valid()
    ensures status == (if id !in old(db.posts) then StatusNotFound
                       else if old(db.posts)[id].author != caller then StatusForbidden
                       else StatusOk)
    ensures db.posts == if status == StatusOk then old(db.posts) - {id} else old(db.posts)
    ensures status == StatusOk ==> ViewPost(db, id).None?
  {
    if id !in db.posts {
      return StatusNotFound;
    }
    if db.posts[id].author != caller {
      return StatusForbidden;
    }
    db.posts := db.posts - {id};
    status := StatusOk;
  }

  /** `modifyPost`: the same 404 and 403 answers; by the author, the
      content is replaced and `updatedAt` set to now, unless the new
      content is empty, which the `required` validator refuses with 400. */
  method ModifyPost(db: Db, caller: Id, id: Id, content: string) returns (status: int)
    requires db.Valid()
    modifies db`posts, db`clock
    ensures db.Valid()
    ensures status == (if id !in old(db.posts) then StatusNotFound
                       else if old(db.posts)[id].author != caller then StatusForbidden
                       else if content == "" then StatusBadRequest
                       else StatusOk)
    ensures db.posts == if status == StatusOk
                        then old(db.posts)[id := old(db.posts)[id].(content := content, updatedAt := old(db.clock))]
                        else old(db.posts)
  {
    if id !in db.posts {
      return StatusNotFound;
    }
    if db.posts[id].author != caller {
      return StatusForbidden;
    }
    if content == "" {
      return StatusBadRequest;
    }
    db.posts := db.posts[id := db.posts[id].(content := content, updatedAt := db.clock)];
    db.clock := db.clock + 1;
    status := StatusOk;
  }
}
