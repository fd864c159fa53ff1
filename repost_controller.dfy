/** The repost handlers: create (with the decision whom to notify),
    delete and modify. The caller is a registered user. */
module RepostController {

  import opened Common
  import opened Text
  import opened RepostModel
  import PostModel
  import opened Database

  /** The `notification` event: who receives it, its text and the post. */
  datatype Notification = Notification(recipient: Id, message: string, postId: Id)

  /** The notify decision: the original author hears of the repost unless
      they made it themselves. */
  function NotifyAuthor(originalAuthor: Id, caller: Id, callerName: string, post: Id): (n: Option<Notification>)
    ensures n.Some? <==> originalAuthor != caller
    ensures n.Some? ==> n.value.recipient == originalAuthor && n.value.postId == post
  {
    if originalAuthor != caller then
      Some(Notification(originalAuthor, "User " + callerName + " reposted your post", post))
    else None
  }

  /** `createRepost`. 404 for a missing original, 400 when the content is
      over 280 characters; otherwise the repost is stored, its id pushed
      onto the original's repost list, and 201 sent with at most one
      notification. When the original's author no longer exists the
      populated author is null and the notify step throws after both
      saves: the answer is 400 and nobody is notified. */
  method CreateRepost(db: Db, caller: Id, post: Id, content: string) returns (status: int, note: Option<Notification>)
    requires db.Valid() && caller in db.users
    modifies db`reposts, db`posts, db`nextId, db`clock
    ensures db.Valid()
    ensures post !in old(db.posts) ==> status == StatusNotFound
    ensures post in old(db.posts) && Utf16Length(content) > MaxRepostLength ==> status == StatusBadRequest
    ensures status == StatusNotFound || (status == StatusBadRequest && Utf16Length(content) > MaxRepostLength) ==>
      db.reposts == old(db.reposts) && db.posts == old(db.posts) && note.None?
    ensures post in old(db.posts) && Utf16Length(content) <= MaxRepostLength ==>
      var id := old(db.nextId);
      var p := old(db.posts)[post];
      && db.reposts == old(db.reposts)[id := Repost(content, caller, post, old(db.clock))]
      && db.posts == old(db.posts)[post := p.(reposts := p.reposts + [id], updatedAt := old(db.clock))]
      && status == (if p.author in db.users then StatusCreated else StatusBadRequest)
      && note == (if p.author in db.users
                  then NotifyAuthor(p.author, caller, db.users[caller].username, post)
                  else None)
  {
    note := None;
    if post !in db.posts {
      return StatusNotFound, None;
    }
    if Utf16Length(content) > MaxRepostLength {
      return StatusBadRequest, None;
    }
    var now := db.clock;
    var id := db.InsertRepost(content, caller, post);
    var p := db.posts[post];
    db.PutPost(post, p.(reposts := p.reposts + [id], updatedAt := now));
    if p.author !in db.users {
      return StatusBadRequest, None;
    }
    note := NotifyAuthor(p.author, caller, db.users[caller].username, post);
    status := StatusCreated;
  }

  /** `deleteRepost`: 404 for a missing repost, 403 when the caller did
      not write it, otherwise the repost alone is removed; the original
      post keeps its id in its repost list. */
  method DeleteRepost(db: Db, caller: Id, id: Id) returns (status: int)
    requires db.Valid()
    modifies db`reposts
    ensures db.Valid()
    ensures status == (if id !in old(db.reposts) then StatusNotFound
                       else if old(db.reposts)[id].author != caller then StatusForbidden
                       else StatusOk)
    ensures db.reposts == if status == StatusOk then old(db.reposts) - {id} else old(db.reposts)
    ensures db.posts == old(db.posts)
  {
    if id !in db.reposts {
      return StatusNotFound;
    }
    if db.reposts[id].author != caller {
      return StatusForbidden;
    }
    db.reposts := db.reposts - {id};
    status := StatusOk;
  }

  /** `modifyRepost`: the same 404 and 403 answers; by the author only the
      content is replaced, and content over 280 characters fails the
      validator with 400. */
  method ModifyRepost(db: Db, caller: Id, id: Id, content: string) returns (status: int)
    requires db.Valid()
    modifies db`reposts
    ensures db.Valid()
    ensures status == (if id !in old(db.reposts) then StatusNotFound
                       else if old(db.reposts)[id].author != caller then StatusForbidden
                       else if Utf16Length(content) > MaxRepostLength then StatusBadRequest
                       else StatusOk)
    ensures db.reposts == if status == StatusOk
                          then old(db.reposts)[id := old(db.reposts)[id].(content := content)]
                          else old(db.reposts)
  {
    if id !in db.reposts {
      return StatusNotFound;
    }
    if db.reposts[id].author != caller {
      return StatusForbidden;
    }
    if Utf16Length(content) > MaxRepostLength {
      return StatusBadRequest;
    }
    db.reposts := db.reposts[id := db.reposts[id].(content := content)];
    status := StatusOk;
  }
}
