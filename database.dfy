/** The document store behind the controllers: one collection per model,
    an id counter standing for ObjectId generation and a clock standing
    for `Date.now()`. */
module Database {

  import opened Common
  import opened Collection
  import opened Text
  import opened UserModel
  import PostModel
  import opened BookmarkModel
  import RepostModel

  /** A comment (its schema is not part of this model). */
  datatype Comment = Comment(content: string, author: Id, post: Id, createdAt: Time)

  function CommentCreated(c: Comment): Time {
    c.createdAt
  }

  function RowCreated(r: PairRow): Time {
    r.createdAt
  }

  class Db {
    var users: map<Id, User>
    var posts: map<Id, PostModel.Post>
    var comments: map<Id, Comment>
    var reposts: map<Id, RepostModel.Repost>
    var likes: map<Id, PairRow>
    var bookmarks: map<Id, PairRow>
    /** The next id to hand out. */
    var nextId: nat
    /** The current time; every write reads it and moves it on. */
    var clock: Time

    /** What the schemas and the indexes guarantee about stored documents. */
    ghost predicate Valid()
      reads this
    {
      && KeysBelow(users, nextId) && KeysBelow(posts, nextId) && KeysBelow(comments, nextId)
      && KeysBelow(reposts, nextId) && KeysBelow(likes, nextId) && KeysBelow(bookmarks, nextId)
      && UniqueAccounts(users)
      && (forall id :: id in users ==> UserModel.SchemaValid(users[id]))
      && (forall id :: id in posts ==> PostModel.SchemaValid(posts[id]))
      && (forall id :: id in reposts ==> RepostModel.SchemaValid(reposts[id]))
      && UniquePairs(likes) && UniquePairs(bookmarks)
      && Chronological(comments, CommentCreated, clock)
      && Chronological(bookmarks, RowCreated, clock)
    }

    constructor ()
      ensures Valid()
      ensures users == map[] && posts == map[] && comments == map[] && reposts == map[]
      ensures likes == map[] && bookmarks == map[]
    {
      users, posts, comments, reposts := map[], map[], map[], map[];
      likes, bookmarks := map[], map[];
      nextId, clock := 0, 0;
    }
  
    /** `new Comment(...).save()`: stores the comment under the next id,
        stamped with the current time. */
    method InsertComment(content: string, author: Id, post: Id) returns (id: Id)
      requires Valid()
      modifies this`comments, this`nextId, this`clock
      ensures Valid()
      ensures id == old(nextId) && nextId == id + 1 && clock == old(clock) + 1
      ensures comments == old(comments)[id := Comment(content, author, post, old(clock))]
    {
      id := nextId;
      ChronologicalInsert(comments, CommentCreated, clock, id, Comment(content, author, post, clock));
      comments := comments[id := Comment(content, author, post, clock)];
      nextId, clock := nextId + 1, clock + 1;
    }

    /** `new Post(...).save()` for a post that passes the validators. */
    method InsertPost(p: PostModel.Post) returns (id: Id)
      requires Valid() && PostModel.SchemaValid(p)
      modifies this`posts, this`nextId, this`clock
      ensures Valid()
      ensures id == old(nextId) && nextId == id + 1 && clock == old(clock) + 1
      ensures posts == old(posts)[id := p]
    {
      id := nextId;
      posts := posts[id := p];
      nextId, clock := nextId + 1, clock + 1;
    }

    /** `new Like({ user, post }).save()` for a pair not yet stored. */
    method InsertLike(user: Id, post: Id) returns (id: Id)
      requires Valid()
      requires forall other :: other in likes ==> likes[other].user != user || likes[other].post != post
      modifies this`likes, this`nextId, this`clock
      ensures Valid()
      ensures id == old(nextId) && nextId == id + 1 && clock == old(clock) + 1
      ensures likes == old(likes)[id := PairRow(user, post, old(clock))]
    {
      id := nextId;
      UniquePairsInsert(likes, id, PairRow(user, post, clock));
      likes := likes[id := PairRow(user, post, clock)];
      nextId, clock := nextId + 1, clock + 1;
    }

    /** `new Bookmark({ user, post }).save()` for a pair not yet stored. */
    method InsertBookmark(user: Id, post: Id) returns (id: Id)
      requires Valid()
      requires forall other :: other in bookmarks ==> bookmarks[other].user != user || bookmarks[other].post != post
      modifies this`bookmarks, this`nextId, this`clock
      ensures Valid()
      ensures id == old(nextId) && nextId == id + 1 && clock == old(clock) + 1
      ensures bookmarks == old(bookmarks)[id := PairRow(user, post, old(clock))]
    {
      id := nextId;
      UniquePairsInsert(bookmarks, id, PairRow(user, post, clock));
      ChronologicalInsert(bookmarks, RowCreated, clock, id, PairRow(user, post, clock));
      bookmarks := bookmarks[id := PairRow(user, post, clock)];
      nextId, clock := nextId + 1, clock + 1;
    }

    /** `post.save()` after an in-place change: the post under `id` is
        replaced by `p`, which passes the schema's validators. */
    method PutPost(id: Id, p: PostModel.Post)
      requires Valid() && id in posts && PostModel.SchemaValid(p)
      modifies this`posts
      ensures Valid()
      ensures posts == old(posts)[id := p]
    {
      posts := posts[id := p];
    }
  
    /** `new Repost(...).save()` for a repost that passes the validators. */
    method InsertRepost(content: string, author: Id, originalPost: Id) returns (id: Id)
      requires Valid() && Utf16Length(content) <= RepostModel.MaxRepostLength
      modifies this`reposts, this`nextId, this`clock
      ensures Valid()
      ensures id == old(nextId) && nextId == id + 1 && clock == old(clock) + 1
      ensures reposts == old(reposts)[id := RepostModel.Repost(content, author, originalPost, old(clock))]
    {
      id := nextId;
      reposts := reposts[id := RepostModel.Repost(content, author, originalPost, clock)];
      nextId, clock := nextId + 1, clock + 1;
    }
  
    /** `user.save()` for a user that passes the validators and the two
        unique indexes. */
    method InsertUser(u: User) returns (id: Id)
      requires Valid() && UserModel.SchemaValid(u)
      requires forall other :: other in users ==> users[other].username != u.username && users[other].email != u.email
      modifies this`users, this`nextId, this`clock
      ensures Valid()
      ensures id == old(nextId) && nextId == id + 1 && clock == old(clock) + 1
      ensures users == old(users)[id := u]
    {
      id := nextId;
      InsertKeepsAccountsUnique(users, id, u);
      users := users[id := u];
      nextId, clock := nextId + 1, clock + 1;
    }
  }
}
