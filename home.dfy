/** The Home page's in-memory feed. The handlers copy the array of posts
    but then change the shared post and comment objects in place, so posts
    and comments are objects here and the page holds references to them. */
module Home {

  import opened Common

  /** A reply to a comment: `{ username, text, likes }`. */
  datatype Reply = Reply(username: string, text: string, likes: int)

  class FeedComment {
    var username: string
    var text: string
    var likes: int
    var replies: seq<Reply>

    constructor (username: string, text: string)
      ensures this.username == username && this.text == text
      ensures likes == 0 && replies == []
    {
      this.username := username;
      this.text := text;
      likes := 0;
      replies := [];
    }
  }

  class FeedPost {
    /** The author, standing for the whole `currentUser` object. */
    var author: string
    var text: string
    var image: Option<string>
    var likes: int
    var comments: seq<FeedComment>
    var createdAt: Time

    constructor (author: string, text: string, image: Option<string>, createdAt: Time)
      ensures this.author == author && this.text == text && this.image == image
      ensures this.createdAt == createdAt
      ensures likes == 0 && comments == []
    {
      this.author := author;
      this.text := text;
      this.image := image;
      likes := 0;
      comments := [];
      this.createdAt := createdAt;
    }
  }

  /** What a handler call ends in: normally, or with the `ReferenceError`
      JavaScript raises for an undeclared name. */
  datatype Outcome = Completed | ReferenceError(name: string)

  /** An image is set when it holds a non-empty object URL (JavaScript
      truthiness). */
  predicate ImageSet(image: Option<string>) {
    image.Some? && image.value != ""
  }

  class HomePage {
    var text: string
    var image: Option<string>
    var posts: seq<FeedPost>
    var replyText: string
    /** The sparse `showComments` array: an index never set reads as
        `undefined`, that is false. */
    var showComments: map<nat, bool>
    var commentText: string

    /** No post object appears twice in the feed, and likes never go below
        zero. */
    ghost predicate Valid()
      reads this, posts
    {
      && (forall i, j :: 0 <= i < j < |posts| ==> posts[i] != posts[j])
      && (forall i :: 0 <= i < |posts| ==> posts[i].likes >= 0)
    }

    constructor ()
      ensures Valid()
      ensures text == "" && image == None && posts == [] && replyText == ""
      ensures showComments == map[] && commentText == ""
    {
      text := "";
      image := None;
      posts := [];
      replyText := "";
      showComments := map[];
      commentText := "";
    }

    /** Whether the comments of post `i` are shown. */
    function Shown(i: nat): bool
      reads this
    {
      i in showComments && showComments[i]
    }

    /** `handleTweetPost`: with text or an image, a fresh post with no likes
        and no comments goes to the front of the feed and the composer is
        cleared; otherwise nothing changes. */
    method TweetPost(currentUser: string, now: Time)
      requires Valid()
      modifies this
      ensures Valid()
      ensures old(text) == "" && !ImageSet(old(image)) ==>
        posts == old(posts) && text == old(text) && image == old(image)
      ensures old(text) != "" || ImageSet(old(image)) ==>
        && |posts| == |old(posts)| + 1 && posts[1..] == old(posts)
        && fresh(posts[0])
        && posts[0].author == currentUser && posts[0].text == old(text)
        && posts[0].image == old(image) && posts[0].createdAt == now
        && posts[0].likes == 0 && posts[0].comments == []
        && text == "" && image == None
      ensures replyText == old(replyText) && commentText == old(commentText)
      ensures showComments == old(showComments)
    {
      if text != "" || ImageSet(image) {
        var newPost := new FeedPost(currentUser, text, image, now);
        posts := [newPost] + posts;
        text := "";
        image := None;
      }
    }

    /** `handleLikePost`: the indexed post gains exactly one like; no other
        post changes. */
    method LikePost(postIndex: nat)
      requires Valid() && postIndex < |posts|
      modifies {posts[postIndex]}`likes
      ensures Valid()
      ensures posts[postIndex].likes == old(posts[postIndex].likes) + 1
      ensures forall j :: 0 <= j < |posts| && j != postIndex ==> posts[j].likes == old(posts[j].likes)
      ensures posts[postIndex].comments == old(posts[postIndex].comments)
      ensures posts[postIndex].text == old(posts[postIndex].text) && posts[postIndex].author == old(posts[postIndex].author)
      ensures posts[postIndex].image == old(posts[postIndex].image) && posts[postIndex].createdAt == old(posts[postIndex].createdAt)
    {
      var post := posts[postIndex];
      post.likes := post.likes + 1;
    }

    /** `handleAddComment`: a non-empty comment goes to the end of the
        indexed post's comments with no likes and no replies, and the input
        is cleared; an empty comment changes nothing, and the index is not
        read then, so any index is accepted. */
    method AddComment(postIndex: nat, currentUser: string)
      requires Valid() && (commentText != "" ==> postIndex < |posts|)
      modifies this`commentText, (if postIndex < |posts| then {posts[postIndex]} else {})`comments
      ensures Valid()
      ensures posts == old(posts)
      ensures forall j :: 0 <= j < |posts| ==>
        && posts[j].likes == old(posts[j].likes) && posts[j].text == old(posts[j].text)
        && posts[j].author == old(posts[j].author) && posts[j].image == old(posts[j].image)
        && posts[j].createdAt == old(posts[j].createdAt)
      ensures forall j :: 0 <= j < |posts| && j != postIndex ==> posts[j].comments == old(posts[j].comments)
      ensures old(commentText) == "" ==>
        (forall j :: 0 <= j < |posts| ==> posts[j].comments == old(posts[j].comments)) && commentText == ""
      ensures old(commentText) != "" ==>
        && |posts[postIndex].comments| == |old(posts[postIndex].comments)| + 1
        && posts[postIndex].comments[..|old(posts[postIndex].comments)|] == old(posts[postIndex].comments)
        && var c := posts[postIndex].comments[|old(posts[postIndex].comments)|];
        fresh(c) && c.username == currentUser && c.text == old(commentText)
        && c.likes == 0 && c.replies == [] && commentText == ""
      ensures text == old(text) && image == old(image) && replyText == old(replyText)
      ensures showComments == old(showComments)
    {
      if commentText != "" {
        var post := posts[postIndex];
        var comment := new FeedComment(currentUser, commentText);
        post.comments := post.comments + [comment];
        commentText := "";
      }
    }

    /** `handleReplyComment` as written: its first statement spreads the
        undeclared name `postbs`, so every call throws before anything is
        read or changed, and a typed reply is never added nor cleared. */
    method ReplyComment(postIndex: nat, commentIndex: nat) returns (outcome: Outcome)
      ensures outcome == ReferenceError("postbs")
    {
      outcome := ReferenceError("postbs");
    }

    /** `handleReplyComment` with `posts` in place of `postbs`: a non-empty
        reply goes to the end of the chosen comment's replies and the input
        is cleared; no other comment or post changes. */
    method ReplyCommentIntended(postIndex: nat, commentIndex: nat, currentUser: string) returns (outcome: Outcome)
      requires Valid() && postIndex < |posts| && commentIndex < |posts[postIndex].comments|
      modifies this`replyText, {posts[postIndex].comments[commentIndex]}`replies
      ensures Valid() && outcome == Completed
      ensures posts == old(posts)
      ensures forall j :: 0 <= j < |posts| ==> posts[j].comments == old(posts[j].comments)
      ensures forall j :: 0 <= j < |posts| ==> posts[j].likes == old(posts[j].likes)
      ensures var c := posts[postIndex].comments[commentIndex];
        c.username == old(c.username) && c.text == old(c.text) && c.likes == old(c.likes)
      ensures old(replyText) == "" ==>
        posts[postIndex].comments[commentIndex].replies == old(posts[postIndex].comments[commentIndex].replies)
        && replyText == old(replyText)
      ensures old(replyText) != "" ==>
        posts[postIndex].comments[commentIndex].replies
          == old(posts[postIndex].comments[commentIndex].replies) + [Reply(currentUser, old(replyText), 0)]
        && replyText == ""
      ensures text == old(text) && image == old(image) && commentText == old(commentText)
      ensures showComments == old(showComments)
    {
      if replyText != "" {
        var comment := posts[postIndex].comments[commentIndex];
        comment.replies := comment.replies + [Reply(currentUser, replyText, 0)];
        replyText := "";
      }
      outcome := Completed;
    }

    /** `toggleComments`: flips the indexed flag, an unset flag counting as
        false; every other flag keeps its value. */
    method ToggleComments(postIndex: nat)
      modifies this
      ensures Shown(postIndex) == !old(Shown(postIndex))
      ensures forall j :: j != postIndex ==> (j in showComments <==> j in old(showComments))
      ensures forall j :: j != postIndex && j in showComments ==> showComments[j] == old(showComments[j])
      ensures posts == old(posts) && text == old(text) && image == old(image)
      ensures replyText == old(replyText) && commentText == old(commentText)
    {
      showComments := showComments[postIndex := !Shown(postIndex)];
    }
  }

  /** Toggling twice restores what is shown. */
  method ToggleTwice(page: HomePage, postIndex: nat)
    modifies page
    ensures page.Shown(postIndex) == old(page.Shown(postIndex))
  {
    page.ToggleComments(postIndex);
    page.ToggleComments(postIndex);
  }
}
