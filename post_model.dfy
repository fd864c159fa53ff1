/** The Post schema: required content, a nullable image, a required
    author, a hashtag list, a like counter, the ordered ids of the
    post's comments, creation and update times, and the virtual `text`. */
module PostModel {

  import opened Common

  /** `reposts` is not declared by the schema; the repost handler pushes
      onto it, so the model gives every post that list (empty at first). */
  datatype Post = Post(
    content: string,
    image: Option<string>,
    author: Id,
    hashtags: seq<string>,
    likes: int,
    comments: seq<Id>,
    reposts: seq<Id>,
    createdAt: Time,
    updatedAt: Time)
  {
    /** The virtual `text` getter. */
    function Text(): string {
      content
    }
  }

  /** A post built from content and author alone: every other field takes
      its schema default. */
  function NewPost(content: string, author: Id, now: Time): Post {
    Post(content, None, author, [], 0, [], [], now, now)
  }

  /** The `required` validator on content: a missing or empty string fails. */
  predicate SchemaValid(p: Post) {
    p.content != ""
  }
}
