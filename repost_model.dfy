/** The Repost schema: optional content of at most 280 characters, a
    required author, a required original post and a creation time. */
module RepostModel {

  import opened Common
  import opened Text

  datatype Repost = Repost(content: string, author: Id, originalPost: Id, createdAt: Time)

  const MaxRepostLength := 280

  /** The `maxlength` validator; absent content is the empty string here. */
  predicate SchemaValid(r: Repost) {
    Utf16Length(r.content) <= MaxRepostLength
  }
}
