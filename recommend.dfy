/** The Recommend page: the other users' posts, and among them the posts
    one of whose hashtags the emotion service judged good. */
module Recommend {

  import opened Common
  import opened Text
  import opened Collection
  import opened EmotionClassifier

  /** A post as the client receives it. `authorName` is `None` when the post
      has no populated author or the author has no username; `hashtags` is
      `None` when the field is missing. */
  datatype LoadedPost = LoadedPost(id: Id, authorName: Option<string>, hashtags: Option<seq<string>>)

  /** A decoded JSON object whose values are themselves objects of scores,
      the shape of the classification the service sends. */
  type ClassificationJson = map<string, map<string, Scores>>

  /** The JSON object `{ good_topics, bad_topics }` the service returns. */
  function ToJson(c: Classification): (j: ClassificationJson)
    ensures j.Keys == {"good_topics", "bad_topics"}
    ensures j["good_topics"] == c.goodTopics && j["bad_topics"] == c.badTopics
  {
    map["good_topics" := c.goodTopics, "bad_topics" := c.badTopics]
  }

  /** `post.author?.username !== currentUser.username`. */
  predicate ByOther(username: string, p: LoadedPost) {
    p.authorName != Some(username)
  }

  /** The filter in `loadPosts`. */
  function OtherPosts(username: string, fetched: seq<LoadedPost>): (r: seq<LoadedPost>)
    ensures IsSubsequence(r, fetched)
    ensures forall p :: p in r <==> p in fetched && p.authorName != Some(username)
  {
    Filter(fetched, (p: LoadedPost) => ByOther(username, p))
  }

  /** What `loadPosts` leaves on the page. */
  datatype LoadOutcome = Loaded(posts: seq<LoadedPost>) | LoadError(message: string)

  const MissingUserMessage := "Les données utilisateur sont manquantes."
  const LoadFailedMessage := "Impossible de charger les posts. Veuillez réessayer plus tard."

  /** `loadPosts`: `fetched` is `None` when the request failed; `username`
      is `None` when there is no current user or it has no username. An
      empty username is falsy and treated as missing. */
  function LoadPosts(username: Option<string>, fetched: Option<seq<LoadedPost>>): (r: LoadOutcome)
    ensures fetched.None? ==> r == LoadError(LoadFailedMessage)
    ensures fetched.Some? && (username.None? || username.value == "") ==> r == LoadError(MissingUserMessage)
    ensures r.Loaded? <==> fetched.Some? && username.Some? && username.value != ""
    ensures r.Loaded? ==> r.posts == OtherPosts(username.value, fetched.value)
  {
    match fetched
    case None => LoadError(LoadFailedMessage)
    case Some(posts) =>
      if username.Some? && username.value != "" then Loaded(OtherPosts(username.value, posts))
      else LoadError(MissingUserMessage)
  }

  /** The hashtag test of the recommended filter, reading the object stored
      under `key`. */
  predicate HasTagIn(goodTags: map<string, Scores>, p: LoadedPost) {
    p.hashtags.Some? && |p.hashtags.value| > 0
    && exists i :: 0 <= i < |p.hashtags.value| && "#" + Lower(p.hashtags.value[i]) in goodTags
  }

  /** The posts whose hashtags meet the object under `key`, or none when
      there is no classification or it has no such key. */
  function RecommendedUnder(key: string, classification: Option<ClassificationJson>, posts: seq<LoadedPost>): (r: seq<LoadedPost>)
    ensures IsSubsequence(r, posts)
    ensures classification.None? || key !in classification.value ==> r == []
    ensures classification.Some? && key in classification.value ==>
      forall p :: p in r <==> p in posts && HasTagIn(classification.value[key], p)
  {
    if classification.Some? && key in classification.value then
      var goodTags := classification.value[key];
      Filter(posts, (p: LoadedPost) => HasTagIn(goodTags, p))
    else []
  }

  /** `recommendedPosts` as written: it reads `good_hashtags`. */
  function Recommended(classification: Option<ClassificationJson>, posts: seq<LoadedPost>): (r: seq<LoadedPost>)
    ensures IsSubsequence(r, posts)
  {
    RecommendedUnder("good_hashtags", classification, posts)
  }

  /** A post is recommended exactly when one of its hashtags, lower-cased
      and prefixed with '#', is a key of `good_hashtags`. */
  lemma RecommendedIff(classification: ClassificationJson, posts: seq<LoadedPost>, p: LoadedPost)
    requires "good_hashtags" in classification
    ensures p in Recommended(Some(classification), posts) <==>
      p in posts && p.hashtags.Some?
      && exists tag :: tag in p.hashtags.value && "#" + Lower(tag) in classification["good_hashtags"]
  {
  }

  /** Posts with a missing or an empty hashtag list are never recommended. */
  lemma UntaggedNeverRecommended(classification: Option<ClassificationJson>, posts: seq<LoadedPost>, p: LoadedPost)
    requires p.hashtags.None? || p.hashtags.value == []
    ensures p !in Recommended(classification, posts)
  {
  }

  /** With no classification, or none holding `good_hashtags`, nothing is
      recommended. */
  lemma NoClassificationNoRecommendation(classification: Option<ClassificationJson>, posts: seq<LoadedPost>)
    requires classification.None? || "good_hashtags" !in classification.value
    ensures Recommended(classification, posts) == []
  {
  }

  /** The service answers with `good_topics` and `bad_topics` only, so the
      page as written recommends nothing for any answer it can get. */
  lemma {:induction false} ServiceAnswerRecommendsNothing(collected: map<string, seq<Snapshot>>, posts: seq<LoadedPost>)
    ensures Recommended(Some(ToJson(Classify(collected))), posts) == []
  {
    var j := ToJson(Classify(collected));
    assert |"good_hashtags"| == 13 && |"good_topics"| == 11 && |"bad_topics"| == 10;
    assert "good_hashtags" !in j;
  }

  predicate ClassifiedGood(collected: map<string, seq<Snapshot>>, topic: string) {
    topic in collected && IsGood(topic, collected[topic])
  }

  /** With the intended key, a post is recommended exactly when one of its
      hashtags names, as '#' plus the lower-cased tag, a topic the service
      classified as good. */
  lemma {:induction false} GoodTopicIsRecommended(collected: map<string, seq<Snapshot>>, posts: seq<LoadedPost>, p: LoadedPost)
    ensures p in RecommendedUnder("good_topics", Some(ToJson(Classify(collected))), posts) <==>
      p in posts && p.hashtags.Some?
      && exists tag :: tag in p.hashtags.value && ClassifiedGood(collected, "#" + Lower(tag))
  {
    var j := ToJson(Classify(collected));
    var good := Classify(collected).goodTopics;
    assert j["good_topics"] == good;
    assert forall t :: t in good <==> t in collected && IsGood(t, collected[t]);
    if p in posts && p.hashtags.Some? {
      assert HasTagIn(good, p) <==> exists tag :: tag in p.hashtags.value && "#" + Lower(tag) in good;
    }
  }
}
