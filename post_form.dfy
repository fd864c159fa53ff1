/** The post composer: hashtag entry and removal, and submission. Each
    handler replaces the component's state by a new one, so each is a
    function from the old state to the new. */
module PostForm {

  import opened Common
  import opened Text
  import opened Collection

  /** The component's state: text, image preview, tag list, tag input. */
  datatype FormState = FormState(text: string, image: Option<string>, hashtags: seq<string>, input: string)

  /** What is handed to `onSubmitPost`. */
  datatype Submission = Submission(text: string, hashtags: seq<string>, image: Option<string>)

  const Empty := FormState("", None, [], "")

  /** `replace(/^#+/, "")`: drops the leading run of '#'. */
  function StripHashes(s: string): (r: string)
    ensures |r| <= |s| && r == s[|s| - |r|..]
    ensures r == [] || r[0] != '#'
    ensures forall i :: 0 <= i < |s| - |r| ==> s[i] == '#'
  {
    if s != [] && s[0] == '#' then StripHashes(s[1..]) else s
  }

  /** The candidate tag: the input trimmed, then stripped of leading '#'. */
  function NormaliseTag(input: string): string {
    StripHashes(Trim(input))
  }

  /** A candidate tag never starts with '#' and never ends with white
      space. */
  lemma TagShape(input: string)
    ensures var tag := NormaliseTag(input);
      tag == [] || (tag[0] != '#' && !IsSpace(tag[|tag| - 1]))
  {
    var t := Trim(input);
    var tag := StripHashes(t);
    if tag != [] {
      assert tag[|tag| - 1] == t[|t| - 1];
    }
  }

  /** Enter, space and comma add the typed tag. */
  predicate IsTriggerKey(key: string) {
    key == "Enter" || key == " " || key == ","
  }

  /** `handleAddHashtag`: on a trigger key, the candidate is appended when
      non-empty and new, and the input is cleared either way; any other key
      changes nothing. */
  function AddHashtag(s: FormState, key: string): (r: FormState)
    ensures !IsTriggerKey(key) ==> r == s
    ensures IsTriggerKey(key) ==> r.input == "" && r.text == s.text && r.image == s.image
    ensures IsTriggerKey(key) ==>
      var tag := NormaliseTag(s.input);
      r.hashtags == if tag != "" && tag !in s.hashtags then s.hashtags + [tag] else s.hashtags
  {
    if !IsTriggerKey(key) then s
    else
      var tag := NormaliseTag(s.input);
      var tags := if tag != "" && tag !in s.hashtags then s.hashtags + [tag] else s.hashtags;
      s.(hashtags := tags, input := "")
  }

  /** Adding keeps the tag list free of duplicates, and the tags already
      in it keep their positions. */
  lemma {:induction false} AddKeepsTagsDistinct(s: FormState, key: string)
    requires NoDuplicates(s.hashtags)
    ensures NoDuplicates(AddHashtag(s, key).hashtags)
    ensures forall i :: 0 <= i < |s.hashtags| ==> AddHashtag(s, key).hashtags[i] == s.hashtags[i]
  {
    if IsTriggerKey(key) {
      var tag := NormaliseTag(s.input);
      if tag != "" && tag !in s.hashtags {
        AppendKeepsNoDuplicates(s.hashtags, tag);
      }
    }
  }

  /** `removeHashtag`: the list without `tag`, the rest in order. */
  function RemoveHashtag(s: FormState, tag: string): (r: FormState)
    ensures r.text == s.text && r.image == s.image && r.input == s.input
    ensures forall t :: t in r.hashtags <==> t in s.hashtags && t != tag
    ensures IsSubsequence(r.hashtags, s.hashtags)
  {
    s.(hashtags := Filter(s.hashtags, (t: string) => t != tag))
  }

  /** Removing a tag that was just added gives back the previous list. */
  lemma {:induction false} RemoveUndoesAdd(s: FormState, key: string)
    requires IsTriggerKey(key)
    requires NormaliseTag(s.input) != "" && NormaliseTag(s.input) !in s.hashtags
    ensures RemoveHashtag(AddHashtag(s, key), NormaliseTag(s.input)).hashtags == s.hashtags
  {
    var tag := NormaliseTag(s.input);
    var keep := (t: string) => t != tag;
    FilterAppend(s.hashtags, [tag], keep);
    FilterKeepsAll(s.hashtags, keep);
    assert Filter([tag], keep) == [];
  }

  /** `addNewPost`: with text or an image, the post is submitted and the
      whole form reset; otherwise nothing happens. */
  function AddNewPost(s: FormState): (r: (Option<Submission>, FormState))
    ensures r.0.Some? <==> s.text != "" || s.image.Some?
    ensures r.0.Some? ==> r.0.value == Submission(s.text, s.hashtags, s.image) && r.1 == Empty
    ensures r.0.None? ==> r.1 == s
  {
    if s.text != "" || s.image.Some? then (Some(Submission(s.text, s.hashtags, s.image)), Empty)
    else (None, s)
  }

  /** A second submit right after a first one sends nothing: the reset
      form has neither text nor image. */
  lemma SubmitOnce(s: FormState)
    requires AddNewPost(s).0.Some?
    ensures AddNewPost(AddNewPost(s).1).0.None?
  {
  }
}
