/** frontend/src/pages/AddQuestion.jsx: the tag list of the ask-a-question form and
    the check `handleSubmit` makes before it posts. Each handler is a function from the
    old form state to the new one. */
module AddQuestion {
  import opened Wrappers
  import opened Seqs
  import opened Text

  const MaxTags := 5

  /** The tag part of the form: the chosen tags and the text in the tag box. */
  datatype TagField = TagField(tags: seq<string>, currentTag: string)

  /** What the form keeps true of its tags: at most five, none twice. */
  ghost predicate ValidTags(tags: seq<string>) {
    |tags| <= MaxTags && forall t :: Count(tags, t) <= 1
  }

  /** `addTag`: a non-empty name that is not there yet is appended, while fewer than
      five tags exist, and then the tag box is cleared; otherwise nothing changes. */
  function AddTag(f: TagField, tagName: string): (r: TagField)
    ensures r.tags == f.tags + [tagName] || r == f
    ensures r.tags != f.tags <==> tagName != "" && tagName !in f.tags && |f.tags| < MaxTags
    ensures r.tags != f.tags ==> r.currentTag == ""
  {
    if tagName != "" && tagName !in f.tags && |f.tags| < MaxTags then
      TagField(f.tags + [tagName], "")
    else f
  }

  /** `removeTag`: every occurrence of the tag goes, the others stay in order. */
  function RemoveTag(f: TagField, tagToRemove: string): (r: TagField)
    ensures tagToRemove !in r.tags && r.currentTag == f.currentTag
    ensures forall k :: 0 <= k < |f.tags| && f.tags[k] != tagToRemove ==> f.tags[k] in r.tags
    ensures forall k :: 0 <= k < |r.tags| ==> r.tags[k] in f.tags
  {
    f.(tags := Without(f.tags, tagToRemove))
  }

  /** `removeTag` is a `filter`: each other tag keeps all its copies and the removed one
      has none, and removing from a concatenation removes from each part, so the
      remaining tags keep their relative order. */
  lemma RemoveTagKeepsOthersInOrder(f: TagField, more: seq<string>, tagToRemove: string, t: string)
    ensures multiset(RemoveTag(f, tagToRemove).tags)[t] == if t == tagToRemove then 0 else multiset(f.tags)[t]
    ensures RemoveTag(f.(tags := f.tags + more), tagToRemove).tags
         == RemoveTag(f, tagToRemove).tags + Without(more, tagToRemove)
  {
    WithoutMultiset(f.tags, tagToRemove, t);
    WithoutAppend(f.tags, more, tagToRemove);
  }

  /** Removing two tags gives the same list in either order. */
  lemma RemoveTagsCommute(f: TagField, a: string, b: string)
    ensures RemoveTag(RemoveTag(f, a), b) == RemoveTag(RemoveTag(f, b), a)
  {
    WithoutCommutes(f.tags, a, b);
  }

  /** `handleKeyPress`: Enter adds the tag box's text as a tag; other keys do nothing. */
  function HandleKeyPress(f: TagField, key: string): (r: TagField)
    ensures key == "Enter" ==> r == AddTag(f, f.currentTag)
    ensures key != "Enter" ==> r == f
  {
    if key == "Enter" then AddTag(f, f.currentTag) else f
  }

  /** Adding and removing tags keeps the list at most five long and free of duplicates. */
  lemma TagEditsKeepTagsValid(f: TagField, tag: string, key: string)
    requires ValidTags(f.tags)
    ensures ValidTags(AddTag(f, tag).tags)
    ensures ValidTags(RemoveTag(f, tag).tags)
    ensures ValidTags(HandleKeyPress(f, key).tags)
  {
    forall t
      ensures Count(AddTag(f, tag).tags, t) <= 1
      ensures Count(AddTag(f, f.currentTag).tags, t) <= 1
      ensures Count(RemoveTag(f, tag).tags, t) <= 1
    {
      CountPush(f.tags, tag, t);
      CountPush(f.tags, f.currentTag, t);
      CountWithout(f.tags, tag, t);
    }
  }

  /** Adding a tag a second time changes nothing. */
  lemma AddTagTwiceIsOnce(f: TagField, tag: string)
    ensures AddTag(AddTag(f, tag), tag) == AddTag(f, tag)
  {
  }

  /** Removing a tag just added gives back the tags from before. */
  lemma RemoveUndoesAdd(f: TagField, tag: string)
    requires tag !in f.tags
    ensures RemoveTag(AddTag(f, tag), tag).tags == f.tags
  {
    WithoutPush(f.tags, tag, tag);
    WithoutAbsent(f.tags, tag);
  }

  /** The body `handleSubmit` posts to /questions/ask. */
  datatype Payload = Payload(questionTitle: string, description: string, questionTags: seq<string>)

  /** `handleSubmit`'s guard: nothing is sent when the title or the editor's HTML trims to
      nothing or there are no tags; otherwise the payload carries the title, the
      editor's HTML (`editorRef.current?.innerHTML || ""`) and the tags. */
  function HandleSubmit(title: string, editorHtml: Option<string>, tags: seq<string>): (r: Option<Payload>)
    ensures r.None? <==> IsBlank(title) || IsBlank(editorHtml.GetOr("")) || tags == []
    ensures r.Some? ==> r.value == Payload(title, editorHtml.GetOr(""), tags)
  {
    var finalDescription := editorHtml.GetOr("");
    if Trim(title) == "" || Trim(finalDescription) == "" || |tags| == 0 then None
    else Some(Payload(title, finalDescription, tags))
  }
}
