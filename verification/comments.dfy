/**
 * Posting a support comment under a topic: blank text is ignored, and the same
 * user posting the same text under the same topic again adds nothing.
 */
module Comments {
  import opened Wrappers
  import opened Seqs
  import opened Text

  datatype Comment = Comment(
    id: nat,
    topic: string,
    text: string,
    author: nat,
    parent: Option<string>,
    createdAt: int)

  /** Comments with this topic, author and text. */
  function PostedAs(topic: string, author: nat, text: string): Comment -> bool {
    (c: Comment) => c.topic == topic && c.author == author && c.text == text
  }

  /**
   * The `existing_comment` query: some comment has this topic, author and (stripped)
   * text, equivalently the count of such comments is positive.
   */
  predicate HasDuplicate(cs: seq<Comment>, topic: string, author: nat, text: string)
    ensures HasDuplicate(cs, topic, author, text) <==> Count(cs, PostedAs(topic, author, text)) > 0
  {
    CountPositive(cs, PostedAs(topic, author, text));
    exists i :: 0 <= i < |cs| && PostedAs(topic, author, text)(cs[i])
  }

  /** At most one comment per (topic, author, text). */
  ghost predicate NoDuplicates(cs: seq<Comment>) {
    forall i, j :: 0 <= i < j < |cs| ==>
      !(cs[i].topic == cs[j].topic && cs[i].author == cs[j].author && cs[i].text == cs[j].text)
  }

  /** A missing or empty `parent_id` field means a top-level comment. */
  function ParentOf(field: Option<string>): (p: Option<string>)
    ensures p.Some? <==> field.Some? && field.value != ""
    ensures p.Some? ==> p == field
  {
    if field.None? || field.value == "" then None else field
  }

  /**
   * `add_comment`: the text is stripped; blank text or a duplicate of an existing
   * (topic, author, text) leaves the comments as they were, and otherwise exactly one
   * comment is appended. The duplicate check ignores the parent, so the same text
   * cannot be posted twice by one user under one topic even as replies to different
   * comments.
   */
  function AddComment(cs: seq<Comment>, topic: string, author: nat, raw: string,
                      parentField: Option<string>, now: int): (r: seq<Comment>)
    ensures AllSpace(raw) ==> r == cs
    ensures HasDuplicate(cs, topic, author, Strip(raw)) ==> r == cs
    ensures !AllSpace(raw) && !HasDuplicate(cs, topic, author, Strip(raw)) ==>
              && |r| == |cs| + 1 && r[..|cs|] == cs
              && r[|cs|].topic == topic && r[|cs|].author == author && r[|cs|].text == Strip(raw)
              && r[|cs|].parent == ParentOf(parentField) && r[|cs|].createdAt == now
              && r[|cs|].text != [] && forall i :: 0 <= i < |cs| ==> cs[i].id != r[|cs|].id
  {
    var text := Strip(raw);
    if text == [] || HasDuplicate(cs, topic, author, text) then cs
    else
      var c := Comment(NextRowId(cs, (c: Comment) => c.id), topic, text, author, ParentOf(parentField), now);
      assert (cs + [c])[..|cs|] == cs;
      cs + [c]
  }

  /** Posting the same comment twice, at any two times, leaves one record. */
  lemma AddCommentIdempotent(cs: seq<Comment>, topic: string, author: nat, raw: string,
                             parentField: Option<string>, now: int, later: int, otherParent: Option<string>)
    ensures AddComment(AddComment(cs, topic, author, raw, parentField, now), topic, author, raw, otherParent, later)
            == AddComment(cs, topic, author, raw, parentField, now)
  {
  }

  /** Posting keeps (topic, author, text) unique. */
  lemma AddCommentPreservesNoDuplicates(cs: seq<Comment>, topic: string, author: nat, raw: string,
                                        parentField: Option<string>, now: int)
    requires NoDuplicates(cs)
    ensures NoDuplicates(AddComment(cs, topic, author, raw, parentField, now))
  {
  }
}
