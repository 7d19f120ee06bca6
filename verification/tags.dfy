/** The tag-list editor of the project list page. The create form and the edit
    form share the same rules (src/app/page.tsx lines 235-263 and 363-391): a
    tag is typed into an "Add tag..." input and committed with Enter; each tag
    chip has a remove button. */
module Tags {
  import opened Text
  import opened Seqs

  /** The "Add tag..." input is rendered only while fewer tags than this exist. */
  const MaxTags := 5

  /** A committed tag is non-empty and carries no surrounding white space. */
  predicate IsTag(t: string) {
    t != [] && Trim(t) == t
  }

  /** What the editor keeps true of every tag list it builds from an empty one. */
  predicate WellFormedTags(tags: seq<string>) {
    && |tags| <= MaxTags
    && NoDuplicates(tags)
    && forall i :: 0 <= i < |tags| ==> IsTag(tags[i])
  }

  /** The committed tags and the text currently typed in the "Add tag..." input. */
  datatype TagEditor = TagEditor(tags: seq<string>, draft: string)

  /** Whether a key press commits the draft: the input exists, the key is Enter
      and the draft is not blank. */
  predicate Commits(e: TagEditor, key: string) {
    |e.tags| < MaxTags && key == "Enter" && !IsBlank(e.draft)
  }

  /** A key press in the "Add tag..." input. A committing press clears the input
      and appends the trimmed draft unless it is already a tag; any other press
      (or a press on an input that is not rendered) changes nothing. */
  function KeyDown(e: TagEditor, key: string): (r: TagEditor)
    ensures !Commits(e, key) ==> r == e
    ensures Commits(e, key) ==>
      && r.draft == []
      && |e.tags| <= |r.tags| <= |e.tags| + 1
      && r.tags[..|e.tags|] == e.tags
      && Trim(e.draft) in r.tags
      && (r.tags == e.tags <==> Trim(e.draft) in e.tags)
    ensures NoDuplicates(e.tags) ==> NoDuplicates(r.tags)
  {
    if Commits(e, key) then
      var tag := Trim(e.draft);
      if tag in e.tags then
        e.(draft := [])
      else
        var tags := e.tags + [tag];
        assert tags[..|e.tags|] == e.tags;
        assert tags[|e.tags|] == tag;
        TagEditor(tags, [])
    else
      e
  }

  /** Starting from a well-formed list (the empty list of a fresh form in
      particular) the editor never produces a duplicate, a blank or untrimmed
      tag, or more than five tags. */
  lemma KeyDownKeepsWellFormed(e: TagEditor, key: string)
    requires WellFormedTags(e.tags)
    ensures WellFormedTags(KeyDown(e, key).tags)
  {
    if Commits(e, key) && Trim(e.draft) !in e.tags {
      var tag := Trim(e.draft);
      TrimIdempotent(e.draft);
      assert IsTag(tag);
      AppendTagKeepsTags(e.tags, tag);
    }
  }

  lemma AppendTagKeepsTags(tags: seq<string>, tag: string)
    requires forall i :: 0 <= i < |tags| ==> IsTag(tags[i])
    requires IsTag(tag)
    ensures forall i :: 0 <= i < |tags + [tag]| ==> IsTag((tags + [tag])[i])
  {
  }

  /** The chip's remove button: `tags.filter(t => t !== tag)`. Every copy of
      `tag` is gone, every other tag stays in its original order and number of
      copies, and on a duplicate-free list exactly one element disappears when
      `tag` was present. */
  function RemoveTag(tags: seq<string>, tag: string): (r: seq<string>)
    ensures tag !in r
    ensures forall t :: t in r <==> t in tags && t != tag
    ensures IsSubsequence(r, tags)
    ensures forall t :: multiset(r)[t] == if t != tag then multiset(tags)[t] else 0
    ensures NoDuplicates(tags) ==> NoDuplicates(r)
    ensures NoDuplicates(tags) ==> |r| == if tag in tags then |tags| - 1 else |tags|
  {
    var keep := t => t != tag;
    FilterIsSubsequence(keep, tags);
    FilterCounts(keep, tags);
    if NoDuplicates(tags) then
      FilterNoDuplicates(keep, tags);
      RemoveTagLength(keep, tag, tags);
      Filter(keep, tags)
    else
      Filter(keep, tags)
  }

  lemma {:induction false} RemoveTagLength(keep: string -> bool, tag: string, tags: seq<string>)
    requires forall t :: keep(t) <==> t != tag
    requires NoDuplicates(tags)
    ensures |Filter(keep, tags)| == if tag in tags then |tags| - 1 else |tags|
    decreases |tags|
  {
    if tags != [] {
      RemoveTagLength(keep, tag, tags[1..]);
      assert tags[0] !in tags[1..];
    }
  }

  /** Removing a well-formed list's tags keeps it well formed. */
  lemma RemoveTagKeepsWellFormed(tags: seq<string>, tag: string)
    requires WellFormedTags(tags)
    ensures WellFormedTags(RemoveTag(tags, tag))
  {
    var r := RemoveTag(tags, tag);
    forall i | 0 <= i < |r|
      ensures IsTag(r[i])
    {
      assert r[i] in tags;
    }
  }

  /** Adding a new tag and then removing it restores the original list. */
  lemma {:induction false} AddThenRemove(e: TagEditor)
    requires Commits(e, "Enter") && Trim(e.draft) !in e.tags
    ensures RemoveTag(KeyDown(e, "Enter").tags, Trim(e.draft)) == e.tags
  {
    var tag := Trim(e.draft);
    var keep := t => t != tag;
    FilterAppend(keep, e.tags, [tag]);
    FilterAll(keep, e.tags);
    assert Filter(keep, [tag]) == [];
  }
}
