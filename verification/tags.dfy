/**
 * The tag editors of the note form and the task form, and the favourite
 * subjects of the profile form: a trimmed, non-empty, not yet listed entry is
 * appended; removing an entry drops every copy of it.
 */
module Tags {
  import opened Seqs
  import opened Text

  /** `addTag`: returns the new list and the new contents of the input box,
      which is cleared only when the entry is accepted. */
  function AddTag(tags: seq<string>, input: string): (r: (seq<string>, string))
    ensures Trim(input) != "" && Trim(input) !in tags ==> r == (tags + [Trim(input)], "")
    ensures Trim(input) == "" || Trim(input) in tags ==> r == (tags, input)
    ensures NoDup(tags) ==> NoDup(r.0)
    ensures forall x :: x in r.0 && x !in tags ==> x == Trim(input) && x != ""
  {
    var t := Trim(input);
    if t != "" && t !in tags then (tags + [t], "") else (tags, input)
  }

  /** Entering the same text again changes nothing more. */
  lemma AddTagIdempotent(tags: seq<string>, input: string)
    ensures AddTag(AddTag(tags, input).0, input).0 == AddTag(tags, input).0
  {
    var t := Trim(input);
    if t != "" && t !in tags {
      assert t in AddTag(tags, input).0;
    }
  }

  /** `removeTag`: every copy of `tag` goes, the rest keep their order. */
  function RemoveTag(tags: seq<string>, tag: string): (r: seq<string>)
    ensures forall x :: x in r <==> x in tags && x != tag
    ensures SubsequenceOf(r, tags)
  {
    FilterSubsequence(tags, (x: string) => x != tag);
    Filter(tags, (x: string) => x != tag)
  }

  /** Removing keeps a duplicate-free list duplicate-free. */
  lemma RemoveTagNoDup(tags: seq<string>, tag: string)
    requires NoDup(tags)
    ensures NoDup(RemoveTag(tags, tag))
  {
    SubsequencePairwise(RemoveTag(tags, tag), tags, (a: string, b: string) => a != b);
  }

  /** Removing a tag that was just added restores the list. */
  lemma RemoveUndoesAdd(tags: seq<string>, input: string)
    requires Trim(input) != "" && Trim(input) !in tags
    ensures RemoveTag(AddTag(tags, input).0, Trim(input)) == tags
  {
    var t := Trim(input);
    var keep := (x: string) => x != t;
    FilterConcat(tags, [t], keep);
    FilterAll(tags, keep);
  }
}
