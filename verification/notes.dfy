/**
 * The notes view (app/components/notes-view.tsx): searching and filtering
 * notes, creating and editing them through the form (with its tag editor),
 * and deleting them.
 */
module Notes {
  import opened Records
  import opened Seqs
  import opened Text
  import Tags

  /** The form fields of a note. */
  datatype NoteForm = NoteForm(title: string, content: string, subject: string, tags: seq<string>)

  const EmptyNoteForm := NoteForm("", "", "", [])

  /** `subjects`: each non-empty subject once, in first-occurrence order. */
  function Subjects(notes: seq<Note>): seq<string> {
    DistinctNonEmpty(seq(|notes|, i requires 0 <= i < |notes| => notes[i].subject))
  }

  /** The search term occurs, ignoring case, in the title, the content or a tag. */
  predicate SearchMatches(n: Note, term: string) {
    Includes(ToLower(n.title), ToLower(term)) || Includes(ToLower(n.content), ToLower(term))
    || exists i :: 0 <= i < |n.tags| && Includes(ToLower(n.tags[i]), ToLower(term))
  }

  function Keep(term: string, subject: Choice<string>): Note -> bool {
    (n: Note) => SearchMatches(n, term) && Admits(subject, n.subject)
  }

  /** `filteredNotes`. */
  function FilteredNotes(notes: seq<Note>, term: string, subject: Choice<string>): (r: seq<Note>)
    ensures forall n :: n in r <==> n in notes && SearchMatches(n, term) && Admits(subject, n.subject)
    ensures forall n :: multiset(r)[n] == if SearchMatches(n, term) && Admits(subject, n.subject) then multiset(notes)[n] else 0
    ensures SubsequenceOf(r, notes)
  {
    FilterSubsequence(notes, Keep(term, subject));
    FilterMultiset(notes, Keep(term, subject));
    Filter(notes, Keep(term, subject))
  }

  /** With no search term and every subject, all notes are listed. */
  lemma NoFilterKeepsAll(notes: seq<Note>)
    ensures FilteredNotes(notes, "", All) == notes
  {
    forall n: Note ensures Keep("", All)(n) {
      IncludesEmpty(ToLower(n.title));
    }
    FilterAll(notes, Keep("", All));
  }

  /** The title and content must not be blank. */
  predicate Acceptable(form: NoteForm) {
    Trim(form.title) != "" && Trim(form.content) != ""
  }

  /** The edited note as saved: the form's fields, the original id and
      creation instant, and `now` as the update instant. */
  function Edited(form: NoteForm, original: Note, now: Instant): Note {
    Note(original.id, form.title, form.content, form.subject, form.tags, original.createdAt, now)
  }

  function ReplaceById(notes: seq<Note>, form: NoteForm, original: Note, now: Instant): (r: seq<Note>)
    ensures |r| == |notes|
    ensures forall i :: 0 <= i < |r| ==> r[i].id == notes[i].id
    ensures forall i :: 0 <= i < |r| && notes[i].id != original.id ==> r[i] == notes[i]
    ensures forall i :: 0 <= i < |r| && notes[i].id == original.id ==>
      && r[i].title == form.title && r[i].content == form.content
      && r[i].subject == form.subject && r[i].tags == form.tags
      && r[i].createdAt == original.createdAt && r[i].updatedAt == now
  {
    seq(|notes|, i requires 0 <= i < |notes| =>
      if notes[i].id == original.id then Edited(form, original, now) else notes[i])
  }

  /** `handleSubmit`: a form with a blank title or content changes nothing;
      otherwise the edited note is replaced, or a note created at `now` with
      `newId` is appended, and the form is cleared and leaves edit mode. */
  function Submit(notes: seq<Note>, form: NoteForm, editing: Option<Note>, newId: string, now: Instant)
    : (r: (seq<Note>, NoteForm, Option<Note>))
    ensures !Acceptable(form) ==> r == (notes, form, editing)
    ensures Acceptable(form) ==> r.1 == EmptyNoteForm && r.2 == None
    ensures Acceptable(form) && editing.Some? ==> r.0 == ReplaceById(notes, form, editing.value, now)
    ensures Acceptable(form) && editing.None? ==>
      r.0 == notes + [Note(newId, form.title, form.content, form.subject, form.tags, now, now)]
  {
    if !Acceptable(form) then (notes, form, editing)
    else if editing.Some? then (ReplaceById(notes, form, editing.value, now), EmptyNoteForm, None)
    else (notes + [Note(newId, form.title, form.content, form.subject, form.tags, now, now)], EmptyNoteForm, None)
  }

  /** A note is never updated before it was created: saving at an instant no
      earlier than the edited note's creation keeps that true of every note. */
  lemma SubmitKeepsTimestampsOrdered(notes: seq<Note>, form: NoteForm, editing: Option<Note>, newId: string, now: Instant)
    requires forall n :: n in notes ==> n.createdAt <= n.updatedAt
    requires editing.Some? ==> editing.value.createdAt <= now
    ensures forall n :: n in Submit(notes, form, editing, newId, now).0 ==> n.createdAt <= n.updatedAt
  {
    var r := Submit(notes, form, editing, newId, now).0;
    forall n | n in r ensures n.createdAt <= n.updatedAt {
      var i :| 0 <= i < |r| && r[i] == n;
      if Acceptable(form) && editing.Some? {
        assert r[i] == if notes[i].id == editing.value.id then Edited(form, editing.value, now) else notes[i];
        if notes[i].id != editing.value.id {
          assert notes[i] in notes;
        }
      } else if Acceptable(form) {
        if i < |notes| {
          assert r[i] == notes[i] && notes[i] in notes;
        }
      } else {
        assert r[i] in notes;
      }
    }
  }

  /** `handleDelete`. */
  function Delete(notes: seq<Note>, id: string): (r: seq<Note>)
    ensures forall n :: n in r <==> n in notes && n.id != id
    ensures forall n :: multiset(r)[n] == if n.id != id then multiset(notes)[n] else 0
    ensures SubsequenceOf(r, notes)
  {
    FilterSubsequence(notes, (n: Note) => n.id != id);
    FilterMultiset(notes, (n: Note) => n.id != id);
    Filter(notes, (n: Note) => n.id != id)
  }

  /** `addTag` of the note form. */
  function AddTag(form: NoteForm, input: string): (r: (NoteForm, string))
    ensures r.0.(tags := form.tags) == form
    ensures (r.0.tags, r.1) == Tags.AddTag(form.tags, input)
    ensures NoDup(form.tags) ==> NoDup(r.0.tags)
  {
    var (tags, rest) := Tags.AddTag(form.tags, input);
    (form.(tags := tags), rest)
  }

  /** `removeTag` of the note form. */
  function RemoveTag(form: NoteForm, tag: string): (r: NoteForm)
    ensures r.(tags := form.tags) == form
    ensures forall x :: x in r.tags <==> x in form.tags && x != tag
  {
    form.(tags := Tags.RemoveTag(form.tags, tag))
  }
}
