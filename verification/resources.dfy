/**
 * The study resources view (app/components/resources-view.tsx): the subject
 * list, searching and filtering, creating and editing resources through the
 * form, deleting them, marking them completed, and the star rating display.
 */
module Resources {
  import opened Records
  import opened Seqs
  import opened Text

  /** The form fields of a resource. */
  datatype ResourceForm = ResourceForm(
    title: string, kind: ResourceType, url: string, description: string, subject: string, rating: int)

  /** The cleared form: a book rated 5. */
  const EmptyResourceForm := ResourceForm("", Book, "", "", "", 5)

  function SubjectColumn(resources: seq<Resource>): (r: seq<string>)
    ensures |r| == |resources| && forall i :: 0 <= i < |r| ==> r[i] == resources[i].subject
  {
    seq(|resources|, i requires 0 <= i < |resources| => resources[i].subject)
  }

  /** `subjects`: each non-empty subject once, in first-occurrence order. */
  function Subjects(resources: seq<Resource>): seq<string> {
    DistinctNonEmpty(SubjectColumn(resources))
  }

  /** The subject list names exactly the non-empty subjects of the resources, each once. */
  lemma SubjectsSpec(resources: seq<Resource>)
    ensures NoDup(Subjects(resources))
    ensures forall x :: x in Subjects(resources) <==> x != "" && exists r :: r in resources && r.subject == x
  {
    var col := SubjectColumn(resources);
    DistinctNonEmptySpec(col);
    forall x ensures x in col <==> exists r :: r in resources && r.subject == x {
      if x in col {
        var i :| 0 <= i < |col| && col[i] == x;
        assert resources[i] in resources;
      }
      if exists r :: r in resources && r.subject == x {
        var r :| r in resources && r.subject == x;
        var i :| 0 <= i < |resources| && resources[i] == r;
        assert col[i] == x;
      }
    }
  }

  /** The search term occurs, ignoring case, in the title, description or subject. */
  predicate SearchMatches(r: Resource, term: string) {
    Includes(ToLower(r.title), ToLower(term)) || Includes(ToLower(r.description), ToLower(term))
    || Includes(ToLower(r.subject), ToLower(term))
  }

  function Keep(term: string, kind: Choice<ResourceType>, subject: Choice<string>): Resource -> bool {
    (r: Resource) => SearchMatches(r, term) && Admits(kind, r.kind) && Admits(subject, r.subject)
  }

  /** `filteredResources`. */
  function FilteredResources(resources: seq<Resource>, term: string, kind: Choice<ResourceType>, subject: Choice<string>)
    : (r: seq<Resource>)
    ensures forall x :: x in r <==> x in resources && SearchMatches(x, term) && Admits(kind, x.kind) && Admits(subject, x.subject)
    ensures forall x :: multiset(r)[x] == if SearchMatches(x, term) && Admits(kind, x.kind) && Admits(subject, x.subject) then multiset(resources)[x] else 0
    ensures SubsequenceOf(r, resources)
  {
    FilterSubsequence(resources, Keep(term, kind, subject));
    FilterMultiset(resources, Keep(term, kind, subject));
    Filter(resources, Keep(term, kind, subject))
  }

  /** Narrowing the type filter from "all" to one type only drops resources. */
  lemma TypeFilterNarrows(resources: seq<Resource>, term: string, kind: ResourceType, subject: Choice<string>)
    ensures forall x :: x in FilteredResources(resources, term, Only(kind), subject) <==>
      x in FilteredResources(resources, term, All, subject) && x.kind == kind
  {
  }

  /** The title and description must not be blank. */
  predicate Acceptable(form: ResourceForm) {
    Trim(form.title) != "" && Trim(form.description) != ""
  }

  /** The browser submits only when the optional `type="url"` input is empty
      or holds a URL its parser accepts; that parser is the parameter
      `validUrl`. */
  predicate UrlAccepted(form: ResourceForm, validUrl: string -> bool) {
    form.url == "" || validUrl(form.url)
  }

  function FromForm(form: ResourceForm, id: string, completed: bool): Resource {
    Resource(id, form.title, form.kind, form.url, form.description, form.subject, form.rating, completed)
  }

  /** Saving an edit: resources with the edited id take the form's fields and
      keep the id and the completed flag of the resource being edited. */
  function ReplaceById(resources: seq<Resource>, form: ResourceForm, original: Resource): (r: seq<Resource>)
    ensures |r| == |resources|
    ensures forall i :: 0 <= i < |r| ==> r[i].id == resources[i].id
    ensures forall i :: 0 <= i < |r| && resources[i].id != original.id ==> r[i] == resources[i]
    ensures forall i :: 0 <= i < |r| && resources[i].id == original.id ==>
      && r[i].title == form.title && r[i].kind == form.kind && r[i].url == form.url
      && r[i].description == form.description && r[i].subject == form.subject
      && r[i].rating == form.rating && r[i].completed == original.completed
  {
    seq(|resources|, i requires 0 <= i < |resources| =>
      if resources[i].id == original.id then FromForm(form, original.id, original.completed) else resources[i])
  }

  /** `handleSubmit`: a blank title or description changes nothing, and so
      does a malformed URL, which the browser refuses before the handler
      runs; otherwise the edited resource is replaced, or a new, not
      completed resource with `newId` is appended, and the form is cleared
      and leaves edit mode. */
  function Submit(resources: seq<Resource>, form: ResourceForm, editing: Option<Resource>, newId: string,
                  validUrl: string -> bool)
    : (r: (seq<Resource>, ResourceForm, Option<Resource>))
    ensures !(Acceptable(form) && UrlAccepted(form, validUrl)) ==> r == (resources, form, editing)
    ensures Acceptable(form) && UrlAccepted(form, validUrl) ==> r.1 == EmptyResourceForm && r.2 == None
    ensures Acceptable(form) && UrlAccepted(form, validUrl) && editing.Some? ==>
      r.0 == ReplaceById(resources, form, editing.value)
    ensures Acceptable(form) && UrlAccepted(form, validUrl) && editing.None? ==>
      |r.0| == |resources| + 1 && r.0[..|resources|] == resources && r.0[|resources|] == FromForm(form, newId, false)
  {
    if !(Acceptable(form) && UrlAccepted(form, validUrl)) then (resources, form, editing)
    else if editing.Some? then (ReplaceById(resources, form, editing.value), EmptyResourceForm, None)
    else (resources + [FromForm(form, newId, false)], EmptyResourceForm, None)
  }

  /** `handleDelete`. */
  function Delete(resources: seq<Resource>, id: string): (r: seq<Resource>)
    ensures forall x :: x in r <==> x in resources && x.id != id
    ensures forall x :: multiset(r)[x] == if x.id != id then multiset(resources)[x] else 0
    ensures SubsequenceOf(r, resources)
  {
    FilterSubsequence(resources, (x: Resource) => x.id != id);
    FilterMultiset(resources, (x: Resource) => x.id != id);
    Filter(resources, (x: Resource) => x.id != id)
  }

  /** `toggleCompleted`: only resources with the id flip their flag. */
  function ToggleCompleted(resources: seq<Resource>, id: string): (r: seq<Resource>)
    ensures |r| == |resources|
    ensures forall i :: 0 <= i < |r| ==> r[i].(completed := resources[i].completed) == resources[i]
    ensures forall i :: 0 <= i < |r| ==> (r[i].completed != resources[i].completed <==> resources[i].id == id)
  {
    seq(|resources|, i requires 0 <= i < |resources| =>
      if resources[i].id == id then resources[i].(completed := !resources[i].completed) else resources[i])
  }

  /** Toggling twice restores the list. */
  lemma ToggleTwice(resources: seq<Resource>, id: string)
    ensures ToggleCompleted(ToggleCompleted(resources, id), id) == resources
  {
    var r := ToggleCompleted(ToggleCompleted(resources, id), id);
    forall i | 0 <= i < |r| ensures r[i] == resources[i] {
      assert ToggleCompleted(resources, id)[i].id == resources[i].id;
    }
  }

  /** `n` stars, those before position `k` filled. */
  function Stars(n: nat, k: int): (r: seq<bool>)
    ensures |r| == n && forall i :: 0 <= i < n ==> (r[i] <==> i < k)
  {
    seq(n, i => i < k)
  }

  /** `renderStars`: five stars, the first `rating` of them filled. */
  function RenderStars(rating: int): (r: seq<bool>)
    ensures |r| == 5
    ensures forall i :: 0 <= i < 5 ==> (r[i] <==> i < rating)
  {
    Stars(5, rating)
  }

  function FilledCount(stars: seq<bool>): nat {
    if stars == [] then 0 else (if stars[0] then 1 else 0) + FilledCount(stars[1..])
  }

  /** For a non-negative rating, exactly `min(rating, 5)` stars are filled. */
  lemma StarsFilled(rating: int)
    requires rating >= 0
    ensures FilledCount(RenderStars(rating)) == if rating < 5 then rating else 5
  {
    FilledPrefixCount(5, rating);
  }

  /** Of `n` stars filled before position `k`, `k` clamped to `[0, n]` are filled. */
  lemma {:induction false} FilledPrefixCount(n: nat, k: int)
    ensures FilledCount(Stars(n, k)) == if k <= 0 then 0 else if k < n then k else n
    decreases n
  {
    if n > 0 {
      assert Stars(n, k)[1..] == Stars(n - 1, k - 1);
      FilledPrefixCount(n - 1, k - 1);
    }
  }
}
