/**
 * The profile form (app/components/profile-form.tsx): editing the goals and
 * favourite subjects of a copy of the profile, the study-hours input, and
 * handing the edited copy to the page (`updateProfile` in app/page.tsx).
 */
module ProfileForm {
  import opened Records
  import opened Seqs
  import opened Text
  import Tags
  import opened ConstraintValidation

  /** `addGoal`: a non-blank goal is appended trimmed, repeats allowed; the
      goal input is cleared only then. */
  function AddGoal(p: UserProfile, input: string): (r: (UserProfile, string))
    ensures r.0.(goals := p.goals) == p
    ensures Trim(input) != "" ==> r == (p.(goals := p.goals + [Trim(input)]), "")
    ensures Trim(input) == "" ==> r == (p, input)
  {
    if Trim(input) != "" then (p.(goals := p.goals + [Trim(input)]), "") else (p, input)
  }

  /** `removeGoal`: the goal at `index` goes, if there is one. */
  function RemoveGoal(p: UserProfile, index: int): (r: UserProfile)
    ensures r.(goals := p.goals) == p
    ensures 0 <= index < |p.goals| ==>
      (|r.goals| == |p.goals| - 1 && r.goals[..index] == p.goals[..index] && r.goals[index..] == p.goals[index + 1..])
    ensures !(0 <= index < |p.goals|) ==> r == p
  {
    p.(goals := RemoveAt(p.goals, index))
  }

  /** Removing the goal just added restores the profile. */
  lemma RemoveGoalUndoesAdd(p: UserProfile, input: string)
    requires Trim(input) != ""
    ensures RemoveGoal(AddGoal(p, input).0, |p.goals|) == p
  {
    assert (p.goals + [Trim(input)])[..|p.goals|] == p.goals;
  }

  /** `addSubject`: like a tag, a trimmed, non-blank subject not yet listed is appended. */
  function AddSubject(p: UserProfile, input: string): (r: (UserProfile, string))
    ensures r.0.(favoriteSubjects := p.favoriteSubjects) == p
    ensures (r.0.favoriteSubjects, r.1) == Tags.AddTag(p.favoriteSubjects, input)
    ensures NoDup(p.favoriteSubjects) ==> NoDup(r.0.favoriteSubjects)
  {
    var (subjects, rest) := Tags.AddTag(p.favoriteSubjects, input);
    (p.(favoriteSubjects := subjects), rest)
  }

  /** `removeSubject`: the subject at `index` goes, if there is one; the
      others keep their order. */
  function RemoveSubject(p: UserProfile, index: int): (r: UserProfile)
    ensures r.(favoriteSubjects := p.favoriteSubjects) == p
    ensures 0 <= index < |p.favoriteSubjects| ==>
      r.favoriteSubjects == p.favoriteSubjects[..index] + p.favoriteSubjects[index + 1..]
    ensures !(0 <= index < |p.favoriteSubjects|) ==> r == p
    ensures NoDup(p.favoriteSubjects) ==> NoDup(r.favoriteSubjects)
  {
    if NoDup(p.favoriteSubjects) then
      RemoveAtNoDup(p.favoriteSubjects, index);
      p.(favoriteSubjects := RemoveAt(p.favoriteSubjects, index))
    else
      p.(favoriteSubjects := RemoveAt(p.favoriteSubjects, index))
  }

  /** Removing the subject just added restores the profile. */
  lemma RemoveSubjectUndoesAdd(p: UserProfile, input: string)
    requires Trim(input) != "" && Trim(input) !in p.favoriteSubjects
    ensures RemoveSubject(AddSubject(p, input).0, |p.favoriteSubjects|) == p
  {
    assert (p.favoriteSubjects + [Trim(input)])[..|p.favoriteSubjects|] == p.favoriteSubjects;
  }

  /** The study-hours input: `Number.parseInt(value) || 0`, where `None`
      stands for a value that does not parse. */
  function StudyHours(parsed: Option<int>): (h: int)
    ensures h == 0 <==> parsed.None? || parsed.value == 0
    ensures parsed.Some? ==> h == parsed.value
  {
    match parsed
    case None => 0
    case Some(n) => n
  }

  /** The profile fields the form lets the user change. */
  datatype Field = NameField | EmailField | GenderField | CareerField | SemesterField
                 | UniversityField | BioField | HoursField | GoalsField | SubjectsField

  /** One edit made in the form: an input or select change, or a list edit. */
  datatype Edit = NameEdit(name: string) | EmailEdit(email: string) | GenderEdit(gender: Gender)
                | CareerEdit(career: string) | SemesterEdit(semester: string)
                | UniversityEdit(university: string) | BioEdit(bio: string)
                | StudyHoursEdit(parsed: Option<int>)
                | AddGoalEdit(input: string) | RemoveGoalEdit(index: int)
                | AddSubjectEdit(subject: string) | RemoveSubjectEdit(position: int)

  /** The field an edit writes. */
  function Target(e: Edit): Field {
    match e
    case NameEdit(_) => NameField
    case EmailEdit(_) => EmailField
    case GenderEdit(_) => GenderField
    case CareerEdit(_) => CareerField
    case SemesterEdit(_) => SemesterField
    case UniversityEdit(_) => UniversityField
    case BioEdit(_) => BioField
    case StudyHoursEdit(_) => HoursField
    case AddGoalEdit(_) => GoalsField
    case RemoveGoalEdit(_) => GoalsField
    case AddSubjectEdit(_) => SubjectsField
    case RemoveSubjectEdit(_) => SubjectsField
  }

  /** The two profiles hold the same value in field `f`. */
  predicate Agree(a: UserProfile, b: UserProfile, f: Field) {
    match f
    case NameField => a.name == b.name
    case EmailField => a.email == b.email
    case GenderField => a.gender == b.gender
    case CareerField => a.career == b.career
    case SemesterField => a.semester == b.semester
    case UniversityField => a.university == b.university
    case BioField => a.bio == b.bio
    case HoursField => a.studyHours == b.studyHours
    case GoalsField => a.goals == b.goals
    case SubjectsField => a.favoriteSubjects == b.favoriteSubjects
  }

  /** Agreeing on every field is being the same profile (the avatar is not
      a form field and is never written). */
  lemma AgreeEverywhere(a: UserProfile, b: UserProfile)
    requires a.avatar == b.avatar && forall f :: Agree(a, b, f)
    ensures a == b
  {
    assert Agree(a, b, NameField) && Agree(a, b, EmailField) && Agree(a, b, GenderField);
    assert Agree(a, b, CareerField) && Agree(a, b, SemesterField) && Agree(a, b, UniversityField);
    assert Agree(a, b, BioField) && Agree(a, b, HoursField) && Agree(a, b, GoalsField) && Agree(a, b, SubjectsField);
  }

  /** `setFormData({ ...formData, field: value })` for one edit. */
  function ApplyEdit(p: UserProfile, e: Edit): UserProfile {
    match e
    case NameEdit(v) => p.(name := v)
    case EmailEdit(v) => p.(email := v)
    case GenderEdit(g) => p.(gender := g)
    case CareerEdit(v) => p.(career := v)
    case SemesterEdit(v) => p.(semester := v)
    case UniversityEdit(v) => p.(university := v)
    case BioEdit(v) => p.(bio := v)
    case StudyHoursEdit(parsed) => p.(studyHours := StudyHours(parsed))
    case AddGoalEdit(input) => AddGoal(p, input).0
    case RemoveGoalEdit(i) => RemoveGoal(p, i)
    case AddSubjectEdit(input) => AddSubject(p, input).0
    case RemoveSubjectEdit(i) => RemoveSubject(p, i)
  }

  /** An edit leaves every field but its target as it was. */
  lemma ApplyEditFrame(p: UserProfile, e: Edit, f: Field)
    requires f != Target(e)
    ensures Agree(ApplyEdit(p, e), p, f)
  {
    match e
    case AddGoalEdit(input) => assert AddGoal(p, input).0.(goals := p.goals) == p;
    case RemoveGoalEdit(i) => assert RemoveGoal(p, i).(goals := p.goals) == p;
    case AddSubjectEdit(input) => assert AddSubject(p, input).0.(favoriteSubjects := p.favoriteSubjects) == p;
    case RemoveSubjectEdit(i) => assert RemoveSubject(p, i).(favoriteSubjects := p.favoriteSubjects) == p;
    case _ =>
  }

  lemma AgreeTrans(a: UserProfile, b: UserProfile, c: UserProfile, f: Field)
    requires Agree(a, b, f) && Agree(b, c, f)
    ensures Agree(a, c, f)
  {
  }

  /** The form after a sequence of edits, in order. */
  function ApplyEdits(p: UserProfile, edits: seq<Edit>): UserProfile
    decreases |edits|
  {
    if edits == [] then p else ApplyEdits(ApplyEdit(p, edits[0]), edits[1..])
  }

  /** What the browser checks before it fires the submit: the `required`
      name and career are filled in, a filled-in `type="email"` address is
      valid, and the study hours lie within `min="0"` and `max="168"`. */
  predicate BrowserAccepts(form: UserProfile) {
    form.name != "" && form.career != ""
    && (form.email == "" || ValidEmail(form.email))
    && InRange(form.studyHours, 0, 168)
  }

  /** `handleSubmit`: the page's profile becomes the form's copy, when the
      browser lets the form submit at all. */
  function Submit(form: UserProfile): (r: Option<UserProfile>)
    ensures r.None? <==> form.name == "" || form.career == ""
                         || (form.email != "" && !ValidEmail(form.email))
                         || !(0 <= form.studyHours <= 168)
    ensures r.Some? ==> r.value == form
  {
    if BrowserAccepts(form) then Some(form) else None
  }

  /** An address without `@`, or 200 study hours (which `StudyHours` stores
      as typed), keeps the form from submitting; a well-formed profile is
      handed on as it is. */
  lemma SubmitExamples(form: UserProfile)
    requires form.name == "Ana" && form.career == "Ing"
    ensures form.email == "ana" ==> Submit(form).None?
    ensures form.studyHours == 200 ==> Submit(form).None?
    ensures form.email == "ana@uni.edu" && form.studyHours == 20 ==> Submit(form) == Some(form)
  {
    MissingPartExamples();
    ValidEmailExample();
  }

  /** Whatever edits are made, the profile the form submits agrees with the
      one it opened with on every field no edit wrote, and its favourite
      subjects stay free of repeats. */
  lemma {:induction false} EditsTouchOnlyTargets(p: UserProfile, edits: seq<Edit>)
    ensures forall f :: (forall e :: e in edits ==> Target(e) != f) ==>
      Agree(ApplyEdits(p, edits), p, f)
    ensures NoDup(p.favoriteSubjects) ==> NoDup(ApplyEdits(p, edits).favoriteSubjects)
    decreases |edits|
  {
    if edits != [] {
      var q := ApplyEdit(p, edits[0]);
      var r := ApplyEdits(p, edits);
      EditsTouchOnlyTargets(q, edits[1..]);
      assert r == ApplyEdits(q, edits[1..]);
      forall f | forall e :: e in edits ==> Target(e) != f
        ensures Agree(r, p, f)
      {
        assert edits[0] in edits;
        forall e | e in edits[1..] ensures Target(e) != f {
          assert e in edits;
        }
        ApplyEditFrame(p, edits[0], f);
        AgreeTrans(r, q, p, f);
      }
    }
  }
}
