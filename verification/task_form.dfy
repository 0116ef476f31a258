/**
 * The new-task form (app/components/task-form.tsx): its initial state, the
 * submit guard and the record it hands to the page, and its tag editor.
 * Parsing of the date and of the estimated minutes is passed in.
 */
module TaskForm {
  import opened Records
  import opened Seqs
  import Tags
  import Dashboard
  import opened ConstraintValidation

  datatype FormState = FormState(
    title: string,
    description: string,
    subject: string,
    priority: Priority,
    dueDate: string,
    category: Category,
    tags: seq<string>,
    estimatedTime: string)

  /** The form as it opens: everything empty, medium priority, an assignment. */
  const InitialForm := FormState("", "", "", Medium, "", Assignment, [], "")

  /** The estimate is optional; a filled-in one must pass the browser's
      check of `type="number" min="1"`: a whole number of at least 1.
      `numberValue` is the browser's reading of the input's text. */
  predicate EstimateAccepted(form: FormState, numberValue: string -> real) {
    form.estimatedTime == "" || WholeAtLeast(numberValue(form.estimatedTime), 1)
  }

  /** `handleSubmit`: nothing without a title, a subject and a due date, nor
      with an estimate the browser refuses (it then never fires the submit);
      otherwise a pending task with the form's fields, the parsed due date
      and, if the field is filled in, the parsed estimate. */
  function Submit(form: FormState, parseDate: string -> Instant, parseInt: string -> int,
                  numberValue: string -> real): (r: Option<NewTask>)
    ensures r.None? <==> form.title == "" || form.subject == "" || form.dueDate == ""
                         || !EstimateAccepted(form, numberValue)
    ensures r.Some? ==> !r.value.completed && r.value.dueDate == parseDate(form.dueDate)
    ensures r.Some? ==>
      (r.value.title == form.title && r.value.description == form.description
      && r.value.subject == form.subject && r.value.priority == form.priority
      && r.value.category == form.category && r.value.tags == form.tags)
    ensures r.Some? ==> (r.value.estimatedTime.None? <==> form.estimatedTime == "")
    ensures r.Some? && form.estimatedTime != "" ==> r.value.estimatedTime == Some(parseInt(form.estimatedTime))
  {
    if form.title == "" || form.subject == "" || form.dueDate == "" || !EstimateAccepted(form, numberValue) then None
    else
      Some(NewTask(form.title, form.description, form.subject, form.priority, parseDate(form.dueDate), false,
                   form.category, form.tags,
                   if form.estimatedTime == "" then None else Some(parseInt(form.estimatedTime))))
  }

  /** A task submitted through the form and added by the page is pending:
      it is the last task and shows among the pending ones. */
  lemma SubmittedTaskIsPending(tasks: seq<Task>, form: FormState, parseDate: string -> Instant,
                               parseInt: string -> int, numberValue: string -> real, id: string)
    requires Submit(form, parseDate, parseInt, numberValue).Some?
    ensures var r := Dashboard.AddTask(tasks, Submit(form, parseDate, parseInt, numberValue).value, id);
      r[|tasks|] in Dashboard.Pending(r) && r[|tasks|].id == id
  {
  }

  /** `addTag`: only the tags and the tag input change. */
  function AddTag(form: FormState, input: string): (r: (FormState, string))
    ensures r.0.(tags := form.tags) == form
    ensures (r.0.tags, r.1) == Tags.AddTag(form.tags, input)
    ensures NoDup(form.tags) ==> NoDup(r.0.tags)
  {
    var (tags, rest) := Tags.AddTag(form.tags, input);
    (form.(tags := tags), rest)
  }

  /** `removeTag`: only the tags change, losing every copy of `tag`. */
  function RemoveTag(form: FormState, tag: string): (r: FormState)
    ensures r.(tags := form.tags) == form
    ensures forall x :: x in r.tags <==> x in form.tags && x != tag
  {
    form.(tags := Tags.RemoveTag(form.tags, tag))
  }
}
