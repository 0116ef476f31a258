/**
 * The task list view (app/components/task-list.tsx): the conjunction of the
 * search, priority, status and category filters, and the order in which
 * the filtered tasks are shown (pending first, then by due date).
 */
module TaskList {
  import opened Records
  import opened Seqs
  import opened Sorting
  import opened Text

  datatype StatusFilter = AnyStatus | CompletedOnly | PendingOnly

  /** The lower-cased search term occurs in `text`, lower-cased. */
  predicate TextMatches(text: string, term: string) {
    Includes(ToLower(text), ToLower(term))
  }

  /** `matchesSearch`: title, subject or some tag contains the term, ignoring case. */
  predicate SearchMatches(t: Task, term: string) {
    TextMatches(t.title, term) || TextMatches(t.subject, term)
    || exists i :: 0 <= i < |t.tags| && TextMatches(t.tags[i], term)
  }

  predicate PriorityMatches(t: Task, f: Choice<Priority>) {
    Admits(f, t.priority)
  }

  predicate StatusMatches(t: Task, f: StatusFilter) {
    f.AnyStatus? || (f.CompletedOnly? && t.completed) || (f.PendingOnly? && !t.completed)
  }

  predicate CategoryMatches(t: Task, f: Choice<Category>) {
    Admits(f, t.category)
  }

  predicate Matches(t: Task, term: string, pf: Choice<Priority>, sf: StatusFilter, cf: Choice<Category>) {
    SearchMatches(t, term) && PriorityMatches(t, pf) && StatusMatches(t, sf) && CategoryMatches(t, cf)
  }

  /** The filter callback of `filteredTasks`. */
  function Keep(term: string, pf: Choice<Priority>, sf: StatusFilter, cf: Choice<Category>): Task -> bool {
    (t: Task) => Matches(t, term, pf, sf, cf)
  }

  /** `filteredTasks`. */
  function FilteredTasks(tasks: seq<Task>, term: string, pf: Choice<Priority>, sf: StatusFilter, cf: Choice<Category>)
    : (r: seq<Task>)
    ensures forall t :: t in r <==> t in tasks && Matches(t, term, pf, sf, cf)
    ensures forall t :: multiset(r)[t] == if Matches(t, term, pf, sf, cf) then multiset(tasks)[t] else 0
    ensures SubsequenceOf(r, tasks)
  {
    FilterSubsequence(tasks, Keep(term, pf, sf, cf));
    FilterMultiset(tasks, Keep(term, pf, sf, cf));
    Filter(tasks, Keep(term, pf, sf, cf))
  }

  /** The empty search term and "all" in every select keep the whole list. */
  lemma NoFilterKeepsAll(tasks: seq<Task>)
    ensures FilteredTasks(tasks, "", All, AnyStatus, All) == tasks
  {
    forall t: Task ensures Matches(t, "", All, AnyStatus, All) {
      EmptyTermMatches(t);
    }
    FilterAll(tasks, Keep("", All, AnyStatus, All));
  }

  /** The description is not searched: changing it never changes a search match. */
  lemma SearchIgnoresDescription(t: Task, description: string, term: string)
    ensures SearchMatches(t.(description := description), term) == SearchMatches(t, term)
  {
  }

  /** A term found in the title matches whatever the case of either. */
  lemma SearchIgnoresCase(t: Task, term: string)
    requires Includes(ToLower(t.title), ToLower(term))
    ensures SearchMatches(t, term)
  {
  }

  /** "completed" keeps exactly the completed tasks and "pending" exactly the others. */
  lemma StatusFilterSpec(tasks: seq<Task>)
    ensures forall t :: t in FilteredTasks(tasks, "", All, CompletedOnly, All) <==> t in tasks && t.completed
    ensures forall t :: t in FilteredTasks(tasks, "", All, PendingOnly, All) <==> t in tasks && !t.completed
  {
    forall t: Task ensures SearchMatches(t, "") {
      EmptyTermMatches(t);
    }
  }

  /** The empty search term matches every task. */
  lemma EmptyTermMatches(t: Task)
    ensures SearchMatches(t, "")
  {
    IncludesEmpty(ToLower(t.title));
  }

  /** The filters are independent: applying the status and the priority filter
      one after the other gives the same list in either order. */
  lemma FiltersCommute(tasks: seq<Task>, pf: Choice<Priority>, sf: StatusFilter)
    ensures Filter(Filter(tasks, (t: Task) => StatusMatches(t, sf)), (t: Task) => PriorityMatches(t, pf))
         == Filter(Filter(tasks, (t: Task) => PriorityMatches(t, pf)), (t: Task) => StatusMatches(t, sf))
  {
    FilterCommutes(tasks, (t: Task) => StatusMatches(t, sf), (t: Task) => PriorityMatches(t, pf));
  }

  /** Applying the status filter and then the priority filter is the same as
      the combined filter with an empty term and every category. */
  lemma FiltersCompose(tasks: seq<Task>, pf: Choice<Priority>, sf: StatusFilter)
    ensures Filter(Filter(tasks, (t: Task) => StatusMatches(t, sf)), (t: Task) => PriorityMatches(t, pf))
         == FilteredTasks(tasks, "", pf, sf, All)
  {
    forall t: Task ensures Keep("", pf, sf, All)(t) == (StatusMatches(t, sf) && PriorityMatches(t, pf)) {
      EmptyTermMatches(t);
    }
    FilterFilter(tasks, (t: Task) => StatusMatches(t, sf), (t: Task) => PriorityMatches(t, pf), Keep("", pf, sf, All));
  }

  /** The list comparator: pending before completed, then by due date. */
  predicate ListLeq(a: Task, b: Task) {
    if a.completed != b.completed then !a.completed else a.dueDate <= b.dueDate
  }

  lemma ListLeqTotal()
    ensures TotalPreorder(ListLeq)
  {
  }

  /** `sortedTasks`: the filtered tasks in display order. */
  function SortedTasks(filtered: seq<Task>): seq<Task> {
    ListLeqTotal();
    Sort(filtered, ListLeq)
  }

  /** The display order loses and invents no task, puts every pending task
      before every completed one, and orders tasks of equal status by due date. */
  lemma SortedTasksSpec(filtered: seq<Task>)
    ensures multiset(SortedTasks(filtered)) == multiset(filtered)
    ensures forall i, j :: 0 <= i < j < |SortedTasks(filtered)| && SortedTasks(filtered)[i].completed ==>
              SortedTasks(filtered)[j].completed
    ensures forall i, j :: 0 <= i < j < |SortedTasks(filtered)| ==>
              (SortedTasks(filtered)[i].completed == SortedTasks(filtered)[j].completed ==>
                 SortedTasks(filtered)[i].dueDate <= SortedTasks(filtered)[j].dueDate)
  {
    ListLeqTotal();
    var r := SortedTasks(filtered);
    assert SortedBy(r, ListLeq);
    forall i, j | 0 <= i < j < |r| ensures ListLeq(r[i], r[j]) {
    }
  }
}
