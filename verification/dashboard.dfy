/**
 * The task operations of the planner's root page (app/page.tsx): adding,
 * toggling and deleting tasks, the five upcoming tasks and the completion
 * rate shown on the dashboard.
 */
module Dashboard {
  import opened Records
  import opened Seqs
  import opened Sorting

  /** `addTask`: the new task, with the id the caller generated, goes last. */
  function AddTask(tasks: seq<Task>, newTask: NewTask, id: string): (r: seq<Task>)
    ensures |r| == |tasks| + 1 && r[..|tasks|] == tasks
    ensures r[|tasks|].id == id
    ensures r[|tasks|].title == newTask.title && r[|tasks|].description == newTask.description
    ensures r[|tasks|].subject == newTask.subject && r[|tasks|].priority == newTask.priority
    ensures r[|tasks|].dueDate == newTask.dueDate && r[|tasks|].completed == newTask.completed
    ensures r[|tasks|].category == newTask.category && r[|tasks|].tags == newTask.tags
    ensures r[|tasks|].estimatedTime == newTask.estimatedTime
  {
    tasks + [newTask.WithId(id)]
  }

  /** `toggleTask`: flips `completed` on the tasks with that id; nothing else changes. */
  function ToggleTask(tasks: seq<Task>, id: string): (r: seq<Task>)
    ensures |r| == |tasks|
    ensures forall i :: 0 <= i < |r| ==> r[i].(completed := tasks[i].completed) == tasks[i]
    ensures forall i :: 0 <= i < |r| ==> (r[i].completed <==> (tasks[i].completed != (tasks[i].id == id)))
  {
    seq(|tasks|, i requires 0 <= i < |tasks| =>
      if tasks[i].id == id then tasks[i].(completed := !tasks[i].completed) else tasks[i])
  }

  /** Toggling the same id twice restores the list. */
  lemma ToggleTaskTwice(tasks: seq<Task>, id: string)
    ensures ToggleTask(ToggleTask(tasks, id), id) == tasks
  {
    var r := ToggleTask(ToggleTask(tasks, id), id);
    assert forall i :: 0 <= i < |r| ==> r[i] == tasks[i];
  }

  /** `deleteTask`: every task with that id goes, the rest stay in order. */
  function DeleteTask(tasks: seq<Task>, id: string): (r: seq<Task>)
    ensures forall t :: t in r <==> t in tasks && t.id != id
    ensures forall t :: multiset(r)[t] == if t.id != id then multiset(tasks)[t] else 0
    ensures SubsequenceOf(r, tasks)
  {
    FilterSubsequence(tasks, (t: Task) => t.id != id);
    FilterMultiset(tasks, (t: Task) => t.id != id);
    Filter(tasks, (t: Task) => t.id != id)
  }

  function Pending(tasks: seq<Task>): seq<Task> {
    Filter(tasks, (t: Task) => !t.completed)
  }

  /** `upcomingTasks`: pending tasks, soonest due first, cut to five. */
  function UpcomingTasks(tasks: seq<Task>): seq<Task> {
    DueLeqTotal();
    var sorted := Sort(Pending(tasks), DueLeq);
    sorted[..if |sorted| < 5 then |sorted| else 5]
  }

  /** The upcoming list holds at most five pending tasks of the input in due
      order, and no pending task left out is due before one that is shown. */
  lemma UpcomingTasksSpec(tasks: seq<Task>)
    ensures var r := UpcomingTasks(tasks);
      && |r| == (if |Pending(tasks)| < 5 then |Pending(tasks)| else 5)
      && (forall t :: t in r ==> t in tasks && !t.completed)
      && (forall i, j :: 0 <= i < j < |r| ==> r[i].dueDate <= r[j].dueDate)
      && (forall t, u :: t in tasks && !t.completed && t !in r && u in r ==> u.dueDate <= t.dueDate)
  {
    DueLeqTotal();
    var pending := Pending(tasks);
    var sorted := Sort(pending, DueLeq);
    var n := if |sorted| < 5 then |sorted| else 5;
    var r := sorted[..n];
    assert r == UpcomingTasks(tasks);
    forall t | t in r ensures t in tasks && !t.completed {
      assert t in multiset(sorted);
    }
    forall i, j | 0 <= i < j < |r| ensures r[i].dueDate <= r[j].dueDate {
      assert DueLeq(sorted[i], sorted[j]);
    }
    forall t, u | t in tasks && !t.completed && t !in r && u in r ensures u.dueDate <= t.dueDate {
      assert t in multiset(pending);
      assert t in multiset(sorted);
      SortedPrefixBelow(sorted, DueLeq, n, t, u);
    }
  }

  /** `completed / total * 100` lies in [0, 100]; it is 100 exactly when every
      task counts and 0 exactly when none does. */
  lemma PercentBounds(completed: nat, total: nat)
    requires completed <= total && 0 < total
    ensures var p := (completed as real / total as real) * 100.0;
      && 0.0 <= p <= 100.0
      && (p == 100.0 <==> completed == total)
      && (p == 0.0 <==> completed == 0)
  {
    var q := completed as real / total as real;
    assert q * total as real == completed as real;
    assert q <= 1.0;
    assert q * 100.0 == 100.0 ==> q == 1.0;
    assert q == 1.0 ==> completed == total;
  }

  function CompletedCount(tasks: seq<Task>): nat {
    Count(tasks, (t: Task) => t.completed)
  }

  /** `completionRate`: the percentage of completed tasks, 0 for no tasks. */
  function CompletionRate(tasks: seq<Task>): (r: real)
    ensures 0.0 <= r <= 100.0
    ensures |tasks| == 0 ==> r == 0.0
    ensures |tasks| > 0 ==> (r == 100.0 <==> CompletedCount(tasks) == |tasks|)
    ensures r == 0.0 <==> CompletedCount(tasks) == 0
  {
    var completed := CompletedCount(tasks);
    if |tasks| > 0 then
      PercentBounds(completed, |tasks|);
      (completed as real / |tasks| as real) * 100.0
    else 0.0
  }
}
