/**
 * The statistics cards (app/components/stats-cards.tsx): completed, pending
 * and overdue task counts and the number of distinct subjects.
 */
module Stats {
  import opened Records
  import opened Seqs
  import Dashboard

  function Completed(tasks: seq<Task>): nat {
    Dashboard.CompletedCount(tasks)
  }

  function Pending(tasks: seq<Task>): nat {
    Count(tasks, (t: Task) => !t.completed)
  }

  /** Pending tasks due before `now`. */
  function Overdue(tasks: seq<Task>, now: Instant): nat {
    Count(tasks, (t: Task) => IsOverdue(t, now))
  }

  function SubjectColumn(tasks: seq<Task>): (r: seq<string>)
    ensures |r| == |tasks| && forall i :: 0 <= i < |r| ==> r[i] == tasks[i].subject
  {
    seq(|tasks|, i requires 0 <= i < |tasks| => tasks[i].subject)
  }

  /** `totalSubjects`: distinct subject strings, the empty one included. */
  function TotalSubjects(tasks: seq<Task>): nat {
    |Dedup(SubjectColumn(tasks))|
  }

  /** Every task is either completed or pending. */
  lemma CompletedPlusPending(tasks: seq<Task>)
    ensures Completed(tasks) + Pending(tasks) == |tasks|
  {
    CountSplit(tasks, (t: Task) => t.completed, (t: Task) => !t.completed);
  }

  /** Overdue tasks are pending tasks, so there are never more of them. */
  lemma OverdueAtMostPending(tasks: seq<Task>, now: Instant)
    ensures Overdue(tasks, now) <= Pending(tasks)
  {
    CountMonotone(tasks, (t: Task) => IsOverdue(t, now), (t: Task) => !t.completed);
  }

  /** The overdue count ignores completed tasks, however late they were. */
  lemma OverdueIgnoresCompleted(tasks: seq<Task>, now: Instant, t: Task)
    requires t.completed
    ensures Overdue(tasks + [t], now) == Overdue(tasks, now)
  {
    FilterConcat(tasks, [t], (t: Task) => IsOverdue(t, now));
  }

  /** The subject count is the number of different subject strings among the
      tasks, so it never exceeds the number of tasks. */
  lemma TotalSubjectsSpec(tasks: seq<Task>)
    ensures TotalSubjects(tasks) == |set t | t in tasks :: t.subject|
    ensures TotalSubjects(tasks) <= |tasks|
  {
    var col := SubjectColumn(tasks);
    var d := Dedup(col);
    NoDupCard(d);
    assert (set x | x in d) == (set t | t in tasks :: t.subject) by {
      forall x ensures x in d <==> exists t :: t in tasks && t.subject == x {
        if x in col {
          var i :| 0 <= i < |col| && col[i] == x;
          assert tasks[i] in tasks;
        }
        if exists t :: t in tasks && t.subject == x {
          var t :| t in tasks && t.subject == x;
          var i :| 0 <= i < |tasks| && tasks[i] == t;
          assert col[i] == x;
        }
      }
    }
  }
}
