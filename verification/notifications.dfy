/**
 * The notification center (app/components/notification-center.tsx): pending
 * tasks fall into the "overdue", "due tomorrow" and "due this week" buckets
 * by their due instant relative to `now`, and each becomes one notification.
 */
module Notifications {
  import opened Records
  import opened Seqs

  /** Milliseconds in a day: `24 * 60 * 60 * 1000`. */
  const DayMs: int := 86400000

  function Tomorrow(now: Instant): Instant { now + DayMs }

  function NextWeek(now: Instant): Instant { now + 7 * DayMs }

  datatype Kind = Overdue | DueTomorrow | DueWeek

  /** A notification; the rendered message text is not modelled. */
  datatype Notification = Notification(id: string, kind: Kind, title: string, task: Task, priority: Priority)

  predicate InOverdue(t: Task, now: Instant) {
    !t.completed && t.dueDate < now
  }

  predicate InTomorrow(t: Task, now: Instant) {
    !t.completed && t.dueDate <= Tomorrow(now) && t.dueDate > now
  }

  predicate InWeek(t: Task, now: Instant) {
    !t.completed && t.dueDate <= NextWeek(now) && t.dueDate > Tomorrow(now)
  }

  /** Reference classification of one task: the bucket it belongs to, if any. */
  function Classify(t: Task, now: Instant): Option<Kind> {
    if t.completed then None
    else if t.dueDate < now then Some(Overdue)
    else if now < t.dueDate <= now + DayMs then Some(DueTomorrow)
    else if now + DayMs < t.dueDate <= now + 7 * DayMs then Some(DueWeek)
    else None
  }

  /** The three filters agree with the classification, so no task is in two
      buckets and completed tasks are in none. */
  lemma BucketsClassify(t: Task, now: Instant)
    ensures InOverdue(t, now) <==> Classify(t, now) == Some(Overdue)
    ensures InTomorrow(t, now) <==> Classify(t, now) == Some(DueTomorrow)
    ensures InWeek(t, now) <==> Classify(t, now) == Some(DueWeek)
    ensures !(InOverdue(t, now) && InTomorrow(t, now))
    ensures !(InOverdue(t, now) && InWeek(t, now))
    ensures !(InTomorrow(t, now) && InWeek(t, now))
    ensures t.completed ==> Classify(t, now) == None
  {
  }

  /** A pending task due exactly at `now` is neither overdue nor due tomorrow:
      it gets no notification. */
  lemma DueNowUnnotified(t: Task, now: Instant)
    requires t.dueDate == now
    ensures Classify(t, now) == None
  {
  }

  /** A pending task due exactly 24 hours from now is due tomorrow, and one due
      exactly a week from now is due this week. */
  lemma BucketBoundaries(t: Task, now: Instant)
    requires !t.completed
    ensures t.dueDate == now + DayMs ==> Classify(t, now) == Some(DueTomorrow)
    ensures t.dueDate == now + 7 * DayMs ==> Classify(t, now) == Some(DueWeek)
    ensures t.dueDate == now + 7 * DayMs + 1 ==> Classify(t, now) == None
  {
  }

  function TitleOf(k: Kind): string {
    match k
    case Overdue => "Tarea vencida"
    case DueTomorrow => "Vence mañana"
    case DueWeek => "Vence esta semana"
  }

  function PriorityOf(k: Kind): Priority {
    match k
    case Overdue => High
    case DueTomorrow => Medium
    case DueWeek => Low
  }

  function Notify(t: Task, k: Kind): Notification {
    Notification(t.id, k, TitleOf(k), t, PriorityOf(k))
  }

  function NotifyAll(ts: seq<Task>, k: Kind): (r: seq<Notification>)
    ensures |r| == |ts|
    ensures forall i :: 0 <= i < |ts| ==> r[i] == Notify(ts[i], k)
  {
    seq(|ts|, i requires 0 <= i < |ts| => Notify(ts[i], k))
  }

  /** `notifications`: overdue, then due tomorrow, then due this week. */
  function Notifications(tasks: seq<Task>, now: Instant): seq<Notification> {
    NotifyAll(Filter(tasks, (t: Task) => InOverdue(t, now)), Overdue)
    + NotifyAll(Filter(tasks, (t: Task) => InTomorrow(t, now)), DueTomorrow)
    + NotifyAll(Filter(tasks, (t: Task) => InWeek(t, now)), DueWeek)
  }

  lemma NotifyAllMember(ts: seq<Task>, k: Kind, n: Notification)
    requires n in NotifyAll(ts, k)
    ensures n.task in ts && n == Notify(n.task, k)
  {
    var i :| 0 <= i < |ts| && NotifyAll(ts, k)[i] == n;
  }

  lemma NotifyAllHas(ts: seq<Task>, k: Kind, t: Task)
    requires t in ts
    ensures Notify(t, k) in NotifyAll(ts, k)
  {
    var i :| 0 <= i < |ts| && ts[i] == t;
    assert NotifyAll(ts, k)[i] == Notify(t, k);
  }

  /** Every notification is about a task of the list, carries its id, the
      kind the task's due instant calls for, and the title and priority of
      that kind. */
  lemma NotificationsSound(tasks: seq<Task>, now: Instant)
    ensures forall n :: n in Notifications(tasks, now) ==>
      n.task in tasks && n.id == n.task.id && Classify(n.task, now) == Some(n.kind)
      && n.title == TitleOf(n.kind) && n.priority == PriorityOf(n.kind)
  {
    var o := Filter(tasks, (t: Task) => InOverdue(t, now));
    var d := Filter(tasks, (t: Task) => InTomorrow(t, now));
    var w := Filter(tasks, (t: Task) => InWeek(t, now));
    var a, b, c := NotifyAll(o, Overdue), NotifyAll(d, DueTomorrow), NotifyAll(w, DueWeek);
    assert Notifications(tasks, now) == a + b + c;
    forall n: Notification | n in a + b + c
      ensures n.task in tasks && n.id == n.task.id && Classify(n.task, now) == Some(n.kind)
      && n.title == TitleOf(n.kind) && n.priority == PriorityOf(n.kind)
    {
      if n in a {
        NotifyAllMember(o, Overdue, n);
      } else if n in b {
        NotifyAllMember(d, DueTomorrow, n);
      } else {
        NotifyAllMember(w, DueWeek, n);
      }
      BucketsClassify(n.task, now);
    }
  }

  /** Every task of the list that has a kind has a notification of that kind. */
  lemma NotificationsComplete(tasks: seq<Task>, now: Instant)
    ensures forall t, k :: t in tasks && Classify(t, now) == Some(k) ==> Notify(t, k) in Notifications(tasks, now)
  {
    var o := Filter(tasks, (t: Task) => InOverdue(t, now));
    var d := Filter(tasks, (t: Task) => InTomorrow(t, now));
    var w := Filter(tasks, (t: Task) => InWeek(t, now));
    var a, b, c := NotifyAll(o, Overdue), NotifyAll(d, DueTomorrow), NotifyAll(w, DueWeek);
    assert Notifications(tasks, now) == a + b + c;
    forall t, k | t in tasks && Classify(t, now) == Some(k)
      ensures Notify(t, k) in a + b + c
    {
      BucketsClassify(t, now);
      match k
      case Overdue => NotifyAllHas(o, k, t);
      case DueTomorrow => NotifyAllHas(d, k, t);
      case DueWeek => NotifyAllHas(w, k, t);
    }
  }

  /** Overdue notifications come first, then those due tomorrow, then the
      week's; each block follows the task list, and the list is as long as
      the three buckets together. */
  lemma NotificationsOrder(tasks: seq<Task>, now: Instant)
    ensures forall i, j :: 0 <= i < j < |Notifications(tasks, now)| ==>
      Rank(Notifications(tasks, now)[i].kind) <= Rank(Notifications(tasks, now)[j].kind)
    ensures var o := Filter(tasks, (t: Task) => InOverdue(t, now));
      var d := Filter(tasks, (t: Task) => InTomorrow(t, now));
      var w := Filter(tasks, (t: Task) => InWeek(t, now));
      var r := Notifications(tasks, now);
      && |r| == |o| + |d| + |w|
      && (forall i :: 0 <= i < |o| ==> r[i] == Notify(o[i], Overdue))
      && (forall i :: 0 <= i < |d| ==> r[|o| + i] == Notify(d[i], DueTomorrow))
      && (forall i :: 0 <= i < |w| ==> r[|o| + |d| + i] == Notify(w[i], DueWeek))
  {
    var o := Filter(tasks, (t: Task) => InOverdue(t, now));
    var d := Filter(tasks, (t: Task) => InTomorrow(t, now));
    var r := Notifications(tasks, now);
    forall i | 0 <= i < |r|
      ensures Rank(r[i].kind) == if i < |o| then 0 else if i < |o| + |d| then 1 else 2
    {
    }
  }

  function Rank(k: Kind): nat {
    match k
    case Overdue => 0
    case DueTomorrow => 1
    case DueWeek => 2
  }
}
