/**
 * The calendar view (app/components/calendar-view.tsx): the month grid of
 * blank cells and day cells, the tasks listed in a day cell, the overflow
 * marker of a crowded cell, and the month's task list. Months are numbered
 * from 0 as in `Date.getMonth`; weekdays from 0 (Sunday) as in `Date.getDay`.
 */
module Calendar {
  import opened Records
  import opened Seqs
  import opened Sorting
  import opened Arith

  /** A local calendar date, as `Date.toDateString` identifies it. */
  datatype CivilDate = CivilDate(year: int, month: int, day: int)

  /** A grid cell: `null` before the first day of the month, else a date. */
  datatype Cell = Blank | Day(date: CivilDate)

  predicate IsLeapYear(year: int) {
    year % 4 == 0 && (year % 100 != 0 || year % 400 == 0)
  }

  /** `new Date(year, month + 1, 0).getDate()`: the length of the month. */
  function DaysInMonthOf(year: int, month: int): (n: int)
    requires 0 <= month < 12
    ensures 28 <= n <= 31
    ensures month == 1 ==> (n == 29 <==> IsLeapYear(year))
  {
    if month == 1 then (if IsLeapYear(year) then 29 else 28)
    else if month == 3 || month == 5 || month == 8 || month == 10 then 30
    else 31
  }

  /** Days from 1970-01-01 to the given date in the proleptic Gregorian calendar. */
  function DaysFromCivil(year: int, month: int, day: int): int
    requires 0 <= month < 12
  {
    var m := month + 1;
    var y := if m <= 2 then year - 1 else year;
    var era := y / 400;
    var yoe := y - era * 400;
    var mp := if m > 2 then m - 3 else m + 9;
    var doy := (153 * mp + 2) / 5 + day - 1;
    var doe := yoe * 365 + yoe / 4 - yoe / 100 + doy;
    era * 146097 + doe - 719468
  }

  /** `Date.getDay`: 0 for Sunday through 6 for Saturday. */
  function Weekday(year: int, month: int, day: int): (w: int)
    requires 0 <= month < 12
    ensures 0 <= w < 7
  {
    (DaysFromCivil(year, month, day) + 4) % 7
  }

  /** The epoch was a Thursday, 1 January 2024 a Monday, 29 February 2024 a Thursday. */
  lemma WeekdayExamples()
    ensures Weekday(1970, 0, 1) == 4
    ensures Weekday(2024, 0, 1) == 1
    ensures Weekday(2024, 1, 29) == 4
  {
    assert DaysFromCivil(1970, 0, 1) == 0;
    assert DaysFromCivil(2024, 0, 1) == 19723;
    assert DaysFromCivil(2024, 1, 29) == 19782;
  }

  /** Within a month, consecutive days are consecutive day numbers. */
  lemma DaysFromCivilInMonth(year: int, month: int, day: int)
    requires 0 <= month < 12
    ensures DaysFromCivil(year, month, day) == DaysFromCivil(year, month, 1) + day - 1
  {
  }

  /** What `getDaysInMonth` returns: `start` blanks, then the days 1..n of the month. */
  ghost predicate IsMonthGrid(days: seq<Cell>, year: int, month: int)
    requires 0 <= month < 12
  {
    var start := Weekday(year, month, 1);
    var n := DaysInMonthOf(year, month);
    && |days| == start + n
    && (forall i :: 0 <= i < start ==> days[i] == Blank)
    && (forall d :: 1 <= d <= n ==> days[start + d - 1] == Day(CivilDate(year, month, d)))
  }

  /** `getDaysInMonth`: the cells of the month grid, row by row from Sunday. */
  method DaysInMonth(year: int, month: int) returns (days: seq<Cell>)
    requires 0 <= month < 12
    ensures IsMonthGrid(days, year, month)
    ensures |days| <= 37
    ensures forall i :: 0 <= i < |days| && days[i].Day? ==>
      days[i].date.year == year && days[i].date.month == month && 1 <= days[i].date.day <= DaysInMonthOf(year, month)
    ensures forall i :: 0 <= i < |days| && days[i].Day? ==>
      Weekday(days[i].date.year, days[i].date.month, days[i].date.day) == i % 7
  {
    var daysInMonth := DaysInMonthOf(year, month);
    var startingDayOfWeek := Weekday(year, month, 1);
    days := [];
    var i := 0;
    while i < startingDayOfWeek
      invariant 0 <= i <= startingDayOfWeek
      invariant |days| == i
      invariant forall k :: 0 <= k < i ==> days[k] == Blank
    {
      days := days + [Blank];
      i := i + 1;
    }
    var day := 1;
    while day <= daysInMonth
      invariant 1 <= day <= daysInMonth + 1
      invariant |days| == startingDayOfWeek + day - 1
      invariant forall k :: 0 <= k < startingDayOfWeek ==> days[k] == Blank
      invariant forall d :: 1 <= d < day ==> days[startingDayOfWeek + d - 1] == Day(CivilDate(year, month, d))
    {
      days := days + [Day(CivilDate(year, month, day))];
      day := day + 1;
    }
    forall i | 0 <= i < |days| && days[i].Day?
      ensures days[i].date.year == year && days[i].date.month == month && 1 <= days[i].date.day <= daysInMonth
      ensures Weekday(days[i].date.year, days[i].date.month, days[i].date.day) == i % 7
    {
      var d := i - startingDayOfWeek + 1;
      assert days[i] == Day(CivilDate(year, month, d));
      DayColumn(year, month, d);
    }
  }

  /** Day `d` of the month sits in the grid column of its weekday. */
  lemma DayColumn(year: int, month: int, d: int)
    requires 0 <= month < 12
    ensures Weekday(year, month, d) == (Weekday(year, month, 1) + d - 1) % 7
  {
    DaysFromCivilInMonth(year, month, d);
    ModAdd(DaysFromCivil(year, month, 1) + 4, d - 1, 7);
  }

  /** `getTasksForDate`: the tasks due on the cell's date, whatever the time of day. */
  function TasksForDate(tasks: seq<Task>, cell: Cell, dateOf: Instant -> CivilDate): (r: seq<Task>)
    ensures cell.Blank? ==> r == []
    ensures cell.Day? ==> forall t :: t in r <==> t in tasks && dateOf(t.dueDate) == cell.date
    ensures cell.Day? ==> forall t :: multiset(r)[t] == if dateOf(t.dueDate) == cell.date then multiset(tasks)[t] else 0
    ensures SubsequenceOf(r, tasks)
  {
    match cell
    case Blank => []
    case Day(date) =>
      FilterSubsequence(tasks, (t: Task) => dateOf(t.dueDate) == date);
      FilterMultiset(tasks, (t: Task) => dateOf(t.dueDate) == date);
      Filter(tasks, (t: Task) => dateOf(t.dueDate) == date)
  }

  /** Every task due in the displayed month is listed in exactly one cell of
      the grid, and a task due in another month in none. */
  lemma GridPartitionsTasks(days: seq<Cell>, year: int, month: int, tasks: seq<Task>, dateOf: Instant -> CivilDate, t: Task)
    requires 0 <= month < 12 && IsMonthGrid(days, year, month) && t in tasks
    requires dateOf(t.dueDate).year == year && dateOf(t.dueDate).month == month ==>
      1 <= dateOf(t.dueDate).day <= DaysInMonthOf(year, month)
    ensures dateOf(t.dueDate).year == year && dateOf(t.dueDate).month == month ==>
      exists i :: 0 <= i < |days| && t in TasksForDate(tasks, days[i], dateOf)
    ensures forall i, j :: 0 <= i < |days| && 0 <= j < |days| ==>
      (t in TasksForDate(tasks, days[i], dateOf) && t in TasksForDate(tasks, days[j], dateOf) ==> i == j)
    ensures dateOf(t.dueDate).year != year || dateOf(t.dueDate).month != month ==>
      forall i :: 0 <= i < |days| ==> t !in TasksForDate(tasks, days[i], dateOf)
  {
    var start := Weekday(year, month, 1);
    var date := dateOf(t.dueDate);
    if date.year == year && date.month == month {
      var i := start + date.day - 1;
      assert days[i] == Day(date);
      assert t in TasksForDate(tasks, days[i], dateOf);
    }
    forall i | 0 <= i < |days| && t in TasksForDate(tasks, days[i], dateOf)
      ensures i == start + date.day - 1 && date.year == year && date.month == month
    {
      CellOfTask(days, year, month, tasks, dateOf, t, i);
    }
  }

  /** A cell listing `t` is the cell of the task's due date. */
  lemma CellOfTask(days: seq<Cell>, year: int, month: int, tasks: seq<Task>, dateOf: Instant -> CivilDate, t: Task, i: int)
    requires 0 <= month < 12 && IsMonthGrid(days, year, month)
    requires 0 <= i < |days| && t in TasksForDate(tasks, days[i], dateOf)
    ensures dateOf(t.dueDate) == CivilDate(year, month, i - Weekday(year, month, 1) + 1)
  {
    var start := Weekday(year, month, 1);
    assert days[i].Day?;
    assert i >= start;
    var d := i - start + 1;
    assert days[start + d - 1] == Day(CivilDate(year, month, d));
  }

  /** The first three tasks of a cell are shown. */
  function Shown(dayTasks: seq<Task>): (r: seq<Task>)
    ensures |r| <= 3 && |r| <= |dayTasks| && r == dayTasks[..|r|]
    ensures |r| == |dayTasks| || |r| == 3
  {
    if |dayTasks| <= 3 then dayTasks else dayTasks[..3]
  }

  /** The "+n" marker of a cell with more than three tasks. */
  function Overflow(dayTasks: seq<Task>): (r: Option<nat>)
    ensures r.Some? <==> |dayTasks| > 3
    ensures r.Some? ==> |Shown(dayTasks)| + r.value == |dayTasks|
  {
    if |dayTasks| > 3 then Some(|dayTasks| - 3) else None
  }

  predicate InMonth(t: Task, year: int, month: int, dateOf: Instant -> CivilDate) {
    dateOf(t.dueDate).year == year && dateOf(t.dueDate).month == month
  }

  /** The month's task list: the tasks due in the displayed month, by due date. */
  function MonthTasks(tasks: seq<Task>, year: int, month: int, dateOf: Instant -> CivilDate): seq<Task> {
    DueLeqTotal();
    Sort(Filter(tasks, (t: Task) => InMonth(t, year, month, dateOf)), DueLeq)
  }

  /** The month list holds each task of the month as often as the task list
      does, no other task, and is ordered by due date. */
  lemma MonthTasksSpec(tasks: seq<Task>, year: int, month: int, dateOf: Instant -> CivilDate)
    ensures forall t ::
      multiset(MonthTasks(tasks, year, month, dateOf))[t] == (if InMonth(t, year, month, dateOf) then multiset(tasks)[t] else 0)
    ensures forall t :: t in MonthTasks(tasks, year, month, dateOf) <==> t in tasks && InMonth(t, year, month, dateOf)
    ensures forall i, j :: 0 <= i < j < |MonthTasks(tasks, year, month, dateOf)| ==>
      MonthTasks(tasks, year, month, dateOf)[i].dueDate <= MonthTasks(tasks, year, month, dateOf)[j].dueDate
  {
    DueLeqTotal();
    var f := Filter(tasks, (t: Task) => InMonth(t, year, month, dateOf));
    FilterMultiset(tasks, (t: Task) => InMonth(t, year, month, dateOf));
    var r := MonthTasks(tasks, year, month, dateOf);
    assert multiset(r) == multiset(f);
    forall t ensures t in r <==> t in f {
      assert t in r <==> t in multiset(r);
    }
  }
}
