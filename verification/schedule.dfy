/**
 * The class schedule (app/components/schedule-view.tsx): adding and editing
 * classes through the form, deleting them, and grouping them by weekday,
 * each day's classes ordered by start time.
 */
module Schedule {
  import opened Records
  import opened Seqs
  import opened Sorting

  /** The weekday names the day select offers, Monday first. */
  const Days: seq<string> := ["Lunes", "Martes", "Miércoles", "Jueves", "Viernes", "Sábado", "Domingo"]

  /** The form fields of a class. */
  datatype ScheduleForm = ScheduleForm(
    subject: string, day: string, startTime: string, endTime: string, classroom: string, professor: string)

  const EmptyScheduleForm := ScheduleForm("", "", "", "", "", "")

  /** `{ ...formData, id }`. */
  function ItemOf(form: ScheduleForm, id: string): (it: ScheduleItem)
    ensures it.id == id && it.subject == form.subject && it.day == form.day
    ensures it.startTime == form.startTime && it.endTime == form.endTime
    ensures it.classroom == form.classroom && it.professor == form.professor
  {
    ScheduleItem(id, form.subject, form.day, form.startTime, form.endTime, form.classroom, form.professor)
  }

  /** Subject, day, start and end are required; the times are not compared. */
  predicate Complete(form: ScheduleForm) {
    form.subject != "" && form.day != "" && form.startTime != "" && form.endTime != ""
  }

  /** The schedule after saving an edited class: every item with the edited id
      takes the form's fields and keeps the id. */
  function ReplaceById(schedule: seq<ScheduleItem>, form: ScheduleForm, id: string): (r: seq<ScheduleItem>)
    ensures |r| == |schedule|
    ensures forall i :: 0 <= i < |r| ==> r[i].id == schedule[i].id
    ensures forall i :: 0 <= i < |r| && schedule[i].id != id ==> r[i] == schedule[i]
    ensures forall i :: 0 <= i < |r| && schedule[i].id == id ==>
      && r[i].subject == form.subject && r[i].day == form.day
      && r[i].startTime == form.startTime && r[i].endTime == form.endTime
      && r[i].classroom == form.classroom && r[i].professor == form.professor
  {
    seq(|schedule|, i requires 0 <= i < |schedule| => if schedule[i].id == id then ItemOf(form, id) else schedule[i])
  }

  /** `handleSubmit`: an incomplete form changes nothing; otherwise the edited
      class is replaced, or a new class with `newId` is appended, and the form
      is cleared and leaves edit mode. */
  function Submit(schedule: seq<ScheduleItem>, form: ScheduleForm, editing: Option<string>, newId: string)
    : (r: (seq<ScheduleItem>, ScheduleForm, Option<string>))
    ensures !Complete(form) ==> r == (schedule, form, editing)
    ensures Complete(form) ==> r.1 == EmptyScheduleForm && r.2 == None
    ensures Complete(form) && editing.Some? ==> r.0 == ReplaceById(schedule, form, editing.value)
    ensures Complete(form) && editing.None? ==>
      |r.0| == |schedule| + 1 && r.0[..|schedule|] == schedule && r.0[|schedule|] == ItemOf(form, newId)
  {
    if !Complete(form) then (schedule, form, editing)
    else if editing.Some? then (ReplaceById(schedule, form, editing.value), EmptyScheduleForm, None)
    else (schedule + [ItemOf(form, newId)], EmptyScheduleForm, None)
  }

  /** Saving the same edit twice is saving it once, and an edit never adds,
      removes or renames a class. */
  lemma ReplaceByIdIdempotent(schedule: seq<ScheduleItem>, form: ScheduleForm, id: string)
    ensures ReplaceById(ReplaceById(schedule, form, id), form, id) == ReplaceById(schedule, form, id)
    ensures forall x :: x in schedule && x.id != id ==> x in ReplaceById(schedule, form, id)
    ensures forall x :: x in ReplaceById(schedule, form, id) ==> x in schedule || x == ItemOf(form, id)
  {
    var r := ReplaceById(schedule, form, id);
    forall x | x in schedule && x.id != id ensures x in r {
      var i :| 0 <= i < |schedule| && schedule[i] == x;
      assert r[i] == x;
    }
  }

  /** `handleDelete`. */
  function Delete(schedule: seq<ScheduleItem>, id: string): (r: seq<ScheduleItem>)
    ensures forall x :: x in r <==> x in schedule && x.id != id
    ensures forall x :: multiset(r)[x] == if x.id != id then multiset(schedule)[x] else 0
    ensures SubsequenceOf(r, schedule)
  {
    FilterSubsequence(schedule, (x: ScheduleItem) => x.id != id);
    FilterMultiset(schedule, (x: ScheduleItem) => x.id != id);
    Filter(schedule, (x: ScheduleItem) => x.id != id)
  }

  /** Plain lexicographic order on strings by character code. */
  predicate LexLeq(a: string, b: string) {
    a == [] || (b != [] && (a[0] < b[0] || (a[0] == b[0] && LexLeq(a[1..], b[1..]))))
  }

  lemma {:induction false} LexLeqTotal(a: string, b: string)
    ensures LexLeq(a, b) || LexLeq(b, a)
  {
    if a != [] && b != [] && a[0] == b[0] {
      LexLeqTotal(a[1..], b[1..]);
    }
  }

  lemma {:induction false} LexLeqTrans(a: string, b: string, c: string)
    requires LexLeq(a, b) && LexLeq(b, c)
    ensures LexLeq(a, c)
  {
    if a != [] && b != [] && c != [] && a[0] == b[0] && b[0] == c[0] {
      LexLeqTrans(a[1..], b[1..], c[1..]);
    }
  }

  /** The day comparator `a.startTime.localeCompare(b.startTime)`, as plain
      lexicographic order. */
  predicate StartLeq(a: ScheduleItem, b: ScheduleItem) {
    LexLeq(a.startTime, b.startTime)
  }

  lemma StartLeqTotal()
    ensures TotalPreorder(StartLeq)
  {
    forall a: ScheduleItem, b: ScheduleItem ensures StartLeq(a, b) || StartLeq(b, a) {
      LexLeqTotal(a.startTime, b.startTime);
    }
    forall a: ScheduleItem, b: ScheduleItem, c: ScheduleItem | StartLeq(a, b) && StartLeq(b, c)
      ensures StartLeq(a, c)
    {
      LexLeqTrans(a.startTime, b.startTime, c.startTime);
    }
  }

  /** One day's classes, by start time. */
  function DayBucket(schedule: seq<ScheduleItem>, day: string): (r: seq<ScheduleItem>)
    ensures forall x :: x in r <==> x in schedule && x.day == day
    ensures forall x :: multiset(r)[x] == if x.day == day then multiset(schedule)[x] else 0
    ensures forall i, j :: 0 <= i < j < |r| ==> LexLeq(r[i].startTime, r[j].startTime)
  {
    StartLeqTotal();
    var f := Filter(schedule, (x: ScheduleItem) => x.day == day);
    FilterMultiset(schedule, (x: ScheduleItem) => x.day == day);
    var r := Sort(f, StartLeq);
    assert forall x :: x in r <==> x in multiset(r);
    r
  }

  /** `getScheduleByDay`: one entry per weekday name, holding that day's classes. */
  method ScheduleByDay(schedule: seq<ScheduleItem>) returns (m: map<string, seq<ScheduleItem>>)
    ensures m.Keys == set d | d in Days
    ensures forall d :: d in m ==> m[d] == DayBucket(schedule, d)
    ensures forall d, x :: d in m && x in m[d] ==> x in schedule && x.day == d
    ensures forall x :: x in schedule && x.day in Days ==> x in m[x.day]
    ensures forall x: ScheduleItem, d :: x.day !in Days && d in m ==> x !in m[d]
  {
    m := map[];
    var i := 0;
    while i < |Days|
      invariant 0 <= i <= |Days|
      invariant forall d :: d in m <==> d in Days[..i]
      invariant forall d :: d in m ==> m[d] == DayBucket(schedule, d)
    {
      m := m[Days[i] := DayBucket(schedule, Days[i])];
      assert Days[..i + 1] == Days[..i] + [Days[i]];
      i := i + 1;
    }
    assert Days[..i] == Days;
    BucketsPlaceEveryItem(schedule, m);
  }

  /** A map from each weekday to its bucket holds every class with a weekday
      under that day, and nothing else. */
  lemma BucketsPlaceEveryItem(schedule: seq<ScheduleItem>, m: map<string, seq<ScheduleItem>>)
    requires forall d :: d in m <==> d in Days
    requires forall d :: d in m ==> m[d] == DayBucket(schedule, d)
    ensures m.Keys == set d | d in Days
    ensures forall d, x :: d in m && x in m[d] ==> x in schedule && x.day == d
    ensures forall x :: x in schedule && x.day in Days ==> x in m[x.day]
    ensures forall x: ScheduleItem, d :: x.day !in Days && d in m ==> x !in m[d]
  {
    forall d, x | d in m && x in m[d] ensures x in schedule && x.day == d {
      assert x in DayBucket(schedule, d);
    }
    forall x | x in schedule && x.day in Days ensures x in m[x.day] {
      assert x in DayBucket(schedule, x.day);
    }
  }
}
