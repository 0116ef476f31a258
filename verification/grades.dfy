/**
 * The grade calculator (app/components/grade-calculator.tsx): recording and
 * deleting grades, the weighted percentage of a subject, the fixed
 * percentage-to-GPA table, the overall GPA as the plain mean of the subject
 * GPAs, and the progress toward a target GPA. Numbers are exact reals.
 */
module Grades {
  import opened Records
  import opened Seqs

  /** The text fields of the grade form. */
  datatype GradeForm = GradeForm(subject: string, assignment: string, grade: string, maxGrade: string, weight: string)

  /** The form as it starts and as a successful submission leaves it. */
  const EmptyGradeForm := GradeForm("", "", "", "100", "1")

  function SubjectColumn(grades: seq<Grade>): (r: seq<string>)
    ensures |r| == |grades| && forall i :: 0 <= i < |grades| ==> r[i] == grades[i].subject
  {
    seq(|grades|, i requires 0 <= i < |grades| => grades[i].subject)
  }

  /** `subjects`: the distinct non-empty subjects of the recorded grades. */
  function Subjects(grades: seq<Grade>): seq<string> {
    DistinctNonEmpty(SubjectColumn(grades))
  }

  /** Each non-empty subject of a grade is listed once, in first-occurrence order. */
  lemma SubjectsSpec(grades: seq<Grade>)
    ensures NoDup(Subjects(grades))
    ensures forall s :: s in Subjects(grades) <==> s != "" && exists g :: g in grades && g.subject == s
    ensures forall i, j :: 0 <= i < j < |Subjects(grades)| ==>
      FirstIndex(SubjectColumn(grades), Subjects(grades)[i]) < FirstIndex(SubjectColumn(grades), Subjects(grades)[j])
  {
    var col := SubjectColumn(grades);
    DistinctNonEmptySpec(col);
    forall s ensures s in col <==> exists g :: g in grades && g.subject == s {
      if s in col {
        var i :| 0 <= i < |col| && col[i] == s;
        assert grades[i] in grades;
      }
      if exists g :: g in grades && g.subject == s {
        var g :| g in grades && g.subject == s;
        var i :| 0 <= i < |grades| && grades[i] == g;
        assert col[i] == s;
      }
    }
  }

  /** `handleSubmit`: with subject, assignment and grade filled in, one grade
      stamped with the given id and time is appended and the form is cleared;
      otherwise nothing changes. `parse` stands for `Number.parseFloat`. */
  function Submit(grades: seq<Grade>, form: GradeForm, parse: string -> real, id: string, now: Instant)
    : (r: (seq<Grade>, GradeForm))
    ensures form.subject == "" || form.assignment == "" || form.grade == "" ==> r == (grades, form)
    ensures form.subject != "" && form.assignment != "" && form.grade != "" ==>
      && |r.0| == |grades| + 1 && r.0[..|grades|] == grades
      && r.0[|grades|] == Grade(id, form.subject, form.assignment, parse(form.grade),
                                parse(form.maxGrade), parse(form.weight), now)
      && r.1 == EmptyGradeForm
  {
    if form.subject == "" || form.assignment == "" || form.grade == "" then (grades, form)
    else
      var g := Grade(id, form.subject, form.assignment, parse(form.grade), parse(form.maxGrade), parse(form.weight), now);
      (grades + [g], EmptyGradeForm)
  }

  /** `deleteGrade`: exactly the grades with that id go, the others stay in order. */
  function DeleteGrade(grades: seq<Grade>, id: string): (r: seq<Grade>)
    ensures forall g :: g in r <==> g in grades && g.id != id
    ensures forall g :: multiset(r)[g] == if g.id != id then multiset(grades)[g] else 0
    ensures SubsequenceOf(r, grades)
  {
    FilterSubsequence(grades, (g: Grade) => g.id != id);
    FilterMultiset(grades, (g: Grade) => g.id != id);
    Filter(grades, (g: Grade) => g.id != id)
  }

  /** The division in the GPA computation is defined: a positive maximum and weight. */
  predicate Measurable(g: Grade) {
    g.maxGrade > 0.0 && g.weight > 0.0
  }

  predicate AllMeasurable(grades: seq<Grade>) {
    forall g :: g in grades ==> Measurable(g)
  }

  /** `(grade.grade / grade.maxGrade) * 100`. */
  function Percentage(g: Grade): real
    requires Measurable(g)
  {
    (g.grade / g.maxGrade) * 100.0
  }

  /** The first reduce: the sum of percentage times weight. */
  function WeightedPoints(gs: seq<Grade>): real
    requires AllMeasurable(gs)
  {
    if gs == [] then 0.0 else Percentage(gs[0]) * gs[0].weight + WeightedPoints(gs[1..])
  }

  /** The second reduce: the sum of the weights. */
  function TotalWeight(gs: seq<Grade>): (w: real)
    requires AllMeasurable(gs)
    ensures gs != [] ==> w > 0.0
    ensures gs == [] ==> w == 0.0
  {
    if gs == [] then 0.0
    else
      assert gs[0] in gs;
      gs[0].weight + TotalWeight(gs[1..])
  }

  /** The weighted average percentage of a non-empty list of grades. */
  function WeightedAverage(gs: seq<Grade>): real
    requires AllMeasurable(gs) && gs != []
  {
    WeightedPoints(gs) / TotalWeight(gs)
  }

  /** For one grade the weight cancels: the average is that grade's percentage. */
  lemma SingleGradeAverage(g: Grade)
    requires Measurable(g)
    ensures WeightedAverage([g]) == (g.grade / g.maxGrade) * 100.0
  {
    var p := Percentage(g);
    assert [g][1..] == [];
    assert WeightedPoints([g]) == p * g.weight;
    assert TotalWeight([g]) == g.weight;
    assert (p * g.weight) / g.weight == p;
  }

  /** Scores between 0 and the maximum give points between 0 and 100 per unit of weight. */
  lemma {:induction false} WeightedPointsBounds(gs: seq<Grade>)
    requires AllMeasurable(gs)
    requires forall g :: g in gs ==> 0.0 <= g.grade <= g.maxGrade
    ensures 0.0 <= WeightedPoints(gs) <= 100.0 * TotalWeight(gs)
  {
    if gs != [] {
      var g := gs[0];
      WeightedPointsBounds(gs[1..]);
      assert g in gs;
      RatioBounds(g.grade, g.maxGrade, 1.0);
      var p := Percentage(g);
      assert 0.0 <= p <= 100.0;
      assert (100.0 - p) * g.weight >= 0.0;
      assert 0.0 <= p * g.weight <= 100.0 * g.weight;
    }
  }

  /** With every score between 0 and its maximum, the average lies in [0, 100]. */
  lemma WeightedAverageBounds(gs: seq<Grade>)
    requires AllMeasurable(gs) && gs != []
    requires forall g :: g in gs ==> 0.0 <= g.grade <= g.maxGrade
    ensures 0.0 <= WeightedAverage(gs) <= 100.0
  {
    WeightedPointsBounds(gs);
    var w := TotalWeight(gs);
    RatioBounds(WeightedPoints(gs), w, 100.0);
  }

  /** A quotient of `0 <= a <= bound * b` by a positive `b` lies in [0, bound]. */
  lemma RatioBounds(a: real, b: real, bound: real)
    requires b > 0.0 && 0.0 <= a <= bound * b
    ensures 0.0 <= a / b <= bound
  {
    var q := a / b;
    assert q * b == a;
    assert (bound - q) * b == bound * b - a;
  }

  /** The 4.0 scale: inclusive lower bounds, checked from the top down. */
  function PercentToGpa(average: real): (gpa: real)
    ensures 0.0 <= gpa <= 4.0
    ensures gpa in {4.0, 3.7, 3.3, 3.0, 2.7, 2.3, 2.0, 1.7, 1.3, 1.0, 0.7, 0.0}
    ensures gpa == 4.0 <==> average >= 97.0
    ensures gpa == 0.0 <==> average < 65.0
  {
    if average >= 97.0 then 4.0
    else if average >= 93.0 then 3.7
    else if average >= 90.0 then 3.3
    else if average >= 87.0 then 3.0
    else if average >= 83.0 then 2.7
    else if average >= 80.0 then 2.3
    else if average >= 77.0 then 2.0
    else if average >= 73.0 then 1.7
    else if average >= 70.0 then 1.3
    else if average >= 67.0 then 1.0
    else if average >= 65.0 then 0.7
    else 0.0
  }

  /** A higher average never earns a lower grade point. */
  lemma PercentToGpaMonotone(a: real, b: real)
    requires a <= b
    ensures PercentToGpa(a) <= PercentToGpa(b)
  {
  }

  /** The boundary cases of the table: 97 earns 4.0, just under 97 earns 3.7,
      just under 65 earns 0. */
  lemma PercentToGpaBoundaries()
    ensures PercentToGpa(97.0) == 4.0
    ensures PercentToGpa(96.999) == 3.7
    ensures PercentToGpa(64.9) == 0.0
    ensures PercentToGpa(65.0) == 0.7
  {
  }

  function GradesOf(grades: seq<Grade>, subject: string): seq<Grade> {
    Filter(grades, (g: Grade) => g.subject == subject)
  }

  /** `calculateSubjectGPA`: 0 for a subject without grades, otherwise the
      table applied to the subject's weighted average. */
  function SubjectGpa(grades: seq<Grade>, subject: string): (gpa: real)
    requires AllMeasurable(grades)
    ensures 0.0 <= gpa <= 4.0
    ensures GradesOf(grades, subject) == [] ==> gpa == 0.0
  {
    var gs := GradesOf(grades, subject);
    if |gs| == 0 then 0.0 else PercentToGpa(WeightedAverage(gs))
  }

  /** Grades 85/100 (weight 1) and 95/100 (weight 2) in one subject average
      91.67 and earn 3.3. */
  lemma SubjectGpaExample()
    ensures var math := [Grade("1", "Math", "Quiz", 85.0, 100.0, 1.0, 0), Grade("2", "Math", "Exam", 95.0, 100.0, 2.0, 0)];
      WeightedAverage(math) == 275.0 / 3.0 && SubjectGpa(math, "Math") == 3.3
  {
    var math := [Grade("1", "Math", "Quiz", 85.0, 100.0, 1.0, 0), Grade("2", "Math", "Exam", 95.0, 100.0, 2.0, 0)];
    assert math[1..][1..] == [];
    assert GradesOf(math, "Math") == math by {
      FilterAll(math, (g: Grade) => g.subject == "Math");
    }
  }

  /** The sum of the subject GPAs over `subjects`. */
  function GpaSum(grades: seq<Grade>, subjects: seq<string>): real
    requires AllMeasurable(grades)
  {
    if subjects == [] then 0.0 else SubjectGpa(grades, subjects[0]) + GpaSum(grades, subjects[1..])
  }

  lemma {:induction false} GpaSumBounds(grades: seq<Grade>, subjects: seq<string>)
    requires AllMeasurable(grades)
    ensures 0.0 <= GpaSum(grades, subjects) <= 4.0 * |subjects| as real
  {
    if subjects != [] {
      GpaSumBounds(grades, subjects[1..]);
    }
  }

  /** The mean subject GPA over a non-empty list of subjects. */
  function MeanGpa(grades: seq<Grade>, subjects: seq<string>): (gpa: real)
    requires AllMeasurable(grades) && subjects != []
    ensures 0.0 <= gpa <= 4.0
  {
    var total := GpaSum(grades, subjects);
    var n := |subjects| as real;
    GpaSumBounds(grades, subjects);
    RatioBounds(total, n, 4.0);
    total / n
  }

  /** `calculateOverallGPA`: 0 without subjects, otherwise the unweighted mean
      of the subject GPAs; it always lies in [0, 4]. */
  function OverallGpa(grades: seq<Grade>): (gpa: real)
    requires AllMeasurable(grades)
    ensures 0.0 <= gpa <= 4.0
    ensures Subjects(grades) == [] ==> gpa == 0.0
  {
    var subjects := Subjects(grades);
    if |subjects| == 0 then 0.0 else MeanGpa(grades, subjects)
  }

  /** With a single subject, the overall GPA is that subject's GPA. */
  lemma OverallGpaOneSubject(grades: seq<Grade>)
    requires AllMeasurable(grades)
    requires |Subjects(grades)| == 1
    ensures OverallGpa(grades) == SubjectGpa(grades, Subjects(grades)[0])
  {
    var subjects := Subjects(grades);
    assert subjects[1..] == [];
    assert GpaSum(grades, subjects) == SubjectGpa(grades, subjects[0]) + GpaSum(grades, []);
  }

  /** No grades recorded: the overall GPA is 0. */
  lemma OverallGpaEmpty()
    ensures OverallGpa([]) == 0.0
  {
    assert Subjects([]) == [];
  }

  /** The progress card: no target (a target of 0) shows no progress; otherwise
      `Math.min(100, overall / target * 100)`. */
  function TargetProgress(overall: real, target: real): (r: Option<real>)
    ensures r.None? <==> target == 0.0
    ensures r.Some? ==> r.value <= 100.0
    ensures r.Some? && target > 0.0 && overall >= 0.0 ==> 0.0 <= r.value
  {
    if target == 0.0 then None
    else
      var p := (overall / target) * 100.0;
      Some(if p < 100.0 then p else 100.0)
  }

  /** "Goal reached" is shown when the overall GPA is at least the target. */
  predicate GoalReached(overall: real, target: real) {
    overall >= target
  }

  /** For a positive target, the goal is reached exactly when the progress is full. */
  lemma GoalReachedIffFullProgress(overall: real, target: real)
    requires target > 0.0
    ensures GoalReached(overall, target) <==> TargetProgress(overall, target) == Some(100.0)
  {
    var q := overall / target;
    assert q * target == overall;
    if overall >= target {
      assert q >= 1.0;
    } else {
      assert q < 1.0;
    }
  }

  /** `updateTargetGPA`: `Number.parseFloat(target) || 0`, where `None` stands
      for a text that does not parse. */
  function TargetFromInput(parsed: Option<real>): (target: real)
    ensures parsed.Some? ==> target == parsed.value
    ensures parsed.None? ==> target == 0.0
  {
    if parsed.Some? then parsed.value else 0.0
  }

  /** Dates never increase from left to right. */
  ghost predicate NewestFirst(s: seq<Grade>) {
    forall k, l :: 0 <= k < l < |s| ==> s[k].date >= s[l].date
  }

  /** `grades.sort((a, b) => b.date - a.date)`: the list of recorded grades is
      reordered in place, newest first, keeping every grade. */
  method SortByDateDesc(a: array<Grade>)
    modifies a
    ensures NewestFirst(a[..])
    ensures multiset(a[..]) == multiset(old(a[..]))
  {
    var i := 0;
    while i < a.Length
      invariant 0 <= i <= a.Length
      invariant NewestFirst(a[..i])
      invariant multiset(a[..]) == multiset(old(a[..]))
    {
      SinkLast(a, i);
      i := i + 1;
    }
    assert a[..i] == a[..];
  }

  /** `s[..i + 1]` is newest first except that `s[j]`, on its way left, may be
      newer than the grades before it; it is newer than every grade after it. */
  ghost predicate Sinking(s: seq<Grade>, j: int, i: int)
    requires 0 <= j <= i < |s|
  {
    && (forall k, l :: 0 <= k < l <= i && k != j && l != j ==> s[k].date >= s[l].date)
    && (forall l :: j < l <= i ==> s[j].date > s[l].date)
  }

  lemma SinkStart(s: seq<Grade>, i: int)
    requires 0 <= i < |s| && NewestFirst(s[..i])
    ensures Sinking(s, i, i)
  {
    forall k, l | 0 <= k < l <= i && k != i && l != i ensures s[k].date >= s[l].date {
      assert s[k] == s[..i][k] && s[l] == s[..i][l];
    }
  }

  lemma SinkStep(s: seq<Grade>, j: int, i: int)
    requires 0 < j <= i < |s| && Sinking(s, j, i) && s[j - 1].date < s[j].date
    ensures Sinking(s[j - 1 := s[j]][j := s[j - 1]], j - 1, i)
  {
  }

  lemma SinkDone(s: seq<Grade>, j: int, i: int)
    requires 0 <= j <= i < |s| && Sinking(s, j, i) && (j == 0 || s[j - 1].date >= s[j].date)
    ensures NewestFirst(s[..i + 1])
  {
    forall k, l | 0 <= k < l <= i ensures s[k].date >= s[l].date {
      if k != j && l == j {
        assert s[k].date >= s[j - 1].date;
      }
    }
  }

  /** Moves `a[i]` left past every older grade, so that `a[..i + 1]` is newest first. */
  method SinkLast(a: array<Grade>, i: int)
    requires 0 <= i < a.Length && NewestFirst(a[..i])
    modifies a
    ensures NewestFirst(a[..i + 1])
    ensures multiset(a[..]) == multiset(old(a[..]))
  {
    SinkStart(a[..], i);
    assert a[..][..i] == a[..i];
    var j := i;
    while j > 0 && a[j - 1].date < a[j].date
      invariant 0 <= j <= i
      invariant Sinking(a[..], j, i)
      invariant multiset(a[..]) == multiset(old(a[..]))
    {
      SinkStep(a[..], j, i);
      a[j - 1], a[j] := a[j], a[j - 1];
      j := j - 1;
    }
    SinkDone(a[..], j, i);
    assert a[..][..i + 1] == a[..i + 1];
  }
}
