/**
 * The planner's entities. `Task`, `UserProfile` and `ScheduleItem` follow
 * the interfaces of app/page.tsx, with the task fields the components also
 * use (`tags`, `estimatedTime`); `Grade`, `Note` and `Resource` follow the
 * records the components build. Instants are integer milliseconds.
 */
module Records {
  import opened Sorting

  datatype Option<+T> = None | Some(value: T)

  /** A filter select whose value is either "all" or one option. */
  datatype Choice<T> = All | Only(value: T)

  /** `filter === "all" || value === filter`. */
  predicate Admits<T(==)>(c: Choice<T>, x: T) {
    c.All? || c.value == x
  }

  /** Milliseconds since the epoch, as `Date.getTime()` returns them. */
  type Instant = int

  datatype Priority = Low | Medium | High

  datatype Category = Assignment | Exam | Project | Reading | OtherCategory

  datatype Task = Task(
    id: string,
    title: string,
    description: string,
    subject: string,
    priority: Priority,
    dueDate: Instant,
    completed: bool,
    category: Category,
    tags: seq<string>,
    estimatedTime: Option<int>)

  /** `Omit<Task, "id">`: what the task form hands to the page. */
  datatype NewTask = NewTask(
    title: string,
    description: string,
    subject: string,
    priority: Priority,
    dueDate: Instant,
    completed: bool,
    category: Category,
    tags: seq<string>,
    estimatedTime: Option<int>)
  {
    /** `{ ...newTask, id }`. */
    function WithId(id: string): Task {
      Task(id, title, description, subject, priority, dueDate, completed, category, tags, estimatedTime)
    }
  }

  datatype Gender = Female | Male | OtherGender

  datatype UserProfile = UserProfile(
    name: string,
    email: string,
    career: string,
    semester: string,
    university: string,
    avatar: string,
    bio: string,
    goals: seq<string>,
    studyHours: int,
    favoriteSubjects: seq<string>,
    gender: Gender)

  datatype ScheduleItem = ScheduleItem(
    id: string,
    subject: string,
    day: string,
    startTime: string,
    endTime: string,
    classroom: string,
    professor: string)

  datatype Note = Note(
    id: string,
    title: string,
    content: string,
    subject: string,
    tags: seq<string>,
    createdAt: Instant,
    updatedAt: Instant)

  datatype ResourceType = Book | Website | Video | Document | OtherResource

  datatype Resource = Resource(
    id: string,
    title: string,
    kind: ResourceType,
    url: string,
    description: string,
    subject: string,
    rating: int,
    completed: bool)

  datatype Grade = Grade(
    id: string,
    subject: string,
    assignment: string,
    grade: real,
    maxGrade: real,
    weight: real,
    date: Instant)

  /** `!task.completed && task.dueDate < now`, the overdue test shared by the
      task list, the statistics cards and the notification center. */
  predicate IsOverdue(t: Task, now: Instant) {
    !t.completed && t.dueDate < now
  }

  /** The task comparator `a.dueDate.getTime() - b.dueDate.getTime()`. */
  predicate DueLeq(a: Task, b: Task) {
    a.dueDate <= b.dueDate
  }

  lemma DueLeqTotal()
    ensures TotalPreorder(DueLeq)
  {
  }
}
