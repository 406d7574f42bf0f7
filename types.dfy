/** The records the course-combination engine consumes and produces. */
module Types {

  datatype Option<T> = None | Some(value: T)

  /** Days a course can meet on: "Lunes" .. "Sábado". */
  datatype Day = Monday | Tuesday | Wednesday | Thursday | Friday | Saturday

  /** Subject categories of the catalog ("Programación", "Gestión", ...). */
  datatype Category = Programming | Management | Mathematics | Architecture | Systems | Elective

  /** "Principiante", "Intermedio", "Avanzado". */
  datatype SkillLevel = Beginner | Intermediate | Advanced

  /** "No trabaja", "Trabajo part-time", "Trabajo full-time". */
  datatype WorkAvailability = NotWorking | PartTime | FullTime

  /** "Primer Cuatrimestre", "Segundo Cuatrimestre". */
  datatype Semester = FirstTerm | SecondTerm

  datatype Difficulty = Easy | Medium | Hard

  /** One weekly meeting. `start` and `end` are minutes since midnight,
      the values the engine obtains with timeToMinutes from "HH:MM". */
  datatype Schedule = Schedule(day: Day, start: int, end: int)

  /** A course offering of the catalog. */
  datatype Course = Course(
    id: string,
    name: string,
    category: Category,
    schedules: seq<Schedule>,
    requiredCourses: seq<string>,
    year: int,
    semester: Semester,
    difficulty: Difficulty,
    credits: int)

  /** The student profile; a field the form has not filled in yet is None. */
  datatype StudentForm = StudentForm(
    skillLevels: Option<map<Category, SkillLevel>>,
    maxCourses: Option<nat>,
    workAvailability: Option<WorkAvailability>)

  /** Per-course conflict information of a combination. `overlapsWithCourses`
      is None where the engine leaves the list undefined (no overlap). */
  datatype OverlapInfo = OverlapInfo(hasTimeConflict: bool, overlapsWithCourses: Option<seq<string>>)

  /** A ranked candidate enrolment. `index` is the enumeration position the
      engine writes into the id "combination-<index>"; durations are minutes
      (the engine divides them by 60 to report hours). */
  datatype Combination = Combination(
    index: nat,
    courses: seq<Course>,
    priority: nat,
    totalMinutes: int,
    totalCredits: int,
    overlapMinutes: int,
    compatibilityScore: int,
    warnings: seq<string>,
    coursesMetadata: map<string, OverlapInfo>)

  /** The single warning a combination with a time conflict carries. */
  const ConflictWarning: string := "Conflicto horario"

  /** A meeting that ends after it starts. */
  predicate ValidSchedule(s: Schedule) {
    s.start < s.end
  }

  predicate ValidSchedules(ss: seq<Schedule>) {
    forall k :: 0 <= k < |ss| ==> ValidSchedule(ss[k])
  }

  predicate ValidCourse(c: Course) {
    ValidSchedules(c.schedules)
  }

  predicate ValidCourses(cs: seq<Course>) {
    forall i :: 0 <= i < |cs| ==> ValidCourse(cs[i])
  }

  /** No two courses of the list share an id. */
  predicate UniqueIds(cs: seq<Course>) {
    forall i, j :: 0 <= i < j < |cs| ==> cs[i].id != cs[j].id
  }

  function Min(a: int, b: int): int { if a < b then a else b }

  function Max(a: int, b: int): int { if a < b then b else a }
}
