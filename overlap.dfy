/** Pairwise time-conflict analysis of a combination: which meetings
    overlap, whether any two courses clash, and how many minutes overlap. */
module Overlap {
  import opened Types

  /* ---------- meetings ---------- */

  /** schedulesOverlap: same day and the half-open intervals intersect. */
  predicate SchedulesOverlap(a: Schedule, b: Schedule) {
    if a.day != b.day then false else a.start < b.end && b.start < a.end
  }

  lemma SchedulesOverlapSymmetric(a: Schedule, b: Schedule)
    ensures SchedulesOverlap(a, b) == SchedulesOverlap(b, a)
  {
  }

  lemma NoOverlapOnDifferentDays(a: Schedule, b: Schedule)
    requires a.day != b.day
    ensures !SchedulesOverlap(a, b)
  {
  }

  /** Meetings that only touch (one ends when the other starts) do not overlap. */
  lemma TouchingMeetingsDoNotOverlap(a: Schedule, b: Schedule)
    requires a.end == b.start
    ensures !SchedulesOverlap(a, b) && !SchedulesOverlap(b, a)
  {
  }

  /** Meeting `s` is in progress during minute `t`. */
  predicate Covers(s: Schedule, t: int) {
    s.start <= t < s.end
  }

  /** Two well-formed meetings overlap exactly when some minute lies in both. */
  lemma OverlapMeansSharedMinute(a: Schedule, b: Schedule)
    requires ValidSchedule(a) && ValidSchedule(b)
    ensures SchedulesOverlap(a, b) <==> a.day == b.day && exists t :: Covers(a, t) && Covers(b, t)
  {
    if SchedulesOverlap(a, b) {
      var t := Max(a.start, b.start);
      assert Covers(a, t) && Covers(b, t);
    }
  }

  /* ---------- courses ---------- */

  /** Some meeting of `a` overlaps some meeting of `b`. */
  predicate CoursesOverlap(a: Course, b: Course) {
    exists x, y :: 0 <= x < |a.schedules| && 0 <= y < |b.schedules|
                   && SchedulesOverlap(a.schedules[x], b.schedules[y])
  }

  lemma CoursesOverlapSymmetric(a: Course, b: Course)
    ensures CoursesOverlap(a, b) == CoursesOverlap(b, a)
  {
    if CoursesOverlap(a, b) {
      var x, y :| 0 <= x < |a.schedules| && 0 <= y < |b.schedules|
                  && SchedulesOverlap(a.schedules[x], b.schedules[y]);
      assert SchedulesOverlap(b.schedules[y], a.schedules[x]);
    }
    if CoursesOverlap(b, a) {
      var y, x :| 0 <= y < |b.schedules| && 0 <= x < |a.schedules|
                  && SchedulesOverlap(b.schedules[y], a.schedules[x]);
      assert SchedulesOverlap(a.schedules[x], b.schedules[y]);
    }
  }

  /** Two courses at different positions of the list clash (hasAnyOverlap). */
  predicate AnyOverlap(cs: seq<Course>) {
    exists i, j :: 0 <= i < j < |cs| && CoursesOverlap(cs[i], cs[j])
  }

  /** `course` clashes with a course of `others` carrying a different id
      (courseHasOverlap). */
  predicate HasOverlapWithin(course: Course, others: seq<Course>) {
    exists k :: 0 <= k < |others| && others[k].id != course.id && CoursesOverlap(course, others[k])
  }

  /** The two inner loops shared by hasAnyOverlap and courseHasOverlap. */
  method MeetingsOverlap(a: Course, b: Course) returns (r: bool)
    ensures r == CoursesOverlap(a, b)
  {
    for x := 0 to |a.schedules|
      invariant forall x', y :: 0 <= x' < x && 0 <= y < |b.schedules|
                  ==> !SchedulesOverlap(a.schedules[x'], b.schedules[y])
    {
      for y := 0 to |b.schedules|
        invariant forall y' :: 0 <= y' < y ==> !SchedulesOverlap(a.schedules[x], b.schedules[y'])
      {
        if SchedulesOverlap(a.schedules[x], b.schedules[y]) {
          return true;
        }
      }
    }
    return false;
  }

  /** hasAnyOverlap: every pair i < j, returning at the first clash. */
  method HasAnyOverlap(courses: seq<Course>) returns (r: bool)
    ensures r == AnyOverlap(courses)
  {
    for i := 0 to |courses|
      invariant forall i', j :: 0 <= i' < i && i' < j < |courses| ==> !CoursesOverlap(courses[i'], courses[j])
    {
      for j := i + 1 to |courses|
        invariant forall j' :: i < j' < j ==> !CoursesOverlap(courses[i], courses[j'])
      {
        var clash := MeetingsOverlap(courses[i], courses[j]);
        if clash {
          return true;
        }
      }
    }
    return false;
  }

  /** courseHasOverlap: skips courses with the same id as `course`. */
  method CourseHasOverlap(course: Course, others: seq<Course>) returns (r: bool)
    ensures r == HasOverlapWithin(course, others)
  {
    for k := 0 to |others|
      invariant forall k' :: 0 <= k' < k && others[k'].id != course.id ==> !CoursesOverlap(course, others[k'])
    {
      if course.id == others[k].id {
        continue;
      }
      var clash := MeetingsOverlap(course, others[k]);
      if clash {
        return true;
      }
    }
    return false;
  }

  /** With distinct ids, the list has a clash exactly when one of its courses
      clashes with another of its courses. */
  lemma AnyOverlapIffSomeCourseOverlaps(cs: seq<Course>)
    requires UniqueIds(cs)
    ensures AnyOverlap(cs) <==> exists k :: 0 <= k < |cs| && HasOverlapWithin(cs[k], cs)
  {
    if AnyOverlap(cs) {
      var i, j :| 0 <= i < j < |cs| && CoursesOverlap(cs[i], cs[j]);
      assert HasOverlapWithin(cs[i], cs);
    }
    if exists k :: 0 <= k < |cs| && HasOverlapWithin(cs[k], cs) {
      var k :| 0 <= k < |cs| && HasOverlapWithin(cs[k], cs);
      CourseClashIsClash(cs, k);
    }
  }

  /** A course clashing with another course of the list is a clash of the list. */
  lemma CourseClashIsClash(cs: seq<Course>, k: int)
    requires 0 <= k < |cs| && HasOverlapWithin(cs[k], cs)
    ensures AnyOverlap(cs)
  {
    var m :| 0 <= m < |cs| && cs[m].id != cs[k].id && CoursesOverlap(cs[k], cs[m]);
    if k < m {
      assert CoursesOverlap(cs[k], cs[m]);
    } else {
      CoursesOverlapSymmetric(cs[k], cs[m]);
      assert CoursesOverlap(cs[m], cs[k]);
    }
  }

  /* ---------- overlapped minutes ---------- */

  /** Minutes two meetings share. */
  function OverlapAmount(a: Schedule, b: Schedule): (m: int)
    ensures ValidSchedule(a) && ValidSchedule(b) ==> m >= 0
  {
    if SchedulesOverlap(a, b) then Min(a.end, b.end) - Max(a.start, b.start) else 0
  }

  lemma OverlapAmountPositive(a: Schedule, b: Schedule)
    requires ValidSchedule(a) && ValidSchedule(b)
    ensures OverlapAmount(a, b) > 0 <==> SchedulesOverlap(a, b)
  {
  }

  /** Minutes meeting `s` shares with the first `k` meetings of `ss`. */
  function SlotSum(s: Schedule, ss: seq<Schedule>, k: nat): (m: int)
    requires k <= |ss|
    ensures ValidSchedule(s) && ValidSchedules(ss) ==> m >= 0
  {
    if k == 0 then 0 else SlotSum(s, ss, k - 1) + OverlapAmount(s, ss[k - 1])
  }

  /** Minutes the first `k` meetings of `a` share with the meetings of `b`. */
  function PairSum(a: seq<Schedule>, b: seq<Schedule>, k: nat): (m: int)
    requires k <= |a|
    ensures ValidSchedules(a) && ValidSchedules(b) ==> m >= 0
  {
    if k == 0 then 0 else PairSum(a, b, k - 1) + SlotSum(a[k - 1], b, |b|)
  }

  function PairMinutes(a: Course, b: Course): (m: int)
    ensures ValidCourse(a) && ValidCourse(b) ==> m >= 0
  {
    PairSum(a.schedules, b.schedules, |a.schedules|)
  }

  /** Minutes course i shares with courses i+1 .. j-1. */
  function RowSum(cs: seq<Course>, i: nat, j: nat): (m: int)
    requires i < j <= |cs|
    ensures ValidCourses(cs) ==> m >= 0
  {
    if j == i + 1 then 0 else RowSum(cs, i, j - 1) + PairMinutes(cs[i], cs[j - 1])
  }

  /** Minutes courses 0 .. i-1 share with the courses after them. */
  function TriSum(cs: seq<Course>, i: nat): (m: int)
    requires i <= |cs|
    ensures ValidCourses(cs) ==> m >= 0
  {
    if i == 0 then 0 else TriSum(cs, i - 1) + RowSum(cs, i - 1, |cs|)
  }

  /** What calculateOverlapHours adds up (in minutes): the shared minutes of
      every pair of meetings of every pair of courses. */
  function OverlapTotal(cs: seq<Course>): (m: int)
    ensures ValidCourses(cs) ==> m >= 0
  {
    TriSum(cs, |cs|)
  }

  /** calculateOverlapHours, in minutes: four nested loops accumulating. */
  method CalculateOverlapMinutes(courses: seq<Course>) returns (total: int)
    ensures total == OverlapTotal(courses)
  {
    total := 0;
    for i := 0 to |courses|
      invariant total == TriSum(courses, i)
    {
      for j := i + 1 to |courses|
        invariant total == TriSum(courses, i) + RowSum(courses, i, j)
      {
        var a, b := courses[i].schedules, courses[j].schedules;
        for x := 0 to |a|
          invariant total == TriSum(courses, i) + RowSum(courses, i, j) + PairSum(a, b, x)
        {
          for y := 0 to |b|
            invariant total == TriSum(courses, i) + RowSum(courses, i, j) + PairSum(a, b, x) + SlotSum(a[x], b, y)
          {
            if SchedulesOverlap(a[x], b[y]) {
              var overlapStart := Max(a[x].start, b[y].start);
              var overlapEnd := Min(a[x].end, b[y].end);
              total := total + (overlapEnd - overlapStart);
            }
          }
        }
      }
    }
  }

  /* ---------- the overlapped minutes are positive exactly on a clash ---------- */

  lemma {:induction false} SlotSumPositive(s: Schedule, ss: seq<Schedule>, k: nat)
    requires k <= |ss| && ValidSchedule(s)
    requires ValidSchedules(ss)
    ensures SlotSum(s, ss, k) > 0 <==> exists y :: 0 <= y < k && SchedulesOverlap(s, ss[y])
  {
    if k > 0 {
      SlotSumPositive(s, ss, k - 1);
      OverlapAmountPositive(s, ss[k - 1]);
    }
  }

  lemma {:induction false} PairSumPositive(a: seq<Schedule>, b: seq<Schedule>, k: nat)
    requires k <= |a|
    requires ValidSchedules(a) && ValidSchedules(b)
    ensures PairSum(a, b, k) > 0 <==>
            exists x, y :: 0 <= x < k && 0 <= y < |b| && SchedulesOverlap(a[x], b[y])
  {
    if k > 0 {
      PairSumPositive(a, b, k - 1);
      SlotSumPositive(a[k - 1], b, |b|);
      if SlotSum(a[k - 1], b, |b|) > 0 {
        var y :| 0 <= y < |b| && SchedulesOverlap(a[k - 1], b[y]);
        assert 0 <= k - 1 < k;
      }
    }
  }

  lemma PairMinutesPositive(a: Course, b: Course)
    requires ValidCourse(a) && ValidCourse(b)
    ensures PairMinutes(a, b) > 0 <==> CoursesOverlap(a, b)
  {
    PairSumPositive(a.schedules, b.schedules, |a.schedules|);
  }

  lemma {:induction false} RowSumPositive(cs: seq<Course>, i: nat, j: nat)
    requires i < j <= |cs| && ValidCourses(cs)
    ensures RowSum(cs, i, j) > 0 <==> exists j' :: i < j' < j && CoursesOverlap(cs[i], cs[j'])
  {
    if j > i + 1 {
      RowSumPositive(cs, i, j - 1);
      PairMinutesPositive(cs[i], cs[j - 1]);
    }
  }

  lemma {:induction false} TriSumPositive(cs: seq<Course>, i: nat)
    requires i <= |cs| && ValidCourses(cs)
    ensures TriSum(cs, i) > 0 <==>
            exists i', j :: 0 <= i' < i && i' < j < |cs| && CoursesOverlap(cs[i'], cs[j])
  {
    if i > 0 {
      TriSumPositive(cs, i - 1);
      RowSumPositive(cs, i - 1, |cs|);
      if RowSum(cs, i - 1, |cs|) > 0 {
        var j :| i - 1 < j < |cs| && CoursesOverlap(cs[i - 1], cs[j]);
        assert 0 <= i - 1 < i;
      }
    }
  }

  /** For well-formed meetings the overlapped time is positive exactly when
      the combination has a clash. */
  lemma OverlapTotalPositiveIffClash(cs: seq<Course>)
    requires ValidCourses(cs)
    ensures OverlapTotal(cs) > 0 <==> AnyOverlap(cs)
  {
    TriSumPositive(cs, |cs|);
  }
}
