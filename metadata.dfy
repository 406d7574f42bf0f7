/** The per-course "overlaps with" metadata of a combination. */
module Metadata {
  import opened Types
  import opened Overlap

  /** Meeting `s` overlaps some meeting of `ss` (the innermost loop finds one). */
  predicate RowHit(s: Schedule, ss: seq<Schedule>) {
    exists y :: 0 <= y < |ss| && SchedulesOverlap(s, ss[y])
  }

  /** The scan of `course`'s meetings from `x` on against `other`, exactly as
      calculateCourseCombinations runs it: the inner loop appends `other.id` at its first hit
      and stops; the outer loop stops once the list holds `other.id`. */
  function ScanMeetings(acc: seq<string>, course: Course, other: Course, x: nat): seq<string>
    requires x <= |course.schedules|
    decreases |course.schedules| - x
  {
    if x == |course.schedules| then acc
    else
      var acc' := if RowHit(course.schedules[x], other.schedules) then acc + [other.id] else acc;
      if other.id in acc' then acc' else ScanMeetings(acc', course, other, x + 1)
  }

  /** The list built for `course` after visiting the first `k` courses. */
  function ScanOthers(course: Course, courses: seq<Course>, k: nat): seq<string>
    requires k <= |courses|
  {
    if k == 0 then []
    else
      var acc := ScanOthers(course, courses, k - 1);
      var other := courses[k - 1];
      if course.id != other.id then ScanMeetings(acc, course, other, 0) else acc
  }

  /** The overlapsWithCourses list calculateCourseCombinations builds for `course`. */
  function OverlapsWith(course: Course, courses: seq<Course>): seq<string> {
    ScanOthers(course, courses, |courses|)
  }

  /** The entry coursesMetadata holds for `course`. */
  function InfoOf(course: Course, courses: seq<Course>): OverlapInfo {
    var l := OverlapsWith(course, courses);
    OverlapInfo(|l| > 0, if |l| > 0 then Some(l) else None)
  }

  /** coursesMetadata after the first `k` courses; a later course with the
      same id overwrites the entry. */
  function MetadataOf(courses: seq<Course>, k: nat): map<string, OverlapInfo>
    requires k <= |courses|
  {
    if k == 0 then map[] else MetadataOf(courses, k - 1)[courses[k - 1].id := InfoOf(courses[k - 1], courses)]
  }

  /** The metadata build: for each course, each other course with another id,
      each pair of meetings, with the engine's two `break`s. */
  method BuildMetadata(courses: seq<Course>) returns (meta: map<string, OverlapInfo>)
    ensures meta == MetadataOf(courses, |courses|)
  {
    meta := map[];
    for k := 0 to |courses|
      invariant meta == MetadataOf(courses, k)
    {
      var course := courses[k];
      var overlaps: seq<string> := [];
      for m := 0 to |courses|
        invariant overlaps == ScanOthers(course, courses, m)
      {
        var other := courses[m];
        if course.id != other.id {
          ghost var target := ScanMeetings(overlaps, course, other, 0);
          var x := 0;
          while x < |course.schedules|
            invariant x <= |course.schedules|
            invariant ScanMeetings(overlaps, course, other, x) == target
          {
            ghost var before := overlaps;
            var s1 := course.schedules[x];
            for y := 0 to |other.schedules|
              invariant overlaps == before
              invariant forall y' :: 0 <= y' < y ==> !SchedulesOverlap(s1, other.schedules[y'])
            {
              if SchedulesOverlap(s1, other.schedules[y]) {
                overlaps := overlaps + [other.id];
                break;
              }
            }
            assert overlaps == if RowHit(s1, other.schedules) then before + [other.id] else before;
            if other.id in overlaps {
              break;
            }
            x := x + 1;
          }
        }
      }
      meta := meta[course.id := OverlapInfo(|overlaps| > 0, if |overlaps| > 0 then Some(overlaps) else None)];
    }
  }

  /* ---------- reference definition ---------- */

  /** Ids, in list order, of the first `k` courses that have an id other than
      `course`'s and clash with it. */
  function OverlapIds(course: Course, courses: seq<Course>, k: nat): seq<string>
    requires k <= |courses|
  {
    if k == 0 then []
    else
      OverlapIds(course, courses, k - 1)
      + (if courses[k - 1].id != course.id && CoursesOverlap(course, courses[k - 1]) then [courses[k - 1].id] else [])
  }

  /** Some meeting of `course` from `x` on overlaps some meeting of `other`. */
  predicate HitFrom(course: Course, other: Course, x: nat) {
    exists x', y :: x <= x' < |course.schedules| && 0 <= y < |other.schedules|
                    && SchedulesOverlap(course.schedules[x'], other.schedules[y])
  }

  /** When `other.id` is not yet listed, scanning the meetings appends it
      exactly once if some pair of meetings overlaps, and otherwise nothing. */
  lemma {:induction false} ScanMeetingsAppendsOnce(acc: seq<string>, course: Course, other: Course, x: nat)
    requires x <= |course.schedules| && other.id !in acc
    ensures ScanMeetings(acc, course, other, x) == if HitFrom(course, other, x) then acc + [other.id] else acc
    decreases |course.schedules| - x
  {
    if x < |course.schedules| {
      if RowHit(course.schedules[x], other.schedules) {
        var y :| 0 <= y < |other.schedules| && SchedulesOverlap(course.schedules[x], other.schedules[y]);
        assert HitFrom(course, other, x);
      } else {
        ScanMeetingsAppendsOnce(acc, course, other, x + 1);
        if HitFrom(course, other, x) {
          var x', y :| x <= x' < |course.schedules| && 0 <= y < |other.schedules|
                       && SchedulesOverlap(course.schedules[x'], other.schedules[y]);
          assert x' != x;
          assert HitFrom(course, other, x + 1);
        }
        if HitFrom(course, other, x + 1) {
          var x', y :| x + 1 <= x' < |course.schedules| && 0 <= y < |other.schedules|
                       && SchedulesOverlap(course.schedules[x'], other.schedules[y]);
          assert HitFrom(course, other, x);
        }
      }
    }
  }

  lemma {:induction false} OverlapIdsMembers(course: Course, courses: seq<Course>, k: nat, id: string)
    requires k <= |courses|
    ensures id in OverlapIds(course, courses, k) <==>
            exists j :: 0 <= j < k && courses[j].id == id && id != course.id && CoursesOverlap(course, courses[j])
  {
    if k > 0 {
      OverlapIdsMembers(course, courses, k - 1, id);
    }
  }

  /** With distinct ids the list the engine builds is the reference list. */
  lemma {:induction false} ScanOthersIsOverlapIds(course: Course, courses: seq<Course>, k: nat)
    requires k <= |courses| && UniqueIds(courses)
    ensures ScanOthers(course, courses, k) == OverlapIds(course, courses, k)
  {
    if k > 0 {
      ScanOthersIsOverlapIds(course, courses, k - 1);
      var other := courses[k - 1];
      if course.id != other.id {
        OverlapIdsMembers(course, courses, k - 1, other.id);
        ScanMeetingsAppendsOnce(ScanOthers(course, courses, k - 1), course, other, 0);
        assert HitFrom(course, other, 0) == CoursesOverlap(course, other);
      }
    }
  }

  lemma {:induction false} OverlapIdsNoDuplicates(course: Course, courses: seq<Course>, k: nat)
    requires k <= |courses| && UniqueIds(courses)
    ensures var l := OverlapIds(course, courses, k);
            forall p, q :: 0 <= p < q < |l| ==> l[p] != l[q]
  {
    if k > 0 {
      OverlapIdsNoDuplicates(course, courses, k - 1);
      OverlapIdsMembers(course, courses, k - 1, courses[k - 1].id);
    }
  }

  /* ---------- properties of the metadata ---------- */

  /** The list for `course`: no id twice, and an id is listed exactly when it
      belongs to another course of the combination that clashes with it. */
  lemma OverlapsWithMeaning(course: Course, courses: seq<Course>)
    requires UniqueIds(courses)
    ensures var l := OverlapsWith(course, courses);
            (forall p, q :: 0 <= p < q < |l| ==> l[p] != l[q])
            && (forall j :: 0 <= j < |courses| ==>
                  (courses[j].id in l <==> courses[j].id != course.id && CoursesOverlap(course, courses[j])))
            && (forall id :: id in l ==> exists j :: 0 <= j < |courses| && courses[j].id == id)
  {
    ScanOthersIsOverlapIds(course, courses, |courses|);
    OverlapIdsNoDuplicates(course, courses, |courses|);
    forall j | 0 <= j < |courses|
      ensures courses[j].id in OverlapsWith(course, courses) <==>
              courses[j].id != course.id && CoursesOverlap(course, courses[j])
    {
      OverlapIdsMembers(course, courses, |courses|, courses[j].id);
    }
    forall id | id in OverlapsWith(course, courses)
      ensures exists j :: 0 <= j < |courses| && courses[j].id == id
    {
      OverlapIdsMembers(course, courses, |courses|, id);
    }
  }

  /** hasTimeConflict is exactly courseHasOverlap, and the list is present
      exactly when there is a conflict. */
  lemma InfoAgreesWithCourseHasOverlap(course: Course, courses: seq<Course>)
    requires UniqueIds(courses)
    ensures InfoOf(course, courses).hasTimeConflict == HasOverlapWithin(course, courses)
    ensures InfoOf(course, courses).overlapsWithCourses.Some? == InfoOf(course, courses).hasTimeConflict
  {
    var l := OverlapsWith(course, courses);
    OverlapsWithMeaning(course, courses);
    if HasOverlapWithin(course, courses) {
      var k :| 0 <= k < |courses| && courses[k].id != course.id && CoursesOverlap(course, courses[k]);
      assert courses[k].id in l;
    }
    if |l| > 0 {
      assert l[0] in l;
      var j :| 0 <= j < |courses| && courses[j].id == l[0];
      assert HasOverlapWithin(course, courses);
    }
  }

  /** The "overlaps with" relation between two courses of a combination is symmetric. */
  lemma OverlapsWithSymmetric(courses: seq<Course>, i: nat, j: nat)
    requires UniqueIds(courses) && i < |courses| && j < |courses|
    ensures courses[j].id in OverlapsWith(courses[i], courses) <==> courses[i].id in OverlapsWith(courses[j], courses)
  {
    OverlapsWithMeaning(courses[i], courses);
    OverlapsWithMeaning(courses[j], courses);
    CoursesOverlapSymmetric(courses[i], courses[j]);
  }

  /** The metadata has one key per course of the combination. */
  lemma {:induction false} MetadataKeys(courses: seq<Course>, k: nat)
    requires k <= |courses|
    ensures MetadataOf(courses, k).Keys == set j | 0 <= j < k :: courses[j].id
  {
    if k > 0 {
      MetadataKeys(courses, k - 1);
      assert (set j | 0 <= j < k :: courses[j].id) == (set j | 0 <= j < k - 1 :: courses[j].id) + {courses[k - 1].id};
    }
  }

  /** With distinct ids every course's entry is its own information. */
  lemma {:induction false} MetadataEntries(courses: seq<Course>, k: nat)
    requires k <= |courses| && UniqueIds(courses)
    ensures forall j :: 0 <= j < k ==>
              courses[j].id in MetadataOf(courses, k) && MetadataOf(courses, k)[courses[j].id] == InfoOf(courses[j], courses)
  {
    if k > 0 {
      MetadataEntries(courses, k - 1);
      var prev := MetadataOf(courses, k - 1);
      var last := courses[k - 1];
      assert MetadataOf(courses, k) == prev[last.id := InfoOf(last, courses)];
      forall j | 0 <= j < k - 1
        ensures courses[j].id != last.id
      {
      }
    }
  }
}
