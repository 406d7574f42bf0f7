/** The two filters in front of the enumeration: prerequisites and work hours. */
module Filters {
  import opened Types
  import opened Clock

  /** Order-preserving filter (Array.prototype.filter). */
  function Filter(cs: seq<Course>, keep: Course -> bool): (r: seq<Course>)
    ensures |r| <= |cs|
    ensures forall c :: c in r <==> c in cs && keep(c)
    ensures UniqueIds(cs) ==> UniqueIds(r)
  {
    if cs == [] then []
    else
      var rest := Filter(cs[1..], keep);
      TailIdsDiffer(cs);
      if keep(cs[0]) then [cs[0]] + rest else rest
  }

  /** A single course survives alone or not at all. Together with
      FilterAppend this pins Filter down as the order- and
      multiplicity-preserving filter: every element of `cs` that `keep`
      accepts, in its place in `cs`. */
  lemma FilterSingle(c: Course, keep: Course -> bool)
    ensures Filter([c], keep) == if keep(c) then [c] else []
  {
  }

  /** Filtering distributes over concatenation. */
  lemma {:induction false} FilterAppend(a: seq<Course>, b: seq<Course>, keep: Course -> bool)
    ensures Filter(a + b, keep) == Filter(a, keep) + Filter(b, keep)
  {
    if a == [] {
      assert a + b == b;
    } else {
      assert (a + b)[1..] == a[1..] + b;
      FilterAppend(a[1..], b, keep);
    }
  }

  lemma TailIdsDiffer(cs: seq<Course>)
    requires cs != []
    ensures UniqueIds(cs) ==> UniqueIds(cs[1..]) && forall c :: c in cs[1..] ==> c.id != cs[0].id
  {
    if UniqueIds(cs) {
      forall c | c in cs[1..]
        ensures c.id != cs[0].id
      {
        var m :| 0 <= m < |cs| - 1 && cs[1..][m] == c;
        assert cs[m + 1] == c;
      }
    }
  }

  /** Not approved yet, and every prerequisite approved. */
  predicate IsEligible(c: Course, approved: seq<string>) {
    c.id !in approved && forall req :: req in c.requiredCourses ==> req in approved
  }

  /** Stage 1: the courses the student may take. */
  function EligibleCourses(all: seq<Course>, approved: seq<string>): (r: seq<Course>)
    ensures forall c :: c in r <==> c in all && IsEligible(c, approved)
    ensures UniqueIds(all) ==> UniqueIds(r)
  {
    Filter(all, (c: Course) => IsEligible(c, approved))
  }

  /** A meeting falls in the hours the student works (half-open windows
      ending at 18:00 and starting at 09:00 or 14:00). */
  predicate InWorkWindow(s: Schedule, work: WorkAvailability) {
    WorkWindowBounds();
    match work
    case FullTime => s.start < TimeToMinutes("18:00") && s.end > TimeToMinutes("09:00")
    case PartTime => s.start < TimeToMinutes("18:00") && s.end > TimeToMinutes("14:00")
    case NotWorking => false
  }

  /** violatesWorkAvailability: some meeting falls in the work window. */
  predicate ViolatesWorkAvailability(schedules: seq<Schedule>, work: WorkAvailability) {
    exists k :: 0 <= k < |schedules| && InWorkWindow(schedules[k], work)
  }

  /** Stage 2: the eligible courses that fit around the student's job. */
  function WorkCompatibleCourses(cs: seq<Course>, work: WorkAvailability): (r: seq<Course>)
    ensures forall c :: c in r <==> c in cs && !ViolatesWorkAvailability(c.schedules, work)
    ensures UniqueIds(cs) ==> UniqueIds(r)
  {
    Filter(cs, (c: Course) => !ViolatesWorkAvailability(c.schedules, work))
  }

  /** Full-time: a surviving course meets only outside 09:00-18:00. */
  lemma FullTimeWindow(cs: seq<Course>, c: Course)
    ensures c in WorkCompatibleCourses(cs, FullTime) <==>
            c in cs && forall k :: 0 <= k < |c.schedules| ==> !(c.schedules[k].start < 1080 && c.schedules[k].end > 540)
  {
    WorkWindowBounds();
  }

  /** Part-time: a surviving course meets only outside 14:00-18:00. */
  lemma PartTimeWindow(cs: seq<Course>, c: Course)
    ensures c in WorkCompatibleCourses(cs, PartTime) <==>
            c in cs && forall k :: 0 <= k < |c.schedules| ==> !(c.schedules[k].start < 1080 && c.schedules[k].end > 840)
  {
    WorkWindowBounds();
  }

  /** A student who does not work loses no course. */
  lemma {:induction false} NotWorkingKeepsAll(cs: seq<Course>)
    ensures WorkCompatibleCourses(cs, NotWorking) == cs
  {
    var keep := (c: Course) => !ViolatesWorkAvailability(c.schedules, NotWorking);
    FilterKeepsAll(cs, keep);
  }

  lemma {:induction false} FilterKeepsAll(cs: seq<Course>, keep: Course -> bool)
    requires forall c :: c in cs ==> keep(c)
    ensures Filter(cs, keep) == cs
  {
    if cs != [] {
      FilterKeepsAll(cs[1..], keep);
    }
  }

  /** Every course a full-time worker can take, a part-time worker can take too. */
  lemma FullTimeStricterThanPartTime(cs: seq<Course>, c: Course)
    requires c in WorkCompatibleCourses(cs, FullTime)
    ensures c in WorkCompatibleCourses(cs, PartTime)
  {
    FullTimeWindow(cs, c);
    PartTimeWindow(cs, c);
  }
}
