/** calculateCourseCombinations: filter, enumerate, build, rank, number. */
module Engine {
  import opened Types
  import opened Overlap
  import opened Metadata
  import opened Filters
  import opened Subsets
  import opened Score
  import opened Ranking

  /* ---------- totals of one combination ---------- */

  /** Minutes of the meetings in `ss` (the inner reduce of totalHours). */
  function ScheduleMinutes(ss: seq<Schedule>): (m: int)
    ensures ValidSchedules(ss) ==> m >= |ss|
  {
    if ss == [] then 0
    else
      assert ValidSchedules(ss) ==> ValidSchedules(ss[1..]) by {
        if ValidSchedules(ss) {
          forall k | 0 <= k < |ss| - 1 ensures ValidSchedule(ss[1..][k]) {
            assert ss[1..][k] == ss[k + 1];
          }
        }
      }
      (ss[0].end - ss[0].start) + ScheduleMinutes(ss[1..])
  }

  /** Weekly minutes of all courses (totalHours, kept in minutes). */
  function TotalMinutes(cs: seq<Course>): (m: int)
    ensures ValidCourses(cs) ==> m >= 0
  {
    if cs == [] then 0
    else
      assert ValidCourses(cs) ==> ValidCourses(cs[1..]) by {
        if ValidCourses(cs) {
          forall k | 0 <= k < |cs| - 1 ensures ValidCourse(cs[1..][k]) {
            assert cs[1..][k] == cs[k + 1];
          }
        }
      }
      ScheduleMinutes(cs[0].schedules) + TotalMinutes(cs[1..])
  }

  /** Sum of the credits (the reduce of totalCredits). */
  function TotalCredits(cs: seq<Course>): (c: int)
    ensures (forall k :: 0 <= k < |cs| ==> cs[k].credits >= 0) ==> c >= 0
  {
    if cs == [] then 0
    else
      assert (forall k :: 0 <= k < |cs| ==> cs[k].credits >= 0) ==> (forall k :: 0 <= k < |cs| - 1 ==> cs[1..][k].credits >= 0) by {
        forall k | 0 <= k < |cs| - 1 ensures cs[1..][k] == cs[k + 1] { }
      }
      cs[0].credits + TotalCredits(cs[1..])
  }

  lemma {:induction false} TotalMinutesAppend(a: seq<Course>, b: seq<Course>)
    ensures TotalMinutes(a + b) == TotalMinutes(a) + TotalMinutes(b)
  {
    if a != [] {
      assert (a + b)[1..] == a[1..] + b;
      TotalMinutesAppend(a[1..], b);
    } else {
      assert a + b == b;
    }
  }

  lemma {:induction false} TotalCreditsAppend(a: seq<Course>, b: seq<Course>)
    ensures TotalCredits(a + b) == TotalCredits(a) + TotalCredits(b)
  {
    if a != [] {
      assert (a + b)[1..] == a[1..] + b;
      TotalCreditsAppend(a[1..], b);
    } else {
      assert a + b == b;
    }
  }

  /* ---------- one combination ---------- */

  /** The record built for the combination `courses` found at position
      `index` of the enumeration; its priority is still 0. */
  function CombinationOf(courses: seq<Course>, index: nat, skills: map<Category, SkillLevel>): Combination {
    Combination(
      index, courses, 0, TotalMinutes(courses), TotalCredits(courses), OverlapTotal(courses),
      CompatibilityScore(courses, skills),
      if AnyOverlap(courses) then [ConflictWarning] else [],
      MetadataOf(courses, |courses|))
  }

  /** The body of the `map` callback. */
  method BuildCombination(courses: seq<Course>, index: nat, skills: map<Category, SkillLevel>) returns (c: Combination)
    ensures c == CombinationOf(courses, index, skills)
  {
    var hasConflict := HasAnyOverlap(courses);
    var overlap := CalculateOverlapMinutes(courses);
    var score := CalculateCompatibilityScore(courses, skills);
    var meta := BuildMetadata(courses);
    c := Combination(
      index, courses, 0, TotalMinutes(courses), TotalCredits(courses), overlap, score,
      if hasConflict then [ConflictWarning] else [], meta);
  }

  /** What every built combination promises. */
  lemma CombinationOfFacts(courses: seq<Course>, index: nat, skills: map<Category, SkillLevel>)
    ensures var c := CombinationOf(courses, index, skills);
            0 <= c.compatibilityScore <= ScoreCap
            && (c.warnings == [ConflictWarning] <==> AnyOverlap(courses))
            && (c.warnings == [] <==> !AnyOverlap(courses))
            && (ValidCourses(courses) ==>
                  c.overlapMinutes >= 0 && c.totalMinutes >= 0 && (c.overlapMinutes > 0 <==> AnyOverlap(courses)))
            && c.coursesMetadata.Keys == set j | 0 <= j < |courses| :: courses[j].id
  {
    MetadataKeys(courses, |courses|);
    if ValidCourses(courses) {
      OverlapTotalPositiveIffClash(courses);
    }
  }

  /** With distinct ids every course's metadata entry tells whether it
      clashes, and lists exactly the ids of the courses it clashes with. */
  lemma CombinationMetadataFacts(courses: seq<Course>, index: nat, skills: map<Category, SkillLevel>, j: nat)
    requires UniqueIds(courses) && j < |courses|
    ensures var meta := CombinationOf(courses, index, skills).coursesMetadata;
            var course := courses[j];
            course.id in meta
            && meta[course.id].hasTimeConflict == HasOverlapWithin(course, courses)
            && meta[course.id].overlapsWithCourses.Some? == meta[course.id].hasTimeConflict
            && (forall m :: 0 <= m < |courses| ==>
                  (meta[course.id].hasTimeConflict && courses[m].id in meta[course.id].overlapsWithCourses.value
                   <==> courses[m].id != course.id && CoursesOverlap(course, courses[m])))
  {
    MetadataEntries(courses, |courses|);
    InfoAgreesWithCourseHasOverlap(courses[j], courses);
    OverlapsWithMeaning(courses[j], courses);
  }

  /* ---------- the pipeline ---------- */

  /** The form fields the engine needs are all present and maxCourses is not 0. */
  predicate Enabled(form: StudentForm) {
    form.workAvailability.Some? && form.skillLevels.Some? && form.maxCourses.Some? && form.maxCourses.value > 0
  }

  /** Stages 1 and 2: eligible, then compatible with the student's job. */
  function Candidates(form: StudentForm, approved: seq<string>, all: seq<Course>): seq<Course>
    requires Enabled(form)
  {
    WorkCompatibleCourses(EligibleCourses(all, approved), form.workAvailability.value)
  }

  /** Stage 3: every non-empty subset of at most maxCourses candidates. */
  function RawCombinations(form: StudentForm, approved: seq<string>, all: seq<Course>): seq<seq<Course>>
    requires Enabled(form)
  {
    Combinations(Candidates(form, approved, all), form.maxCourses.value)
  }

  /** Stage 4: the records, in enumeration order, before ranking. */
  function Unranked(form: StudentForm, approved: seq<string>, all: seq<Course>): (r: seq<Combination>)
    requires Enabled(form)
    ensures |r| == |RawCombinations(form, approved, all)|
    ensures forall k :: 0 <= k < |r| ==> r[k].index == k && r[k].priority == 0
  {
    var raw := RawCombinations(form, approved, all);
    seq(|raw|, k requires 0 <= k < |raw| => CombinationOf(raw[k], k, form.skillLevels.value))
  }

  /** The records with their priority reset. */
  function Unnumbered(s: seq<Combination>): (r: seq<Combination>)
    ensures |r| == |s| && forall k :: 0 <= k < |s| ==> r[k] == s[k].(priority := 0)
  {
    seq(|s|, k requires 0 <= k < |s| => s[k].(priority := 0))
  }

  /** The entry point. Without work availability, skill levels or a
      (non-zero) maxCourses it returns no combination. Otherwise the result
      is the built records, reordered so that each goes before the next by
      the comparator (ties in enumeration order), numbered 1, 2, ... */
  method CalculateCourseCombinations(form: StudentForm, approved: seq<string>, all: seq<Course>)
    returns (result: seq<Combination>)
    ensures !Enabled(form) ==> result == []
    ensures Enabled(form) ==>
              multiset(Unnumbered(result)) == multiset(Unranked(form, approved, all))
    ensures Enabled(form) ==>
              |result| == SumBinom(|Candidates(form, approved, all)|, form.maxCourses.value)
    ensures forall k :: 0 <= k < |result| ==> result[k].priority == k + 1
    ensures forall p, q :: 0 <= p < q < |result| ==> InOrder(result[p], result[q])
  {
    if form.workAvailability.None? || form.maxCourses.None? || form.skillLevels.None?
       || form.maxCourses.value == 0 {
      return [];
    }
    var work := form.workAvailability.value;
    var maxCourses := form.maxCourses.value;
    var skills := form.skillLevels.value;

    var eligible := EligibleCourses(all, approved);
    var compatible := WorkCompatibleCourses(eligible, work);
    var raw := GenerateCombinations(compatible, maxCourses, 0, [], []);
    assert raw == RawCombinations(form, approved, all);

    var built := BuildAll(raw, skills);
    assert built == Unranked(form, approved, all);

    result := Rank(built);
    CombinationsCount(compatible, maxCourses);
  }

  /** The `map` over the enumeration. */
  method BuildAll(raw: seq<seq<Course>>, skills: map<Category, SkillLevel>) returns (built: seq<Combination>)
    ensures |built| == |raw|
    ensures forall k :: 0 <= k < |raw| ==> built[k] == CombinationOf(raw[k], k, skills)
  {
    built := [];
    for i := 0 to |raw|
      invariant |built| == i
      invariant forall k :: 0 <= k < i ==> built[k] == CombinationOf(raw[k], k, skills)
    {
      var c := BuildCombination(raw[i], i, skills);
      built := built + [c];
    }
  }

  /** Stages 5 and 6 on records numbered 0, 1, ... in enumeration order:
      sort them in place, then number them by position. */
  method Rank(built: seq<Combination>) returns (result: seq<Combination>)
    requires forall k :: 0 <= k < |built| ==> built[k].index == k && built[k].priority == 0
    ensures |result| == |built|
    ensures multiset(Unnumbered(result)) == multiset(built)
    ensures forall k :: 0 <= k < |result| ==> result[k].priority == k + 1
    ensures forall p, q :: 0 <= p < q < |result| ==> InOrder(result[p], result[q])
  {
    var arr := new Combination[|built|](k requires 0 <= k < |built| => built[k]);
    assert arr[..] == built;
    SortCombinations(arr);
    ghost var sorted := arr[..];
    AssignPriorities(arr);
    result := arr[..];
    Renumbered(built, sorted, result);
  }

  /** Numbering a sorted permutation of records whose priority is 0 keeps the
      order and, once the numbers are reset, the records. */
  lemma Renumbered(built: seq<Combination>, sorted: seq<Combination>, result: seq<Combination>)
    requires forall k :: 0 <= k < |built| ==> built[k].priority == 0
    requires multiset(sorted) == multiset(built)
    requires forall p, q :: 0 <= p < q < |sorted| ==> InOrder(sorted[p], sorted[q])
    requires |result| == |sorted| && forall k :: 0 <= k < |sorted| ==> result[k] == sorted[k].(priority := k + 1)
    ensures multiset(Unnumbered(result)) == multiset(built)
    ensures forall p, q :: 0 <= p < q < |result| ==> InOrder(result[p], result[q])
  {
    forall k | 0 <= k < |sorted|
      ensures sorted[k].priority == 0
    {
      assert sorted[k] in multiset(built);
    }
    assert Unnumbered(result) == sorted;
    forall p, q | 0 <= p < q < |result|
      ensures InOrder(result[p], result[q])
    {
      assert InOrder(sorted[p], sorted[q]);
    }
  }

  /* ---------- what each candidate combination is made of ---------- */

  lemma PickUnique(items: seq<Course>, ix: seq<nat>)
    requires IndexPath(ix, 0, |items|) && UniqueIds(items)
    ensures UniqueIds(Pick(items, ix))
  {
  }

  /** Every enumerated combination has between 1 and maxCourses courses, each
      of them an eligible, work-compatible course of the catalog; with
      distinct catalog ids no course appears twice in it. */
  lemma RawCombinationFacts(form: StudentForm, approved: seq<string>, all: seq<Course>, e: seq<Course>)
    requires Enabled(form) && e in RawCombinations(form, approved, all)
    ensures 1 <= |e| <= form.maxCourses.value
    ensures forall c :: c in e ==>
              c in all && IsEligible(c, approved)
              && !ViolatesWorkAvailability(c.schedules, form.workAvailability.value)
    ensures ValidCourses(all) ==> ValidCourses(e)
    ensures UniqueIds(all) ==> UniqueIds(e)
  {
    var cand := Candidates(form, approved, all);
    var ix := CombinationShape(cand, form.maxCourses.value, e);
    forall c | c in e
      ensures c in cand
    {
      var p :| 0 <= p < |e| && e[p] == c;
      assert e[p] == cand[ix[p]];
    }
    if ValidCourses(all) {
      forall p | 0 <= p < |e|
        ensures ValidCourse(e[p])
      {
        assert e[p] in e;
        var m :| 0 <= m < |all| && all[m] == e[p];
      }
    }
    if UniqueIds(all) {
      PickUnique(cand, ix);
    }
  }

  /** Every record of the result is one of the built records, renumbered. */
  lemma ResultEntries(form: StudentForm, approved: seq<string>, all: seq<Course>, result: seq<Combination>, k: nat)
    requires Enabled(form) && k < |result|
    requires multiset(Unnumbered(result)) == multiset(Unranked(form, approved, all))
    ensures var raw := RawCombinations(form, approved, all);
            result[k].index < |raw|
            && result[k].(priority := 0) == CombinationOf(raw[result[k].index], result[k].index, form.skillLevels.value)
  {
    var u := Unranked(form, approved, all);
    assert Unnumbered(result)[k] in multiset(u);
    var m :| 0 <= m < |u| && u[m] == Unnumbered(result)[k];
  }

  /** Every combination of the result: a non-empty set of at most maxCourses
      eligible, work-compatible catalog courses, with its score in range, the
      conflict warning exactly when two of its courses clash, and (for
      well-formed meetings) overlap minutes positive exactly then too. */
  lemma ResultFacts(form: StudentForm, approved: seq<string>, all: seq<Course>, result: seq<Combination>, k: nat)
    requires Enabled(form) && k < |result|
    requires multiset(Unnumbered(result)) == multiset(Unranked(form, approved, all))
    ensures var c := result[k];
            1 <= |c.courses| <= form.maxCourses.value
            && (forall x :: x in c.courses ==>
                  x in all && IsEligible(x, approved)
                  && !ViolatesWorkAvailability(x.schedules, form.workAvailability.value))
            && 0 <= c.compatibilityScore <= ScoreCap
            && c.compatibilityScore == CompatibilityScore(c.courses, form.skillLevels.value)
            && (c.warnings == [ConflictWarning] <==> AnyOverlap(c.courses))
            && (c.warnings == [] <==> !AnyOverlap(c.courses))
            && (ValidCourses(all) ==>
                  c.overlapMinutes >= 0 && (c.overlapMinutes > 0 <==> AnyOverlap(c.courses)))
            && (UniqueIds(all) ==> UniqueIds(c.courses))
  {
    ResultEntries(form, approved, all, result, k);
    var raw := RawCombinations(form, approved, all);
    var i := result[k].index;
    assert raw[i] in raw;
    RawCombinationFacts(form, approved, all, raw[i]);
    CombinationOfFacts(raw[i], i, form.skillLevels.value);
  }
}
