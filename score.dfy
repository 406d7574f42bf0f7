/** calculateCompatibilityScore: an additive heuristic clamped at 200. */
module Score {
  import opened Types
  import opened Overlap

  /** Cap applied by Math.min at the end of the computation. */
  const ScoreCap: int := 200

  /** How many of the first `k` courses clash with no other course. */
  function FreeCount(cs: seq<Course>, k: nat): (r: nat)
    requires k <= |cs|
    ensures r <= k
  {
    if k == 0 then 0 else FreeCount(cs, k - 1) + (if HasOverlapWithin(cs[k - 1], cs) then 0 else 1)
  }

  /** skillLevels[category], undefined when the form has no entry. */
  function CategoryLevel(cat: Category, skills: map<Category, SkillLevel>): Option<SkillLevel> {
    if cat in skills then Some(skills[cat]) else None
  }

  /** skillLevels[course.category]. */
  function LevelOf(c: Course, skills: map<Category, SkillLevel>): Option<SkillLevel> {
    CategoryLevel(c.category, skills)
  }

  /** What one course adds: +10 when easy, plus the block for the student's
      level in its category. The best case is an advanced student facing a
      hard course. */
  function CourseBonus(c: Course, skills: map<Category, SkillLevel>): (b: nat)
    ensures b <= 40
    ensures b == 40 <==> LevelOf(c, skills) == Some(Advanced) && c.difficulty == Hard
  {
    (if c.difficulty == Easy then 10 else 0)
    + match LevelOf(c, skills)
      case Some(Beginner) => 5 + (if c.difficulty == Easy then 15 else 0)
      case Some(Intermediate) =>
        12 + (if c.difficulty == Medium then 15 else 0) + (if c.difficulty == Easy then 8 else 0)
      case Some(Advanced) =>
        20 + (if c.difficulty == Hard then 20 else 0) + (if c.difficulty == Medium then 12 else 0)
        + (if c.difficulty == Easy then 5 else 0)
      case None => 0
  }

  /** Sum of the bonuses of the first `k` courses. */
  function BonusSum(cs: seq<Course>, skills: map<Category, SkillLevel>, k: nat): (r: nat)
    requires k <= |cs|
    ensures r <= 40 * k
  {
    if k == 0 then 0 else BonusSum(cs, skills, k - 1) + CourseBonus(cs[k - 1], skills)
  }

  /** The set of years has exactly one element. */
  predicate SameYear(cs: seq<Course>) {
    |set c | c in cs :: c.year| == 1
  }

  predicate SameSemester(cs: seq<Course>) {
    |set c | c in cs :: c.semester| == 1
  }

  /** +20 when all courses share the year, +10 when all share the term. */
  function StructureBonus(cs: seq<Course>): nat {
    (if SameYear(cs) then 20 else 0) + (if SameSemester(cs) then 10 else 0)
  }

  /** How many of the first `k` courses belong to `cat`. */
  function CategoryCount(cs: seq<Course>, cat: Category, k: nat): (r: nat)
    requires k <= |cs|
    ensures r <= k
  {
    if k == 0 then 0 else CategoryCount(cs, cat, k - 1) + (if cs[k - 1].category == cat then 1 else 0)
  }

  /** Extra points for several courses of one category: +10 per course after
      the first where the student is advanced, +5 where intermediate. */
  function ConcentrationBonus(level: Option<SkillLevel>, count: nat): nat {
    if level == Some(Advanced) && count >= 2 then (count - 1) * 10
    else if level == Some(Intermediate) && count >= 2 then (count - 1) * 5
    else 0
  }

  const AllCategories: seq<Category> := [Programming, Management, Mathematics, Architecture, Systems, Elective]

  /** Concentration bonus of the first `t` categories. */
  function ConcentrationSum(cs: seq<Course>, skills: map<Category, SkillLevel>, t: nat): nat
    requires t <= |AllCategories|
  {
    if t == 0 then 0
    else
      var cat := AllCategories[t - 1];
      ConcentrationSum(cs, skills, t - 1) + ConcentrationBonus(CategoryLevel(cat, skills), CategoryCount(cs, cat, |cs|))
  }

  /** The score before the cap. */
  function RawScore(cs: seq<Course>, skills: map<Category, SkillLevel>): nat {
    20 * FreeCount(cs, |cs|) + BonusSum(cs, skills, |cs|) + StructureBonus(cs)
    + ConcentrationSum(cs, skills, |AllCategories|)
  }

  /** The compatibility score: the raw score, but never above the cap. */
  function CompatibilityScore(cs: seq<Course>, skills: map<Category, SkillLevel>): (r: int)
    ensures 0 <= r <= ScoreCap
    ensures RawScore(cs, skills) <= ScoreCap ==> r == RawScore(cs, skills)
    ensures RawScore(cs, skills) > ScoreCap ==> r == ScoreCap
  {
    Min(RawScore(cs, skills), ScoreCap)
  }

  /** calculateCompatibilityScore as written: a running `score` and a `categoryCounts`
      dictionary updated in loops. The final loop visits the categories in a
      fixed order; a category absent from the dictionary adds nothing. */
  method CalculateCompatibilityScore(courses: seq<Course>, skills: map<Category, SkillLevel>) returns (score: int)
    ensures score == CompatibilityScore(courses, skills)
  {
    score := 0;
    var free := CountFreeCourses(courses);
    score := score + free * 20;

    for k := 0 to |courses|
      invariant score == 20 * FreeCount(courses, |courses|) + BonusSum(courses, skills, k)
    {
      score := AddCourseBonus(score, courses[k], skills);
    }

    var sameYear := |set c | c in courses :: c.year| == 1;
    var sameSemester := |set c | c in courses :: c.semester| == 1;
    if sameYear { score := score + 20; }
    if sameSemester { score := score + 10; }
    ghost var base := score;
    assert base == 20 * FreeCount(courses, |courses|) + BonusSum(courses, skills, |courses|) + StructureBonus(courses);

    var counts := CountCategories(courses);

    for t := 0 to |AllCategories|
      invariant score == base + ConcentrationSum(courses, skills, t)
    {
      var cat := AllCategories[t];
      var count := if cat in counts then counts[cat] else 0;
      assert count == CategoryCount(courses, cat, |courses|);
      var level := CategoryLevel(cat, skills);
      if level == Some(Advanced) && count >= 2 {
        score := score + (count - 1) * 10;
      } else if level == Some(Intermediate) && count >= 2 {
        score := score + (count - 1) * 5;
      }
    }
    score := Min(score, ScoreCap);
  }

  /** One iteration of the per-course loop: the increments `score` receives
      for `course`. */
  method AddCourseBonus(before: int, course: Course, skills: map<Category, SkillLevel>) returns (score: int)
    ensures score == before + CourseBonus(course, skills)
  {
    score := before;
    if course.difficulty == Easy { score := score + 10; }
    var level := LevelOf(course, skills);
    if level == Some(Beginner) {
      score := score + 5;
      if course.difficulty == Easy { score := score + 15; }
    } else if level == Some(Intermediate) {
      score := score + 12;
      if course.difficulty == Medium { score := score + 15; }
      if course.difficulty == Easy { score := score + 8; }
    } else if level == Some(Advanced) {
      score := score + 20;
      if course.difficulty == Hard { score := score + 20; }
      if course.difficulty == Medium { score := score + 12; }
      if course.difficulty == Easy { score := score + 5; }
    }
  }

  /** courses.filter((c) => !courseHasOverlap(c, courses)).length */
  method CountFreeCourses(courses: seq<Course>) returns (free: nat)
    ensures free == FreeCount(courses, |courses|)
  {
    free := 0;
    for k := 0 to |courses|
      invariant free == FreeCount(courses, k)
    {
      var clash := CourseHasOverlap(courses[k], courses);
      if !clash {
        free := free + 1;
      }
    }
  }

  /** The `categoryCounts` dictionary: a category with no course has no entry. */
  method CountCategories(courses: seq<Course>) returns (counts: map<Category, nat>)
    ensures forall cat :: cat in counts <==> CategoryCount(courses, cat, |courses|) > 0
    ensures forall cat :: cat in counts ==> counts[cat] == CategoryCount(courses, cat, |courses|)
  {
    counts := map[];
    for k := 0 to |courses|
      invariant forall cat :: cat in counts <==> CategoryCount(courses, cat, k) > 0
      invariant forall cat :: cat in counts ==> counts[cat] == CategoryCount(courses, cat, k)
    {
      var cat := courses[k].category;
      counts := counts[cat := (if cat in counts then counts[cat] else 0) + 1];
    }
  }

  /* ---------- properties ---------- */

  /** Positions, among the first `k`, of the courses that clash with no other. */
  function FreePositions(cs: seq<Course>, k: nat): (r: set<int>)
    requires k <= |cs|
    ensures forall i :: i in r ==> 0 <= i < k
  {
    if k == 0 then {}
    else FreePositions(cs, k - 1) + (if HasOverlapWithin(cs[k - 1], cs) then {} else {k - 1})
  }

  lemma {:induction false} FreePositionsMeaning(cs: seq<Course>, k: nat, i: int)
    requires k <= |cs| && 0 <= i < |cs|
    ensures i in FreePositions(cs, k) <==> i < k && !HasOverlapWithin(cs[i], cs)
  {
    if k > 0 {
      FreePositionsMeaning(cs, k - 1, i);
    }
  }

  /** The first term counts exactly the courses that clash with no other. */
  lemma {:induction false} FreeCountIsCardinality(cs: seq<Course>, k: nat)
    requires k <= |cs|
    ensures FreeCount(cs, k) == |FreePositions(cs, k)|
  {
    if k > 0 {
      FreeCountIsCardinality(cs, k - 1);
      assert k - 1 !in FreePositions(cs, k - 1);
    }
  }

  /** A combination without any clash gets +20 for every course. */
  lemma {:induction false} NoClashAllFree(cs: seq<Course>, k: nat)
    requires k <= |cs| && !AnyOverlap(cs)
    ensures FreeCount(cs, k) == k
  {
    if k > 0 {
      NoClashAllFree(cs, k - 1);
      if HasOverlapWithin(cs[k - 1], cs) {
        var m :| 0 <= m < |cs| && cs[m].id != cs[k - 1].id && CoursesOverlap(cs[k - 1], cs[m]);
        CoursesOverlapSymmetric(cs[k - 1], cs[m]);
        assert false;
      }
    }
  }

  /** How many of the first `k` courses clash with another. */
  function ClashCount(cs: seq<Course>, k: nat): nat
    requires k <= |cs|
  {
    if k == 0 then 0 else ClashCount(cs, k - 1) + (if HasOverlapWithin(cs[k - 1], cs) then 1 else 0)
  }

  lemma {:induction false} FreePlusClash(cs: seq<Course>, k: nat)
    requires k <= |cs|
    ensures FreeCount(cs, k) + ClashCount(cs, k) == k
  {
    if k > 0 {
      FreePlusClash(cs, k - 1);
    }
  }

  lemma {:induction false} ClashCountAtLeast(cs: seq<Course>, k: nat, i: nat, j: nat)
    requires k <= |cs| && i < j < |cs|
    requires HasOverlapWithin(cs[i], cs) && HasOverlapWithin(cs[j], cs)
    ensures ClashCount(cs, k) >= (if i < k then 1 else 0) + (if j < k then 1 else 0)
  {
    if k > 0 {
      ClashCountAtLeast(cs, k - 1, i, j);
    }
  }

  /** With distinct ids, a clash costs both courses involved their +20. */
  lemma ClashCostsBothCourses(cs: seq<Course>)
    requires UniqueIds(cs) && AnyOverlap(cs)
    ensures FreeCount(cs, |cs|) <= |cs| - 2
  {
    var i, j :| 0 <= i < j < |cs| && CoursesOverlap(cs[i], cs[j]);
    CoursesOverlapSymmetric(cs[i], cs[j]);
    assert HasOverlapWithin(cs[i], cs);
    assert HasOverlapWithin(cs[j], cs);
    ClashCountAtLeast(cs, |cs|, i, j);
    FreePlusClash(cs, |cs|);
  }

  /** The set-size test of calculateCompatibilityScore means: non-empty and all years equal. */
  lemma SameYearMeansAllEqual(cs: seq<Course>)
    ensures SameYear(cs) <==> |cs| > 0 && forall i :: 0 <= i < |cs| ==> cs[i].year == cs[0].year
  {
    var years := set c | c in cs :: c.year;
    if |cs| > 0 && forall i :: 0 <= i < |cs| ==> cs[i].year == cs[0].year {
      assert years == {cs[0].year} by {
        forall y | y in years ensures y == cs[0].year {
          var c :| c in cs && c.year == y;
          var i :| 0 <= i < |cs| && cs[i] == c;
        }
        assert cs[0] in cs;
      }
    }
    if SameYear(cs) {
      var y :| y in years;
      assert years == {y} by {
        forall z | z in years ensures z == y {
          if z != y {
            assert {y, z} <= years;
            assert |{y, z}| == 2;
            SubsetCardinality({y, z}, years);
          }
        }
      }
      assert |cs| > 0;
      forall i | 0 <= i < |cs| ensures cs[i].year == cs[0].year {
        assert cs[i] in cs && cs[0] in cs;
        assert cs[i].year in years && cs[0].year in years;
      }
    }
  }

  lemma SubsetCardinality<T>(a: set<T>, b: set<T>)
    requires a <= b
    ensures |a| <= |b|
  {
    assert b == a + (b - a);
  }
}
