# Course-combination engine, modelled and verified in Dafny

This project models the recommendation engine of a course-planning web
application (`src/utils/courseCombinations.ts`). From a student profile, the
list of approved course ids and the catalog of offered courses, the engine:

1. keeps the courses the student may take (not yet approved, all
   prerequisites approved);
2. drops those with a meeting inside the student's working hours
   (09:00–18:00 full-time, 14:00–18:00 part-time);
3. enumerates every in-order subset of 1..maxCourses of the remaining courses
   (a backtracking recursion);
4. builds for each subset a record: conflict warning, overlapped minutes,
   total minutes and credits, an additive compatibility score clamped at 200,
   and per-course "overlaps with" metadata;
5. sorts the records in place with a four-key comparator;
6. numbers them with priorities 1..N.

Modules, one per part of the engine:

- `Types` (`types.dfy`): the records (schedule, course, student form,
  combination) and the enums of the catalog.
- `Clock` (`clock.dfy`): `timeToMinutes` on "H:M" digit strings.
- `Overlap` (`overlap.dfy`): meeting overlap, the two conflict scans and the
  overlapped-minutes accumulation.
- `Filters` (`filters.dfy`): the eligibility and work-availability filters.
- `Subsets` (`subsets.dfy`): `generateCombinations`, with counting,
  distinctness, shape and completeness proofs.
- `Metadata` (`metadata.dfy`): the per-course `coursesMetadata` build.
- `Score` (`score.dfy`): `calculateCompatibilityScore`.
- `Ranking` (`ranking.dfy`): the comparator, the in-place sort and the
  priority loop.
- `Engine` (`engine.dfy`): `calculateCourseCombinations`.

The loops of the source are imperative Dafny methods. Each has an `ensures`
tying its result to a specification function, and the properties are lemmas
about those functions. The modelled loops are hasAnyOverlap,
courseHasOverlap, calculateOverlapHours, the metadata build with its two
`break`s, the score accumulation with its `categoryCounts` dictionary, the
backtracking enumerator, and the sort and priority loop over an array.
Expressions, such as `filter`, `every`, `some` and `reduce`, are functions.

Meeting times are integer minutes since midnight, the values `timeToMinutes`
yields. Durations stay in minutes: the source divides by 60 to report hours.
Division by 60 is monotone, so the ranking is the same.

Facts that need catalog course ids to be distinct are stated under
`UniqueIds(...) ==>`. The catalog this application ships with repeats two
codes, so the engine is also modelled faithfully on duplicate ids.
`courseHasOverlap` and the metadata scan skip every course with the same id.
A later course with a repeated id overwrites the metadata entry of an
earlier one.

## Model

| member | source | states |
|---|---|---|
| Clock.ColonIndex | src/utils/courseCombinations.ts:13 | The position where `split(":")` cuts: the first ':', or the length of the string when there is none. |
| Clock.FormatThenParse | src/utils/courseCombinations.ts:12-15 | For every m < 6000, writing m as zero-padded "HH:MM" and reading it back gives m. |
| Clock.ParseThenFormat | src/utils/courseCombinations.ts:12-15 | A zero-padded "HH:MM" string reads as h*60+m below 6000, and writing that back gives the same string. |
| Clock.PaddedIsClockTime | src/utils/courseCombinations.ts:12-15 | A zero-padded "HH:MM" string is a well-formed time, and its value is (10·H1+H2)·60 + 10·M1+M2. |
| Clock.WorkWindowBounds | src/utils/courseCombinations.ts:98-104 | The constants of the work windows: "09:00" is 540, "14:00" is 840 and "18:00" is 1080 minutes. |
| Overlap.SchedulesOverlapSymmetric | src/utils/courseCombinations.ts:17-26 | Whether two meetings overlap does not depend on their order. |
| Overlap.NoOverlapOnDifferentDays | src/utils/courseCombinations.ts:18 | Meetings on different days never overlap. |
| Overlap.TouchingMeetingsDoNotOverlap | src/utils/courseCombinations.ts:25 | A meeting that ends exactly when another starts does not overlap it (intervals are half-open). |
| Overlap.OverlapMeansSharedMinute | src/utils/courseCombinations.ts:17-26 | Two well-formed meetings overlap exactly when they share the day and some minute t that both [start, end) intervals contain. |
| Overlap.CoursesOverlapSymmetric | src/utils/courseCombinations.ts:28-39 | Two courses clash (some pair of their meetings overlaps) in either order. |
| Overlap.MeetingsOverlap | src/utils/courseCombinations.ts:28-84 | The two meeting loops with early return answer exactly whether some meeting of one course overlaps some meeting of the other. |
| Overlap.HasAnyOverlap | src/utils/courseCombinations.ts:28-39 | Returns true exactly when two courses at positions i < j clash. |
| Overlap.CourseHasOverlap | src/utils/courseCombinations.ts:72-84 | Returns true exactly when some course in `others` with a different id clashes with `course`. |
| Overlap.CourseClashIsClash | src/utils/courseCombinations.ts:72-84 | A course that clashes with another course of the set makes the whole set clash. |
| Overlap.AnyOverlapIffSomeCourseOverlaps | src/utils/courseCombinations.ts:28-84 | With distinct ids, a combination has a clash exactly when one of its courses has a clash among the others. |
| Overlap.OverlapAmountPositive | src/utils/courseCombinations.ts:51-60 | For well-formed meetings, the span min(ends) − max(starts) counted for a pair is above 0 exactly when they overlap. |
| Overlap.OverlapTotal | src/utils/courseCombinations.ts:44-70 | The overlapped minutes of a set of well-formed courses are never negative. |
| Overlap.CalculateOverlapMinutes | src/utils/courseCombinations.ts:44-70 | The total of the four nested loops equals the sum, over all pairs i < j and all meeting pairs, of the overlapped minutes. |
| Overlap.TriSumPositive | src/utils/courseCombinations.ts:44-70 | For well-formed meetings, the total accumulated over the first i outer iterations is above 0 exactly when some pair i' < j with i' < i clashes. |
| Overlap.OverlapTotalPositiveIffClash | src/utils/courseCombinations.ts:28-70 | For well-formed meetings, overlapped minutes are above 0 exactly when hasAnyOverlap holds. |
| Filters.Filter | src/utils/courseCombinations.ts:231-240 | Array filter: no longer than its input, keeps exactly the members that satisfy the predicate, and keeps ids distinct when they were. |
| Filters.FilterSingle | src/utils/courseCombinations.ts:231-240 | A one-element array keeps its element exactly when the predicate accepts it. |
| Filters.FilterAppend | src/utils/courseCombinations.ts:231-240 | Filtering a concatenation gives the concatenation of the filtered parts. With FilterSingle, this means the survivors keep their order and multiplicity. |
| Filters.EligibleCourses | src/utils/courseCombinations.ts:231-235 | A course survives exactly when it is in the catalog, its id is not approved, and every prerequisite is approved. |
| Filters.WorkCompatibleCourses | src/utils/courseCombinations.ts:238-240 | A course survives exactly when none of its meetings falls in the work window. |
| Filters.FullTimeWindow | src/utils/courseCombinations.ts:98-100 | For full-time work, a surviving course has no meeting with start < 1080 and end > 540, and every such course survives. |
| Filters.PartTimeWindow | src/utils/courseCombinations.ts:102-104 | For part-time work, a surviving course has no meeting with start < 1080 and end > 840, and every such course survives. |
| Filters.NotWorkingKeepsAll | src/utils/courseCombinations.ts:106 | A student who does not work keeps the whole list unchanged. |
| Filters.FullTimeStricterThanPartTime | src/utils/courseCombinations.ts:98-104 | Every course a full-time worker keeps, a part-time worker keeps too. |
| Subsets.GenerateCombinations | src/utils/courseCombinations.ts:195-212 | The backtracking recursion appends to `result` exactly the sequence `Gen` of snapshots taken from `current`. |
| Subsets.CombinationsCount | src/utils/courseCombinations.ts:195-212 | The output holds exactly C(n,1)+…+C(n,min(maxSize,n)) subsets. |
| Subsets.CombinationShape | src/utils/courseCombinations.ts:195-212 | Every output subset has size 1..maxSize and picks the items at strictly increasing positions. |
| Subsets.CombinationsDistinct | src/utils/courseCombinations.ts:195-212 | For items that are pairwise distinct, no subset appears twice in the output. |
| Subsets.CombinationsComplete | src/utils/courseCombinations.ts:195-212 | Every choice of 1..maxSize strictly increasing positions appears in the output. |
| Metadata.BuildMetadata | src/utils/courseCombinations.ts:263-286 | The loops with their two `break`s build exactly `MetadataOf`: an "overlaps with" list per course id, a later duplicate id overwriting. |
| Metadata.ScanMeetingsAppendsOnce | src/utils/courseCombinations.ts:270-279 | When the other course's id is not yet listed, scanning that course appends its id exactly once if some pair of meetings overlaps, and nothing otherwise. |
| Metadata.ScanOthersIsOverlapIds | src/utils/courseCombinations.ts:267-281 | With distinct ids, the list built is, in order, the ids of the other courses that clash with the course. |
| Metadata.OverlapsWithMeaning | src/utils/courseCombinations.ts:263-281 | With distinct ids, the list has no id twice, and lists a course exactly when it has another id and clashes. |
| Metadata.InfoAgreesWithCourseHasOverlap | src/utils/courseCombinations.ts:263-286 | With distinct ids, hasTimeConflict is courseHasOverlap, and the list is present exactly when hasTimeConflict holds. |
| Metadata.OverlapsWithSymmetric | src/utils/courseCombinations.ts:263-281 | With distinct ids, course j is in i's list exactly when i is in j's list. |
| Metadata.MetadataKeys | src/utils/courseCombinations.ts:264-286 | The keys of coursesMetadata are exactly the ids of the combination's courses. |
| Metadata.MetadataEntries | src/utils/courseCombinations.ts:264-286 | With distinct ids, every course has an entry, and the entry is that course's own information. |
| Score.FreeCount | src/utils/courseCombinations.ts:136-137 | Counts the courses of the prefix without a clash, so it is never more than the prefix length. |
| Score.CourseBonus | src/utils/courseCombinations.ts:142-160 | One course adds at most 40. It adds exactly 40 only for a hard course in a category where the student is advanced. |
| Score.BonusSum | src/utils/courseCombinations.ts:140-161 | The per-course loop adds at most 40 per course. |
| Score.CategoryCount | src/utils/courseCombinations.ts:172-176 | Courses of a category among the first k: at most k. |
| Score.CompatibilityScore | src/utils/courseCombinations.ts:118-188 | Always in [0, 200]. It equals the raw sum when that is at most 200, and 200 otherwise. |
| Score.CalculateCompatibilityScore | src/utils/courseCombinations.ts:114-189 | The loops that mutate `score` and `categoryCounts` compute exactly `CompatibilityScore`. |
| Score.FreePositionsMeaning | src/utils/courseCombinations.ts:136-137 | A position i belongs to the free positions of the first k exactly when i < k and course i clashes with no course of the set with a different id. |
| Score.FreeCountIsCardinality | src/utils/courseCombinations.ts:136-137 | The length of the filtered array is the number of free positions. So the first term counts exactly the courses without a clash. |
| Score.FreePlusClash | src/utils/courseCombinations.ts:136-137 | Every course of the prefix is either free or clashing: the two counts add up to its length. |
| Score.ClashCountAtLeast | src/utils/courseCombinations.ts:136-137 | Two clashing courses at different positions both count among the clashing courses of any prefix that contains them. |
| Score.CountFreeCourses | src/utils/courseCombinations.ts:136-137 | The filter over `courseHasOverlap` computes the number of free courses. |
| Score.AddCourseBonus | src/utils/courseCombinations.ts:142-160 | The if-chain that mutates `score` for one course adds exactly that course's bonus. |
| Score.CountCategories | src/utils/courseCombinations.ts:172-176 | After the loop, a category has an entry exactly when some course has it, and the entry is the number of its courses. |
| Score.NoClashAllFree | src/utils/courseCombinations.ts:136-137 | Without any clash, every course earns its +20. |
| Score.ClashCostsBothCourses | src/utils/courseCombinations.ts:136-137 | With distinct ids, a clash costs at least two courses their +20. |
| Score.SameYearMeansAllEqual | src/utils/courseCombinations.ts:164 | The check "set of years has size 1" holds exactly when the set is non-empty and all years are equal. |
| Ranking.CompareMeaning | src/utils/courseCombinations.ts:313-328 | The comparator's sign is the lexicographic order: score descending, warnings ascending, course count descending, total time ascending. Zero means a tie on all four, and swapping the arguments negates it. |
| Ranking.InOrderTransitive | src/utils/courseCombinations.ts:313-328 | Comparator order with ties broken by enumeration index is transitive. |
| Ranking.InOrderTotal | src/utils/courseCombinations.ts:313-328 | For different indices, exactly one of the two goes first. |
| Ranking.SortCombinations | src/utils/courseCombinations.ts:313-328 | The in-place stable sort leaves every pair in comparator order, ties in index order, and the array a permutation of its former contents. |
| Ranking.InsertAt | src/utils/courseCombinations.ts:313-328 | One insertion step extends the sorted prefix 0..i to 0..i+1, rearranges only 0..i (same multiset there), and leaves every later element in place. |
| Ranking.SortedPermutationUnique | src/utils/courseCombinations.ts:313-328 | Two orderings of the same records that both satisfy this order are equal, so any stable sort gives the same result. |
| Ranking.AssignPriorities | src/utils/courseCombinations.ts:331 | Each record gets priority position+1, and nothing else changes. |
| Engine.TotalMinutes | src/utils/courseCombinations.ts:292-302 | The total meeting time is at least 0 for well-formed meetings. |
| Engine.TotalMinutesAppend | src/utils/courseCombinations.ts:292-302 | Total time is additive over concatenation. |
| Engine.TotalCredits | src/utils/courseCombinations.ts:260 | The credits total is at least 0 when every course's credits are. |
| Engine.TotalCreditsAppend | src/utils/courseCombinations.ts:260 | The credits total is additive over concatenation. |
| Engine.BuildCombination | src/utils/courseCombinations.ts:249-308 | The map callback builds exactly `CombinationOf`: priority 0, the overlap, score, totals, the warning, and the metadata. |
| Engine.CombinationOfFacts | src/utils/courseCombinations.ts:249-308 | The score is in [0,200]. warnings is ["Conflicto horario"] exactly when a clash exists, and [] otherwise. For well-formed meetings, overlap minutes are ≥ 0 and > 0 exactly on a clash. The metadata keys are the course ids. |
| Engine.CombinationMetadataFacts | src/utils/courseCombinations.ts:263-286 | With distinct ids, every course's entry says whether it clashes. The entry lists exactly the ids of the courses it clashes with. |
| Engine.RawCombinationFacts | src/utils/courseCombinations.ts:231-246 | Every enumerated set has 1..maxCourses courses, each in the catalog, eligible and work-compatible. Distinct catalog ids stay distinct within it. |
| Engine.CalculateCourseCombinations | src/utils/courseCombinations.ts:218-334 | Missing workAvailability, skillLevels or maxCourses (or maxCourses 0) gives []. Otherwise the result holds ΣC(n,i) records, which are a permutation of the built ones. Each pair is in comparator order, and priorities are 1..N. |
| Engine.ResultEntries | src/utils/courseCombinations.ts:249-331 | Every returned record is the one built for the enumerated set at its index, except for its priority. |
| Engine.ResultFacts | src/utils/courseCombinations.ts:218-334 | Every returned record has a size bound, eligible and work-compatible courses, a score in range, the conflict warning exactly on a clash, and the overlap-minutes iff. |

## Left out

- Console output: `console.log` (line 236) only prints.
- The commented-out overlap multiplier in the score (lines 119-134) is dead code.
- Floating point: hours are kept as exact integer minutes. `overlapMinutes / 60` and the per-meeting `/ 60` sums are not rounded as IEEE doubles do. In rare cases the rounding could tie or untie two totals that the model compares exactly.
- Clock.TimeToMinutes: only "digits:digits" strings are modelled. `Number` also accepts other text: signs, blanks, decimals, "" (as 0), and a meeting time that yields NaN. Those are outside the model. Schedules carry the minutes directly.
- Overlap.OverlapTotal: non-negativity is stated only for meetings that end after they start. A malformed meeting (end not after start) can make the source's sum negative.
- The combination id string "combination-<index>" is modelled by the nat `index`.
- Engine.CalculateCourseCombinations: `maxCourses` is a natural number. A negative or fractional value, which the source's `=== maxSize` test would never hit, is not modelled. Neither is the untyped `padron` field of the form.
- Score.CalculateCompatibilityScore: the `Object.entries` loop visits the categories in a fixed enum order, not in insertion order. Each category's bonus is independent of the order, so the sum is the same.
- Ranking.SortCombinations: `Array.prototype.sort` is modelled by a stable insertion sort. The sort is stable since ECMAScript 2019, and `Ranking.SortedPermutationUnique` shows that every stable sort with this comparator yields the same array.
- Subsets.GenerateCombinations: the shared mutable `current` buffer (`push`/`pop`) and the `result` accumulator are passed by value. Each snapshot is a copy in the source, so the output is the same.
- Metadata.BuildMetadata: `overlapsWithCourses` is None where the source leaves the field undefined.
- The React pages, components, hooks, local storage, the schema library wrapper, the catalog constants and the view-level filtering and sorting in the results page are the user interface around the engine, not part of this model.
