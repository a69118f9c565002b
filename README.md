# Balanced course assignment as an integer linear program

`balanced_course_assignment_ilp` (in `ilp.py`) takes a course-assignment
instance and builds a mixed-integer linear program for a solver:

- The instance has teachers, courses, a preference list per teacher, conflict
  pairs of courses, and a credit value per course.
- Each teacher must get courses so that every course has exactly one teacher.
- A teacher gets only courses it prefers, and never both courses of a
  conflict pair.
- The goal is to make the largest teacher load as small as possible.

The program has these variables:

- a boolean `X[t, c]` per teacher and course;
- an integer load `Y[t]` per teacher;
- one integer `Z` for the maximum load.

`Y[t]` and `Z` are bounded by `[0, sum(credits)]`. The program has five
constraint families, added in this order:

1. coverage
2. eligibility
3. conflict exclusion
4. load definition
5. max-load linkage

The objective is to minimise `Z`. After solving, the function reports `Z` and,
for each teacher, its courses and its load.

This project models that builder in Dafny:

- `linear_program.dfy` (module `LinearProgram`) defines the linear program.
  - Constraints are in the normalised form `sum(coef * var) REL constant`.
  - `Y[t] == sum(...)` is stored as `Y[t] - sum(credits[c] * X[t, c]) == 0`.
  - `Z >= Y[t]` is stored as `Z - Y[t] >= 0`.
  - It also defines what it means for an integer valuation to be feasible, and what an optimal answer promises.
- `course_assignment.dfy` (module `CourseAssignment`) covers the instance:
  - the checks that the builder's dictionary and list lookups rely on;
  - the error result for a malformed instance;
  - each teacher's assigned courses and load;
  - the laws a valid assignment obeys.
- `formulation.dfy` (module `Formulation`) holds each constraint family as a specification function of the instance.
  - `BuildModel` is the builder.
  - Its loops append variables and constraints to sequences in the source's order.
  - Each loop is proved to produce exactly its family.
- `meaning.dfy` (module `Meaning`) relates the generated program to the assignment it encodes.
  - For each family, it proves the law that a valuation obeys exactly when it satisfies the family.
  - Together: a valuation is feasible exactly when it is a valid assignment with every `Y[t]` equal to `t`'s load and `Z` at least every load, with `Y` and `Z` within their bounds.
- `shape.dfy` (module `Shape`) gives the count and content of every family.
- `objective.dfy` (module `Objective`) covers the bounds and the objective.
  - With non-negative credits, the bounds never exclude a valid assignment.
  - Every feasible `Z` is at least the largest load.
  - Therefore an optimal answer is a valid assignment with the minimum possible maximum load.
- `extraction.dfy` (module `Extraction`) produces the report that is read back from an answer.
  - Each teacher's list is exactly the courses whose `X[t, c]` is 1, in course order.
  - The loads match these lists.
  - Under coverage the lists partition the courses.

The solver is not modelled. Its answer is a parameter `val : Var -> int`. An
answer with status OPTIMAL is assumed to satisfy `LinearProgram.Optimal`, and
one with status FEASIBLE to satisfy `LinearProgram.Feasible`.

Teacher ids index the list `Y`, and course ids index `credits`. The source
relies on this without checking it (a wrong id raises an exception that
`ilp.py:73-74` swallows). The model checks the instance first, in
`CourseAssignment.Validate`, and returns an `InputError` naming the offending
item instead of building anything.

## Model

| member | source | states |
|---|---|---|
| `CourseAssignment.Validate` | ilp.py:73-74 | Returns no error exactly when the instance is well formed. The instance is well formed when every teacher has a preference list (needed only when there is a course, since `preferences[t]` is read inside the loop over courses), every conflict pair names declared courses, teacher ids are positions of the load list, course ids are positions of `credits`, and ids are not repeated. Any error it returns names an item that really violates one of these. |
| `CourseAssignment.PreferencesUnreadWithoutCourses` | ilp.py:37-40 | With no courses, `Validate` gives the same answer whatever the preference map holds, because `preferences[t]` is never read. |
| `CourseAssignment.TeacherWithoutCoursesAccepted` | ilp.py:37-40 | Teachers `[0]` with no courses and an empty preference map pass validation, so the builder produces a program for them. |
| `CourseAssignment.AssignedCourses` | ilp.py:67 | A course is in the list exactly when it is one of the courses and `X[t, c] == 1`. The list keeps course order (it is a subsequence of the courses). It has no repeats when the courses have none. |
| `CourseAssignment.MaxLoadOf` | ilp.py:53-57 | The largest teacher load is at least every teacher's load and at least 0. It is either 0 or the load of some teacher. |
| `Formulation.DeclareAssignmentVariables` | ilp.py:25-28 | The nested loops declare the boolean `X[t, c]` row by row: for each teacher, one per course, in course order. |
| `Formulation.AddCoverage` | ilp.py:34-35 | The loop adds one coverage constraint per course, in course order. |
| `Formulation.AddEligibility` | ilp.py:38-41 | The nested loops add `X[t, c] == 0` for each teacher and, in course order, each course missing from its preference list. |
| `Formulation.AddConflicts` | ilp.py:44-46 | The nested loops add `X[t, i] + X[t, j] <= 1`, first by conflict pair, then by teacher. |
| `Formulation.AddLoads` | ilp.py:49-50 | The loop adds one load definition per teacher. |
| `Formulation.AddLinkage` | ilp.py:53-54 | The loop adds one `Z >= Y[t]` per teacher. |
| `Formulation.BuildModel` | ilp.py:24-57 | Succeeds exactly when the instance is well formed, and then returns the specified program. The variables are `X`, then `Y` with bounds `[0, sum(credits)]`, then `Z`. The constraints are the five families in source order. The objective is `Z`. On failure the error names an item that violates well-formedness. |
| `Meaning.AssignmentVariables` | ilp.py:25-28 | There are exactly `|teachers| * |courses|` boolean variables. Each one is for a declared teacher and course, every pair has one, and no variable is declared twice. |
| `Meaning.VariableBoundsMeaning` | ilp.py:25-30 | The declared bounds hold exactly when every `X` is 0 or 1 and every `Y` entry and `Z` lies in `[0, sum(credits)]`. |
| `Meaning.ColumnSumZero` | ilp.py:35 | Under 0/1 values, the coverage sum `sum(X[t, c] for t in teachers)` is never negative, and is 0 exactly when no teacher holds `c`. |
| `Meaning.ColumnSum` | ilp.py:35 | Under 0/1 values, the coverage sum is 1 exactly when exactly one teacher holds `c`. |
| `Meaning.CoverageMeaning` | ilp.py:34-35 | Under 0/1 values, the coverage constraints hold exactly when every course has exactly one teacher. |
| `Meaning.EligibilityMeaning` | ilp.py:38-41 | Under 0/1 values, the eligibility constraints hold exactly when every teacher holds only courses from its preference list. |
| `Meaning.ConflictMeaning` | ilp.py:44-46 | Under 0/1 values, the exclusion constraints hold exactly when no teacher holds both courses of a conflict pair. |
| `Meaning.LoadTermsValue` | ilp.py:50 | Under 0/1 values, `sum(X[t, c] * credits[c] for c in courses)` equals the credit sum of the courses assigned to `t`. |
| `Meaning.LoadRowMeaning` | ilp.py:50 | Under 0/1 values, one teacher's load constraint holds exactly when its `Y[t]` is its load. |
| `Meaning.LoadMeaning` | ilp.py:49-50 | Under 0/1 values, the load constraints hold exactly when every `Y[t]` equals teacher `t`'s load. |
| `Meaning.LinkageMeaning` | ilp.py:53-54 | The linkage constraints hold exactly when `Z` is at least every `Y[t]`. |
| `Meaning.FormulationMeaning` | ilp.py:24-57 | A valuation is feasible for the built program exactly when all of the following hold. It is a valid assignment: 0/1 values, every course covered once, only preferred courses, no conflict pair on one teacher. Every `Y[t]` is `t`'s load. `Z` is at least every load. `Y` and `Z` lie in `[0, sum(credits)]`. |
| `Shape.ColumnTermsShape` | ilp.py:35 | The coverage sum has one term `X[t, c]` with coefficient 1 per teacher, in teacher order. |
| `Shape.CoverageShape` | ilp.py:34-35 | There is one coverage constraint per course, and entry `b` is the constraint for course `b`. |
| `Shape.EligibilityOnlyForbidden` | ilp.py:38-41 | Every eligibility constraint is `X[t, c] == 0` for a teacher `t` and a course `c` missing from `t`'s preference list. |
| `Shape.EligibilityComplete` | ilp.py:38-41 | Every teacher and every course missing from its preference list has its `X[t, c] == 0`. |
| `Shape.EligibilityShape` | ilp.py:38-41 | `X[t, c] == 0` is generated exactly for the pairs where `c` is not on `t`'s preference list. No constraint is generated for a preferred pair. |
| `Shape.ConflictRowShape` | ilp.py:45-46 | For one conflict pair, entry `a` is the exclusion for the teacher at position `a`. |
| `Shape.ConflictsCount` | ilp.py:44-46 | The exclusion family has `|conflicts| * |teachers|` constraints. |
| `Shape.ConflictsComplete` | ilp.py:44-46 | Every conflict pair and teacher has its `X[t, i] + X[t, j] <= 1`. |
| `Shape.ConflictsOnlyExclusions` | ilp.py:44-46 | Every constraint of the exclusion family is `X[t, i] + X[t, j] <= 1` for some teacher and conflict pair. |
| `Shape.LoadTermsShape` | ilp.py:50 | The load sum has one term per course, in course order, with coefficient `-credits[c]`. |
| `Shape.LoadsShape` | ilp.py:49-50 | There is one load definition per teacher, in teacher order. |
| `Shape.LinkageShape` | ilp.py:53-54 | There is one `Z >= Y[t]` per teacher, in teacher order. |
| `Shape.ModelSize` | ilp.py:24-57 | The program has `|T| * |C| + |T| + 1` variables. It has `|C|` coverage constraints, plus the eligibility constraints, `|conflicts| * |T|` exclusions, `|T|` load definitions and `|T|` linkage constraints. It minimises `Z`. |
| `Objective.CreditSumWithinTotal` | ilp.py:29-30 | With non-negative credits, the credits of distinct courses add up to a value in `[0, sum(credits)]`. |
| `Objective.LoadWithinTotal` | ilp.py:29-30 | With non-negative credits, every teacher's load lies in `[0, sum(credits)]`, whatever the assignment. |
| `Objective.CompletedFeasible` | ilp.py:29-30 | With non-negative credits, a valid assignment completed with `Y[t]` = load and `Z` = largest load is feasible. |
| `Objective.BoundsAdmitEveryValidAssignment` | ilp.py:29-30 | The bounds never exclude a valid assignment. A feasible valuation exists with the same `X` values and with `Z` equal to the largest load. |
| `Objective.FeasibleZBoundsMaxLoad` | ilp.py:53-57 | In every feasible valuation, `Z` is at least the largest load. |
| `Objective.OptimumIsMinMaxLoad` | ilp.py:53-57 | An optimal valuation is a valid assignment whose `Z` equals its largest load. No valid assignment has a smaller largest load. |
| `Objective.MinMaxLoadIsOptimum` | ilp.py:53-57 | Conversely, a valid assignment with the smallest largest load, once completed, is optimal. |
| `Objective.CourseWithoutCandidateIsInfeasible` | ilp.py:34-41 | If no teacher prefers some course, the program has no feasible valuation. |
| `Objective.SelfConflictIsInfeasible` | ilp.py:34-46 | If a conflict pair `(c, c)` names one course twice, the program has no feasible valuation. |
| `Extraction.Reports` | ilp.py:66-68 | There is one report per teacher, in teacher order. Each report holds the teacher, its assigned courses and its `Y` value. |
| `Extraction.Report` | ilp.py:64-68 | There is a solution exactly when the status is OPTIMAL or FEASIBLE. It then reports `Z` and the per-teacher reports. |
| `Extraction.AssignedCoursesPartition` | ilp.py:66-67 | Under coverage, each course appears in some teacher's `assigned_courses` list (a report's course list), and no course appears in two teachers' lists. |
| `Extraction.ReportLoads` | ilp.py:66-68 | For a feasible answer, each reported load is the credit sum of the courses listed for that teacher, and at most the reported `Z`. |
| `Extraction.ReportCourses` | ilp.py:66-67 | For a feasible answer, each list has distinct courses in course order, all from the teacher's preferences, never both courses of a conflict pair. |
| `Extraction.OptimalReport` | ilp.py:57-68 | For an optimal answer, the reported `Z` is the largest load (the minimum over valid assignments, by `Objective.OptimumIsMinMaxLoad`), and some teacher's reported load reaches it when there is a teacher. |

## Left out

- The solver is left out because it is a foreign library whose search the model cannot see. This covers `CreateSolver`, the internals of `BoolVar`/`IntVar`, `Solve()` and branch-and-bound (`ilp.py:18-22`, `ilp.py:61`). The answer is a parameter. What an OPTIMAL answer promises is stated as the predicate `LinearProgram.Optimal`.
- The meaning of solver statuses other than OPTIMAL and FEASIBLE is left out because it depends on the solver. `Extraction.Report` only tells those two apart from "no solution".
- Floating-point reads via `solution_value()` are left out. Values are integers, so the `== 1` test on a float is an exact integer test.
- All printing is left out: `ilp.py:12-16`, `21`, `60`, `65`, `69`, `71`, `74`. The output is modelled as the returned `Outcome` value.
- Catching every exception at `ilp.py:73-74` is not modelled as is. It becomes the `Err` result of `Formulation.BuildModel`.
- The hard-coded test instances and driver loop (`ilp.py:76-136`) are left out because they are example data with no expected outputs.
- `CourseAssignment.Validate` is stricter than the Python lookups in several ways:
  - A negative teacher or course id is rejected. Python would wrap it around the list `Y` or `credits`.
  - A repeated teacher or course id is rejected. Python would make two entries share one `X` variable in the dictionary.
  - A conflict pair or course id is rejected even when a loop with no teachers would never look it up.
- Python's unbounded integers are modelled by Dafny's `int`, so arithmetic has no width limit. The solver's own numeric limits are not modelled.
