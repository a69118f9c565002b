/**
 * Reading the answer back. When the solver reports an optimal or feasible
 * answer, the builder reports the value of `Z` and, for each teacher in
 * order, the courses whose `X[t, c]` is 1 (in course order) and `Y[t]`;
 * otherwise it reports that there is no solution.
 */
module Extraction {
  import LP = LinearProgram
  import opened CourseAssignment
  import opened Formulation
  import opened Meaning
  import opened Objective

  /** The statuses the solver's `Solve` can return. */
  datatype SolverStatus = Optimal | Feasible | Infeasible | Unbounded | Abnormal | NotSolved

  /** One line of the report: a teacher, its assigned courses, and its `Y` value. */
  datatype TeacherReport = TeacherReport(teacher: int, courses: seq<int>, load: int)

  datatype Outcome =
    | Solved(maxLoad: int, reports: seq<TeacherReport>)
    | NoSolution

  predicate HasSolution(status: SolverStatus)
  {
    status == SolverStatus.Optimal || status == SolverStatus.Feasible
  }

  function ReportFor(inst: Instance, val: LP.Valuation, t: int): TeacherReport
  {
    TeacherReport(t, AssignedCourses(inst.courses, t, val), val(LP.Y(t)))
  }

  /** The reports for the first `n` teachers, in teacher order. */
  function Reports(inst: Instance, val: LP.Valuation, n: nat): (r: seq<TeacherReport>)
    requires n <= |inst.teachers|
    ensures |r| == n
    ensures forall a :: 0 <= a < n ==> r[a] == ReportFor(inst, val, inst.teachers[a])
  {
    if n == 0 then [] else Reports(inst, val, n - 1) + [ReportFor(inst, val, inst.teachers[n - 1])]
  }

  /**
   * The output step: on an optimal or feasible status, `Z` and one report
   * per teacher, each listing exactly the courses the teacher holds.
   */
  method Report(inst: Instance, status: SolverStatus, val: LP.Valuation) returns (r: Outcome)
    ensures r.Solved? <==> HasSolution(status)
    ensures r.Solved? ==> r.maxLoad == val(LP.Z) && r.reports == Reports(inst, val, |inst.teachers|)
  {
    if !HasSolution(status) {
      return NoSolution;
    }
    var reports := [];
    var i := 0;
    while i < |inst.teachers|
      invariant 0 <= i <= |inst.teachers|
      invariant reports == Reports(inst, val, i)
    {
      var t := inst.teachers[i];
      var held := AssignedCourses(inst.courses, t, val);
      reports := reports + [TeacherReport(t, held, val(LP.Y(t)))];
      i := i + 1;
    }
    r := Solved(val(LP.Z), reports);
  }

  /**
   * In a report built from a feasible answer, every teacher's reported load
   * is the credit sum of the courses listed for it, and at most the reported
   * maximum `Z`.
   */
  lemma ReportLoads(inst: Instance, val: LP.Valuation)
    requires WellFormed(inst) && LP.Feasible(Formulate(inst), val)
    ensures forall a :: 0 <= a < |inst.teachers| ==>
      Reports(inst, val, |inst.teachers|)[a].load == CreditSum(inst.credits, Reports(inst, val, |inst.teachers|)[a].courses)
    ensures forall a :: 0 <= a < |inst.teachers| ==> Reports(inst, val, |inst.teachers|)[a].load <= val(LP.Z)
  {
    FormulationMeaning(inst, val);
  }

  /**
   * In a report built from a feasible answer, every teacher's list holds
   * distinct courses in course order, all from its preference list, and
   * never both courses of a conflict pair.
   */
  lemma ReportCourses(inst: Instance, val: LP.Valuation)
    requires WellFormed(inst) && LP.Feasible(Formulate(inst), val)
    ensures forall a :: 0 <= a < |inst.teachers| ==>
      var held := Reports(inst, val, |inst.teachers|)[a].courses;
      && Distinct(held)
      && Subsequence(held, inst.courses)
      && (forall c :: c in held ==> c in inst.preferences[inst.teachers[a]])
      && (forall p :: p in inst.conflicts ==> !(p.0 in held && p.1 in held))
  {
    var ts, cs := inst.teachers, inst.courses;
    assert Eligible(inst, val) && ConflictFree(inst, val) by {
      FormulationMeaning(inst, val);
    }
    forall a | 0 <= a < |ts|
      ensures forall c :: c in AssignedCourses(cs, ts[a], val) ==> c in inst.preferences[ts[a]]
    {
      assert ts[a] in ts;
      forall c | c in AssignedCourses(cs, ts[a], val) ensures c in inst.preferences[ts[a]] {
        var b :| 0 <= b < |cs| && cs[b] == c;
      }
    }
    forall a, p | 0 <= a < |ts| && p in inst.conflicts
      ensures !(p.0 in AssignedCourses(cs, ts[a], val) && p.1 in AssignedCourses(cs, ts[a], val))
    {
      var k :| 0 <= k < |inst.conflicts| && inst.conflicts[k] == p;
    }
  }

  /**
   * Under coverage the per-teacher `assigned_courses` lists, which are the
   * reports' course lists, partition the courses: every course is on
   * exactly one teacher's list.
   */
  lemma AssignedCoursesPartition(inst: Instance, val: LP.Valuation)
    requires Covered(inst, val)
    ensures forall b :: 0 <= b < |inst.courses| ==>
      exists a :: 0 <= a < |inst.teachers| && inst.courses[b] in AssignedCourses(inst.courses, inst.teachers[a], val)
    ensures forall a1, a2, c ::
      (0 <= a1 < |inst.teachers| && 0 <= a2 < |inst.teachers| &&
       c in AssignedCourses(inst.courses, inst.teachers[a1], val) &&
       c in AssignedCourses(inst.courses, inst.teachers[a2], val)) ==> a1 == a2
  {
    var ts, cs := inst.teachers, inst.courses;
    forall b | 0 <= b < |cs|
      ensures exists a :: 0 <= a < |ts| && cs[b] in AssignedCourses(cs, ts[a], val)
    {
      assert ExactlyOneTeacher(ts, cs[b], val);
      var a :| 0 <= a < |ts| && val(LP.X(ts[a], cs[b])) == 1;
      assert cs[b] in AssignedCourses(cs, ts[a], val);
    }
    forall a1, a2, c | 0 <= a1 < |ts| && 0 <= a2 < |ts| &&
      c in AssignedCourses(cs, ts[a1], val) && c in AssignedCourses(cs, ts[a2], val)
      ensures a1 == a2
    {
      var b :| 0 <= b < |cs| && cs[b] == c;
      assert ExactlyOneTeacher(ts, cs[b], val);
    }
  }

  /**
   * When the answer is optimal, the reported maximum is the largest load
   * (which, by `OptimumIsMinMaxLoad`, no valid assignment undercuts) and it
   * is the reported load of some teacher.
   */
  lemma OptimalReport(inst: Instance, val: LP.Valuation, r: Outcome)
    requires WellFormed(inst) && NonNegativeCredits(inst) && LP.Optimal(Formulate(inst), val)
    requires r == Solved(val(LP.Z), Reports(inst, val, |inst.teachers|))
    ensures r.maxLoad == MaxLoad(inst, val)
    ensures |inst.teachers| > 0 ==> exists a :: 0 <= a < |r.reports| && r.reports[a].load == r.maxLoad
  {
    OptimumIsMinMaxLoad(inst, val);
    FormulationMeaning(inst, val);
    if |inst.teachers| > 0 && MaxLoad(inst, val) == 0 {
      assert LoadOf(inst, val, inst.teachers[0]) <= 0;
      assert r.reports[0].load == 0 by {
        LoadWithinTotal(inst, val, inst.teachers[0]);
      }
    }
  }
}
