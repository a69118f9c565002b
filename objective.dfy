/**
 * The objective `minimize Z` and the bounds `[0, sum(credits)]` on `Y` and
 * `Z`. With non-negative credits the bounds never cut off a valid
 * assignment, every feasible `Z` is at least the assignment's largest load,
 * and so an optimal answer is a valid assignment whose largest load is as
 * small as any valid assignment's.
 */
module Objective {
  import opened LinearProgram
  import opened CourseAssignment
  import opened Formulation
  import opened Meaning

  // ---------------------------------------------------------------------
  // Credit sums

  lemma {:induction false} SumUpdate(s: seq<int>, i: nat, x: int)
    requires i < |s|
    ensures Sum(s[i := x]) == Sum(s) - s[i] + x
  {
    var n := |s|;
    var u := s[i := x];
    if i == n - 1 {
      assert u[..n - 1] == s[..n - 1];
    } else {
      assert u[..n - 1] == s[..n - 1][i := x];
      SumUpdate(s[..n - 1], i, x);
    }
  }

  lemma {:induction false} SumNonNegative(s: seq<int>)
    requires forall k :: 0 <= k < |s| ==> s[k] >= 0
    ensures Sum(s) >= 0
  {
    if s != [] {
      var init := s[..|s| - 1];
      assert forall k :: 0 <= k < |init| ==> init[k] == s[k];
      SumNonNegative(init);
    }
  }

  /** A credit sum depends only on the credits of the courses it adds. */
  lemma {:induction false} CreditSumAgree(c1: seq<int>, c2: seq<int>, cs: seq<int>)
    requires ValidIndices(c1, cs) && ValidIndices(c2, cs)
    requires forall c :: c in cs ==> c1[c] == c2[c]
    ensures CreditSum(c1, cs) == CreditSum(c2, cs)
  {
    if cs != [] {
      assert cs[0] in cs && forall c :: c in cs[1..] ==> c in cs;
      CreditSumAgree(c1, c2, cs[1..]);
    }
  }

  /**
   * With non-negative credits, the credits of distinct courses add up to a
   * value in `[0, sum(credits)]`.
   */
  lemma {:induction false} CreditSumWithinTotal(credits: seq<int>, cs: seq<int>)
    requires ValidIndices(credits, cs) && Distinct(cs)
    requires forall k :: 0 <= k < |credits| ==> credits[k] >= 0
    ensures 0 <= CreditSum(credits, cs) <= Sum(credits)
    decreases |cs|
  {
    if cs == [] {
      SumNonNegative(credits);
    } else {
      var c, rest := cs[0], cs[1..];
      assert c in cs && forall x :: x in rest ==> x in cs;
      assert c !in rest by {
        forall j | 0 <= j < |rest| ensures rest[j] != c {
          assert rest[j] == cs[j + 1];
        }
      }
      DistinctSuffix(cs);
      var zeroed := credits[c := 0];
      CreditSumAgree(credits, zeroed, rest);
      CreditSumWithinTotal(zeroed, rest);
      SumUpdate(credits, c, 0);
    }
  }

  lemma LoadWithinTotal(inst: Instance, val: Valuation, t: int)
    requires CourseIdsIndexCredits(inst) && NonNegativeCredits(inst)
    ensures 0 <= LoadOf(inst, val, t) <= Sum(inst.credits)
  {
    CreditSumWithinTotal(inst.credits, AssignedCourses(inst.courses, t, val));
  }

  /** A teacher's courses and load depend only on its own `X` values. */
  lemma {:induction false} AssignedCoursesDependOnX(cs: seq<int>, t: int, v1: Valuation, v2: Valuation)
    requires forall c :: v1(X(t, c)) == v2(X(t, c))
    ensures AssignedCourses(cs, t, v1) == AssignedCourses(cs, t, v2)
  {
    if cs != [] {
      AssignedCoursesDependOnX(cs[1..], t, v1, v2);
    }
  }

  lemma {:induction false} MaxLoadDependsOnX(inst: Instance, v1: Valuation, v2: Valuation, ts: seq<int>)
    requires ValidIndices(inst.credits, inst.courses)
    requires forall t, c :: v1(X(t, c)) == v2(X(t, c))
    ensures MaxLoadOf(inst, v1, ts) == MaxLoadOf(inst, v2, ts)
  {
    if ts != [] {
      MaxLoadDependsOnX(inst, v1, v2, ts[1..]);
      AssignedCoursesDependOnX(inst.courses, ts[0], v1, v2);
    }
  }

  // ---------------------------------------------------------------------
  // Completing an assignment to a feasible valuation

  /** Keeps the `X` values, sets every `Y[k]` to teacher `k`'s load and `Z` to the largest load. */
  function Completed(inst: Instance, val: Valuation): (r: Valuation)
    requires ValidIndices(inst.credits, inst.courses)
    ensures forall t, c :: r(X(t, c)) == val(X(t, c))
    ensures forall k :: 0 <= k < |inst.teachers| ==> r(Y(k)) == LoadOf(inst, val, k)
    ensures r(Z) == MaxLoad(inst, val)
  {
    (v: Var) =>
      match v
      case X(_, _) => val(v)
      case Y(k) => if 0 <= k < |inst.teachers| then LoadOf(inst, val, k) else val(v)
      case Z => MaxLoad(inst, val)
  }

  lemma CompletedLoadsMatch(inst: Instance, val: Valuation)
    requires WellFormed(inst)
    ensures LoadsMatch(inst, Completed(inst, val))
  {
    var ts, full := inst.teachers, Completed(inst, val);
    forall a | 0 <= a < |ts| ensures full(Y(ts[a])) == LoadOf(inst, full, ts[a]) {
      assert ts[a] in ts;
      AssignedCoursesDependOnX(inst.courses, ts[a], full, val);
    }
  }

  lemma CompletedWithinBounds(inst: Instance, val: Valuation)
    requires WellFormed(inst) && NonNegativeCredits(inst)
    ensures LoadBounds(inst, Completed(inst, val))
  {
    var ts, full := inst.teachers, Completed(inst, val);
    forall k | 0 <= k < |ts| ensures 0 <= full(Y(k)) <= Sum(inst.credits) {
      LoadWithinTotal(inst, val, k);
    }
    SumNonNegative(inst.credits);
    if MaxLoad(inst, val) != 0 {
      var a :| 0 <= a < |ts| && MaxLoad(inst, val) == LoadOf(inst, val, ts[a]);
      LoadWithinTotal(inst, val, ts[a]);
    }
  }

  lemma CompletedDominates(inst: Instance, val: Valuation)
    requires WellFormed(inst)
    ensures ZDominates(inst, Completed(inst, val))
  {
    var ts, full := inst.teachers, Completed(inst, val);
    forall a | 0 <= a < |ts| ensures full(Z) >= full(Y(ts[a])) {
      assert ts[a] in ts;
    }
  }

  /** With non-negative credits, completing a valid assignment gives a feasible valuation. */
  lemma CompletedFeasible(inst: Instance, val: Valuation)
    requires WellFormed(inst) && NonNegativeCredits(inst) && ValidAssignment(inst, val)
    ensures Feasible(Formulate(inst), Completed(inst, val))
  {
    var full := Completed(inst, val);
    assert ValidAssignment(inst, full);
    CompletedLoadsMatch(inst, val);
    CompletedWithinBounds(inst, val);
    CompletedDominates(inst, val);
    FormulationMeaning(inst, full);
  }

  /**
   * The bounds `[0, sum(credits)]` never exclude a valid assignment: with
   * non-negative credits, every valid assignment extends to a feasible
   * valuation with the same `X` values and `Z` equal to its largest load.
   */
  lemma BoundsAdmitEveryValidAssignment(inst: Instance, val: Valuation)
    requires WellFormed(inst) && NonNegativeCredits(inst) && ValidAssignment(inst, val)
    ensures exists full :: (Feasible(Formulate(inst), full) &&
      (forall t, c :: full(X(t, c)) == val(X(t, c))) && full(Z) == MaxLoad(inst, val))
  {
    CompletedFeasible(inst, val);
    var full := Completed(inst, val);
    assert Feasible(Formulate(inst), full) && full(Z) == MaxLoad(inst, val);
  }

  // ---------------------------------------------------------------------
  // The objective

  /** Every feasible `Z` is at least the largest load of the assignment it comes with. */
  lemma FeasibleZBoundsMaxLoad(inst: Instance, val: Valuation)
    requires WellFormed(inst) && Feasible(Formulate(inst), val)
    ensures val(Z) >= MaxLoad(inst, val)
  {
    FormulationMeaning(inst, val);
    if MaxLoad(inst, val) != 0 {
      var a :| 0 <= a < |inst.teachers| && MaxLoad(inst, val) == LoadOf(inst, val, inst.teachers[a]);
    }
  }

  /**
   * Minimising `Z` minimises the largest load: an optimal valuation is a
   * valid assignment, its `Z` is its largest load, and no valid assignment
   * has a smaller largest load.
   */
  lemma OptimumIsMinMaxLoad(inst: Instance, val: Valuation)
    requires WellFormed(inst) && NonNegativeCredits(inst)
    requires Optimal(Formulate(inst), val)
    ensures ValidAssignment(inst, val)
    ensures val(Z) == MaxLoad(inst, val)
    ensures forall other :: ValidAssignment(inst, other) ==> MaxLoad(inst, val) <= MaxLoad(inst, other)
  {
    FormulationMeaning(inst, val);
    FeasibleZBoundsMaxLoad(inst, val);
    BoundsAdmitEveryValidAssignment(inst, val);
    var full :| Feasible(Formulate(inst), full) && full(Z) == MaxLoad(inst, val);
    forall other | ValidAssignment(inst, other) ensures MaxLoad(inst, val) <= MaxLoad(inst, other) {
      BoundsAdmitEveryValidAssignment(inst, other);
      var f :| Feasible(Formulate(inst), f) && f(Z) == MaxLoad(inst, other);
    }
  }

  /** Conversely, a valid assignment with the smallest largest load, completed, is optimal. */
  lemma MinMaxLoadIsOptimum(inst: Instance, val: Valuation)
    requires WellFormed(inst) && NonNegativeCredits(inst) && ValidAssignment(inst, val)
    requires forall other :: ValidAssignment(inst, other) ==> MaxLoad(inst, val) <= MaxLoad(inst, other)
    ensures Optimal(Formulate(inst), Completed(inst, val))
  {
    var full := Completed(inst, val);
    CompletedFeasible(inst, val);
    forall other | Feasible(Formulate(inst), other) ensures full(Z) <= other(Z) {
      FormulationMeaning(inst, other);
      FeasibleZBoundsMaxLoad(inst, other);
    }
  }

  // ---------------------------------------------------------------------
  // Instances with no solution

  /** A course no teacher prefers cannot be covered: the program has no feasible valuation. */
  lemma CourseWithoutCandidateIsInfeasible(inst: Instance, val: Valuation, b: nat)
    requires WellFormed(inst) && b < |inst.courses|
    requires forall t :: t in inst.teachers ==> inst.courses[b] !in inst.preferences[t]
    ensures !Feasible(Formulate(inst), val)
  {
    FormulationMeaning(inst, val);
  }

  /** A pair `(c, c)` in the conflicts forbids the course its own teacher: no feasible valuation. */
  lemma SelfConflictIsInfeasible(inst: Instance, val: Valuation, k: nat)
    requires WellFormed(inst) && k < |inst.conflicts| && inst.conflicts[k].0 == inst.conflicts[k].1
    ensures !Feasible(Formulate(inst), val)
  {
    FormulationMeaning(inst, val);
    assert DeclaredPair(inst, inst.conflicts[k]);
  }
}
