/**
 * The model builder of `balanced_course_assignment_ilp`: the variables it
 * creates, the five constraint families it adds, and the objective, first as
 * specification functions of the instance, then as the method that builds
 * them loop by loop in the same order and is proved to produce exactly them.
 */
module Formulation {
  import opened LinearProgram
  import opened CourseAssignment

  // ---------------------------------------------------------------------
  // Variables

  /** The boolean variables `X[t, c]` for the first `m` courses. */
  function XDeclRow(inst: Instance, t: int, m: nat): seq<VarDecl>
    requires m <= |inst.courses|
  {
    if m == 0 then [] else XDeclRow(inst, t, m - 1) + [VarDecl(X(t, inst.courses[m - 1]), 0, 1)]
  }

  /** The boolean variables `X[t, c]` for the first `n` teachers. */
  function XDecls(inst: Instance, n: nat): seq<VarDecl>
    requires n <= |inst.teachers|
  {
    if n == 0 then [] else XDecls(inst, n - 1) + XDeclRow(inst, inst.teachers[n - 1], |inst.courses|)
  }

  /** One load variable per teacher, bounded by `[0, sum(credits)]`. */
  function YDecls(inst: Instance): seq<VarDecl>
  {
    seq(|inst.teachers|, k => VarDecl(Y(k), 0, Sum(inst.credits)))
  }

  // ---------------------------------------------------------------------
  // Coverage: `sum(X[t, c] for t in teachers) == 1` for every course

  function ColumnTerms(teachers: seq<int>, c: int): seq<Term>
  {
    if teachers == [] then [] else [Term(X(teachers[0], c), 1)] + ColumnTerms(teachers[1..], c)
  }

  function CoverageRow(teachers: seq<int>, c: int): LinearConstraint
  {
    LinearConstraint(ColumnTerms(teachers, c), Eq, 1)
  }

  function Coverage(inst: Instance, n: nat): seq<LinearConstraint>
    requires n <= |inst.courses|
  {
    if n == 0 then [] else Coverage(inst, n - 1) + [CoverageRow(inst.teachers, inst.courses[n - 1])]
  }

  // ---------------------------------------------------------------------
  // Eligibility: `X[t, c] == 0` for every course c missing from preferences[t]

  function FixZero(t: int, c: int): LinearConstraint
  {
    LinearConstraint([Term(X(t, c), 1)], Eq, 0)
  }

  function EligibilityRow(inst: Instance, t: int, m: nat): seq<LinearConstraint>
    requires (m > 0 ==> t in inst.preferences) && m <= |inst.courses|
  {
    if m == 0 then []
    else
      var c := inst.courses[m - 1];
      EligibilityRow(inst, t, m - 1) + (if c !in inst.preferences[t] then [FixZero(t, c)] else [])
  }

  function Eligibility(inst: Instance, n: nat): seq<LinearConstraint>
    requires TeachersHavePreferences(inst) && n <= |inst.teachers|
  {
    if n == 0 then [] else Eligibility(inst, n - 1) + EligibilityRow(inst, inst.teachers[n - 1], |inst.courses|)
  }

  // ---------------------------------------------------------------------
  // Conflict exclusion: `X[t, i] + X[t, j] <= 1` for every pair and teacher

  function Exclusion(t: int, p: (int, int)): LinearConstraint
  {
    LinearConstraint([Term(X(t, p.0), 1), Term(X(t, p.1), 1)], Le, 1)
  }

  function ConflictRow(teachers: seq<int>, p: (int, int), m: nat): seq<LinearConstraint>
    requires m <= |teachers|
  {
    if m == 0 then [] else ConflictRow(teachers, p, m - 1) + [Exclusion(teachers[m - 1], p)]
  }

  function Conflicts(inst: Instance, n: nat): seq<LinearConstraint>
    requires n <= |inst.conflicts|
  {
    if n == 0 then [] else Conflicts(inst, n - 1) + ConflictRow(inst.teachers, inst.conflicts[n - 1], |inst.teachers|)
  }

  // ---------------------------------------------------------------------
  // Load definition: `Y[t] == sum(X[t, c] * credits[c] for c in courses)`,
  // stored as `Y[t] - sum(credits[c] * X[t, c]) == 0`

  function LoadTerms(credits: seq<int>, courses: seq<int>, t: int): seq<Term>
    requires ValidIndices(credits, courses)
  {
    if courses == [] then []
    else
      assert courses[0] in courses && forall c :: c in courses[1..] ==> c in courses;
      [Term(X(t, courses[0]), -credits[courses[0]])] + LoadTerms(credits, courses[1..], t)
  }

  function LoadRow(inst: Instance, t: int): LinearConstraint
    requires ValidIndices(inst.credits, inst.courses)
  {
    LinearConstraint([Term(Y(t), 1)] + LoadTerms(inst.credits, inst.courses, t), Eq, 0)
  }

  function Loads(inst: Instance, n: nat): seq<LinearConstraint>
    requires ValidIndices(inst.credits, inst.courses) && n <= |inst.teachers|
  {
    if n == 0 then [] else Loads(inst, n - 1) + [LoadRow(inst, inst.teachers[n - 1])]
  }

  // ---------------------------------------------------------------------
  // Max-load linkage: `Z >= Y[t]`, stored as `Z - Y[t] >= 0`

  function Dominates(t: int): LinearConstraint
  {
    LinearConstraint([Term(Z, 1), Term(Y(t), -1)], Ge, 0)
  }

  function Linkage(inst: Instance, n: nat): seq<LinearConstraint>
    requires n <= |inst.teachers|
  {
    if n == 0 then [] else Linkage(inst, n - 1) + [Dominates(inst.teachers[n - 1])]
  }

  // ---------------------------------------------------------------------
  // The whole model

  function AllVariables(inst: Instance): seq<VarDecl>
  {
    XDecls(inst, |inst.teachers|) + YDecls(inst) + [VarDecl(Z, 0, Sum(inst.credits))]
  }

  function AllConstraints(inst: Instance): seq<LinearConstraint>
    requires WellFormed(inst)
  {
    Coverage(inst, |inst.courses|)
    + Eligibility(inst, |inst.teachers|)
    + Conflicts(inst, |inst.conflicts|)
    + Loads(inst, |inst.teachers|)
    + Linkage(inst, |inst.teachers|)
  }

  /** The program the builder hands to the solver: minimise `Z`. */
  function Formulate(inst: Instance): Model
    requires WellFormed(inst)
  {
    Model(AllVariables(inst), AllConstraints(inst), Z)
  }

  /** The nested loops creating one boolean variable per teacher and course. */
  method DeclareAssignmentVariables(inst: Instance) returns (variables: seq<VarDecl>)
    ensures variables == XDecls(inst, |inst.teachers|)
  {
    var teachers, courses := inst.teachers, inst.courses;
    variables := [];
    var i := 0;
    while i < |teachers|
      invariant 0 <= i <= |teachers|
      invariant variables == XDecls(inst, i)
    {
      ghost var done := variables;
      var j := 0;
      while j < |courses|
        invariant 0 <= j <= |courses|
        invariant variables == done + XDeclRow(inst, teachers[i], j)
      {
        variables := variables + [VarDecl(X(teachers[i], courses[j]), 0, 1)];
        j := j + 1;
      }
      i := i + 1;
    }
  }

  /** One coverage constraint per course, in course order. */
  method AddCoverage(inst: Instance) returns (cons: seq<LinearConstraint>)
    ensures cons == Coverage(inst, |inst.courses|)
  {
    cons := [];
    var k := 0;
    while k < |inst.courses|
      invariant 0 <= k <= |inst.courses|
      invariant cons == Coverage(inst, k)
    {
      cons := cons + [CoverageRow(inst.teachers, inst.courses[k])];
      k := k + 1;
    }
  }

  /** `X[t, c] == 0` for each teacher, then each course it did not list. */
  method AddEligibility(inst: Instance) returns (cons: seq<LinearConstraint>)
    requires TeachersHavePreferences(inst)
    ensures cons == Eligibility(inst, |inst.teachers|)
  {
    cons := [];
    var i := 0;
    while i < |inst.teachers|
      invariant 0 <= i <= |inst.teachers|
      invariant cons == Eligibility(inst, i)
    {
      var t := inst.teachers[i];
      ghost var done := cons;
      var j := 0;
      while j < |inst.courses|
        invariant 0 <= j <= |inst.courses|
        invariant cons == done + EligibilityRow(inst, t, j)
      {
        var c := inst.courses[j];
        if c !in inst.preferences[t] {
          cons := cons + [FixZero(t, c)];
        }
        j := j + 1;
      }
      i := i + 1;
    }
  }

  /** For each conflict pair, then each teacher, `X[t, i] + X[t, j] <= 1`. */
  method AddConflicts(inst: Instance) returns (cons: seq<LinearConstraint>)
    ensures cons == Conflicts(inst, |inst.conflicts|)
  {
    cons := [];
    var k := 0;
    while k < |inst.conflicts|
      invariant 0 <= k <= |inst.conflicts|
      invariant cons == Conflicts(inst, k)
    {
      ghost var done := cons;
      var j := 0;
      while j < |inst.teachers|
        invariant 0 <= j <= |inst.teachers|
        invariant cons == done + ConflictRow(inst.teachers, inst.conflicts[k], j)
      {
        cons := cons + [Exclusion(inst.teachers[j], inst.conflicts[k])];
        j := j + 1;
      }
      k := k + 1;
    }
  }

  /** One load definition per teacher. */
  method AddLoads(inst: Instance) returns (cons: seq<LinearConstraint>)
    requires ValidIndices(inst.credits, inst.courses)
    ensures cons == Loads(inst, |inst.teachers|)
  {
    cons := [];
    var i := 0;
    while i < |inst.teachers|
      invariant 0 <= i <= |inst.teachers|
      invariant cons == Loads(inst, i)
    {
      cons := cons + [LoadRow(inst, inst.teachers[i])];
      i := i + 1;
    }
  }

  /** One `Z >= Y[t]` per teacher. */
  method AddLinkage(inst: Instance) returns (cons: seq<LinearConstraint>)
    ensures cons == Linkage(inst, |inst.teachers|)
  {
    cons := [];
    var i := 0;
    while i < |inst.teachers|
      invariant 0 <= i <= |inst.teachers|
      invariant cons == Linkage(inst, i)
    {
      cons := cons + [Dominates(inst.teachers[i])];
      i := i + 1;
    }
  }

  /**
   * Builds the program as the source does: the lookups it performs either
   * all succeed or one of them fails and nothing is built; otherwise the
   * variables are created, the five constraint families are added in the
   * source's order, and `Z` is the variable to minimise.
   */
  method BuildModel(inst: Instance) returns (r: Result<Model, InputError>)
    ensures r.Ok? <==> WellFormed(inst)
    ensures r.Ok? ==> r.value == Formulate(inst)
    ensures r.Err? ==> Violates(inst, r.error)
  {
    var problem := Validate(inst);
    if problem.Some? {
      return Err(problem.value);
    }
    var variables := DeclareAssignmentVariables(inst);
    var total := Sum(inst.credits);
    variables := variables + YDecls(inst) + [VarDecl(Z, 0, total)];

    var coverage := AddCoverage(inst);
    var eligibility := AddEligibility(inst);
    var conflicts := AddConflicts(inst);
    var loads := AddLoads(inst);
    var linkage := AddLinkage(inst);
    var constraints := coverage + eligibility + conflicts + loads + linkage;

    r := Ok(Model(variables, constraints, Z));
  }
}
