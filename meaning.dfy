/**
 * What the generated program means. For each variable family and each
 * constraint family: the law a valuation obeys exactly when it satisfies
 * the family (the counts and contents of the families are in `Shape`). Together they say
 * that the feasible valuations of the program are exactly the valid
 * assignments with their loads in `Y` and an upper bound of the loads in `Z`.
 */
module Meaning {
  import opened LinearProgram
  import opened CourseAssignment
  import opened Formulation

  // ---------------------------------------------------------------------
  // Variables

  lemma {:induction false} XDeclRowShape(inst: Instance, t: int, m: nat)
    requires m <= |inst.courses|
    ensures |XDeclRow(inst, t, m)| == m
    ensures forall b :: 0 <= b < m ==> XDeclRow(inst, t, m)[b] == VarDecl(X(t, inst.courses[b]), 0, 1)
  {
    if m > 0 {
      XDeclRowShape(inst, t, m - 1);
    }
  }

  /** A declaration of a boolean `X[t, c]` for a teacher among the first `n` and a course. */
  predicate AssignmentDecl(inst: Instance, n: nat, d: VarDecl)
    requires n <= |inst.teachers|
  {
    d.v.X? && d.lo == 0 && d.hi == 1 && d.v.teacher in inst.teachers[..n] && d.v.course in inst.courses
  }

  lemma {:induction false} XDeclsLength(inst: Instance, n: nat)
    requires n <= |inst.teachers|
    ensures |XDecls(inst, n)| == n * |inst.courses|
  {
    if n > 0 {
      XDeclsLength(inst, n - 1);
      XDeclRowShape(inst, inst.teachers[n - 1], |inst.courses|);
      assert (n - 1) * |inst.courses| + |inst.courses| == n * |inst.courses|;
    }
  }

  lemma {:induction false} XDeclsElements(inst: Instance, n: nat)
    requires n <= |inst.teachers|
    ensures forall k :: 0 <= k < |XDecls(inst, n)| ==> AssignmentDecl(inst, n, XDecls(inst, n)[k])
  {
    if n > 0 {
      var ts, cs := inst.teachers, inst.courses;
      XDeclsElements(inst, n - 1);
      var prev, row := XDecls(inst, n - 1), XDeclRow(inst, ts[n - 1], |cs|);
      XDeclRowShape(inst, ts[n - 1], |cs|);
      assert ts[..n] == ts[..n - 1] + [ts[n - 1]];
      forall k | 0 <= k < |prev + row| ensures AssignmentDecl(inst, n, (prev + row)[k]) {
        if k < |prev| {
          assert (prev + row)[k] == prev[k] && AssignmentDecl(inst, n - 1, prev[k]);
        } else {
          assert (prev + row)[k] == row[k - |prev|];
        }
      }
    }
  }

  lemma {:induction false} XDeclsComplete(inst: Instance, n: nat)
    requires n <= |inst.teachers|
    ensures forall a, b :: 0 <= a < n && 0 <= b < |inst.courses| ==>
      VarDecl(X(inst.teachers[a], inst.courses[b]), 0, 1) in XDecls(inst, n)
  {
    if n > 0 {
      var ts, cs := inst.teachers, inst.courses;
      XDeclsComplete(inst, n - 1);
      var prev, row := XDecls(inst, n - 1), XDeclRow(inst, ts[n - 1], |cs|);
      XDeclRowShape(inst, ts[n - 1], |cs|);
      forall a, b | 0 <= a < n && 0 <= b < |cs| ensures VarDecl(X(ts[a], cs[b]), 0, 1) in prev + row {
        if a < n - 1 {
          assert VarDecl(X(ts[a], cs[b]), 0, 1) in prev;
        } else {
          assert (prev + row)[|prev| + b] == row[b];
        }
      }
    }
  }

  lemma {:induction false} XDeclsDistinct(inst: Instance, n: nat)
    requires n <= |inst.teachers| && Distinct(inst.teachers) && Distinct(inst.courses)
    ensures forall i, j :: 0 <= i < j < |XDecls(inst, n)| ==> XDecls(inst, n)[i].v != XDecls(inst, n)[j].v
  {
    if n > 0 {
      var ts, cs := inst.teachers, inst.courses;
      XDeclsDistinct(inst, n - 1);
      XDeclsElements(inst, n - 1);
      var prev, row := XDecls(inst, n - 1), XDeclRow(inst, ts[n - 1], |cs|);
      XDeclRowShape(inst, ts[n - 1], |cs|);
      var done := ts[..n - 1];
      assert ts[n - 1] !in done by {
        forall a | 0 <= a < |done| ensures done[a] != ts[n - 1] {
          assert done[a] == ts[a];
        }
      }
      var all := prev + row;
      forall i, j | 0 <= i < j < |all| ensures all[i].v != all[j].v {
        if j < |prev| {
          assert all[i] == prev[i] && all[j] == prev[j];
        } else if i < |prev| {
          assert all[i] == prev[i] && AssignmentDecl(inst, n - 1, prev[i]);
          assert all[j] == row[j - |prev|];
        } else {
          assert all[i] == row[i - |prev|] && all[j] == row[j - |prev|];
          assert cs[i - |prev|] != cs[j - |prev|];
        }
      }
    }
  }

  /**
   * There are |teachers| * |courses| boolean decision variables, each for a
   * declared teacher and course, every pair has one, and no two are the same.
   */
  lemma AssignmentVariables(inst: Instance)
    requires WellFormed(inst)
    ensures |XDecls(inst, |inst.teachers|)| == |inst.teachers| * |inst.courses|
    ensures forall k :: 0 <= k < |XDecls(inst, |inst.teachers|)| ==>
      AssignmentDecl(inst, |inst.teachers|, XDecls(inst, |inst.teachers|)[k])
    ensures forall a, b :: 0 <= a < |inst.teachers| && 0 <= b < |inst.courses| ==>
      VarDecl(X(inst.teachers[a], inst.courses[b]), 0, 1) in XDecls(inst, |inst.teachers|)
    ensures forall i, j :: 0 <= i < j < |XDecls(inst, |inst.teachers|)| ==>
      XDecls(inst, |inst.teachers|)[i].v != XDecls(inst, |inst.teachers|)[j].v
  {
    XDeclsLength(inst, |inst.teachers|);
    XDeclsElements(inst, |inst.teachers|);
    XDeclsComplete(inst, |inst.teachers|);
    XDeclsDistinct(inst, |inst.teachers|);
  }

  lemma XDeclRowBounds(inst: Instance, val: Valuation, t: int)
    ensures WithinBounds(XDeclRow(inst, t, |inst.courses|), val) <==>
      forall b :: 0 <= b < |inst.courses| ==> 0 <= val(X(t, inst.courses[b])) <= 1
  {
    XDeclRowShape(inst, t, |inst.courses|);
  }

  lemma {:induction false} XDeclsBounds(inst: Instance, val: Valuation, n: nat)
    requires n <= |inst.teachers|
    ensures WithinBounds(XDecls(inst, n), val) <==>
      forall a, b :: 0 <= a < n && 0 <= b < |inst.courses| ==> 0 <= val(X(inst.teachers[a], inst.courses[b])) <= 1
  {
    if n > 0 {
      var ts, cs := inst.teachers, inst.courses;
      XDeclsBounds(inst, val, n - 1);
      XDeclRowBounds(inst, val, ts[n - 1]);
      WithinBoundsAppend(XDecls(inst, n - 1), XDeclRow(inst, ts[n - 1], |cs|), val);
    }
  }

  /**
   * The declared bounds hold exactly when every `X[t, c]` is 0 or 1 and every
   * `Y` entry and `Z` lie in `[0, sum(credits)]`.
   */
  lemma VariableBoundsMeaning(inst: Instance, val: Valuation)
    ensures WithinBounds(AllVariables(inst), val) <==> Binary(inst, val) && LoadBounds(inst, val)
  {
    XDeclsBounds(inst, val, |inst.teachers|);
    var xs, ys, z := XDecls(inst, |inst.teachers|), YDecls(inst), [VarDecl(Z, 0, Sum(inst.credits))];
    WithinBoundsAppend(xs, ys, val);
    WithinBoundsAppend(xs + ys, z, val);
    WithinBoundsSingle(VarDecl(Z, 0, Sum(inst.credits)), val);
    assert forall k :: 0 <= k < |ys| ==> ys[k] == VarDecl(Y(k), 0, Sum(inst.credits));
  }

  // ---------------------------------------------------------------------
  // Coverage

  /**
   * Under 0/1 values the column sum `sum(X[t, c] for t in ts)` is never
   * negative, and is 0 exactly when no position holds `c`.
   */
  lemma {:induction false} ColumnSumZero(ts: seq<int>, c: int, val: Valuation)
    requires forall a :: 0 <= a < |ts| ==> val(X(ts[a], c)) == 0 || val(X(ts[a], c)) == 1
    ensures Eval(ColumnTerms(ts, c), val) >= 0
    ensures Eval(ColumnTerms(ts, c), val) == 0 <==> forall a :: 0 <= a < |ts| ==> val(X(ts[a], c)) != 1
  {
    if ts != [] {
      var rest := ts[1..];
      assert forall a :: 0 <= a < |rest| ==> rest[a] == ts[a + 1];
      ColumnSumZero(rest, c, val);
      EvalCons(Term(X(ts[0], c), 1), ColumnTerms(rest, c), val);
      if Eval(ColumnTerms(rest, c), val) == 0 && val(X(ts[0], c)) != 1 {
        forall a | 0 < a < |ts| ensures val(X(ts[a], c)) != 1 {
          assert ts[a] == rest[a - 1];
        }
      }
    }
  }

  /** Under 0/1 values the column sum is 1 exactly when exactly one position holds `c`. */
  lemma {:induction false} ColumnSum(ts: seq<int>, c: int, val: Valuation)
    requires forall a :: 0 <= a < |ts| ==> val(X(ts[a], c)) == 0 || val(X(ts[a], c)) == 1
    ensures Eval(ColumnTerms(ts, c), val) == 1 <==> ExactlyOneTeacher(ts, c, val)
  {
    if ts != [] {
      var rest := ts[1..];
      assert forall a :: 0 <= a < |rest| ==> rest[a] == ts[a + 1];
      ColumnSum(rest, c, val);
      ColumnSumZero(rest, c, val);
      EvalCons(Term(X(ts[0], c), 1), ColumnTerms(rest, c), val);
      var tail := Eval(ColumnTerms(rest, c), val);
      if val(X(ts[0], c)) == 1 {
        if tail == 0 {
          forall a | 0 < a < |ts| ensures val(X(ts[a], c)) != 1 {
            assert ts[a] == rest[a - 1];
          }
          assert ExactlyOneTeacher(ts, c, val);
        } else {
          var a1 :| 0 <= a1 < |rest| && val(X(rest[a1], c)) == 1;
          assert val(X(ts[a1 + 1], c)) == 1;
        }
      } else {
        if ExactlyOneTeacher(rest, c, val) {
          var a :| 0 <= a < |rest| && val(X(rest[a], c)) == 1 &&
            forall a' :: 0 <= a' < |rest| && val(X(rest[a'], c)) == 1 ==> a' == a;
          assert val(X(ts[a + 1], c)) == 1;
          forall a' | 0 <= a' < |ts| && val(X(ts[a'], c)) == 1 ensures a' == a + 1 {
            assert val(X(rest[a' - 1], c)) == 1;
          }
        }
        if ExactlyOneTeacher(ts, c, val) {
          var a :| 0 <= a < |ts| && val(X(ts[a], c)) == 1 &&
            forall a' :: 0 <= a' < |ts| && val(X(ts[a'], c)) == 1 ==> a' == a;
          assert val(X(rest[a - 1], c)) == 1;
          forall a' | 0 <= a' < |rest| && val(X(rest[a'], c)) == 1 ensures a' == a - 1 {
            assert val(X(ts[a' + 1], c)) == 1;
          }
        }
      }
    }
  }

  lemma {:induction false} CoveragePrefix(inst: Instance, val: Valuation, n: nat)
    requires n <= |inst.courses|
    ensures SatisfiesAll(Coverage(inst, n), val) <==>
      forall b :: 0 <= b < n ==> Satisfies(CoverageRow(inst.teachers, inst.courses[b]), val)
  {
    if n > 0 {
      CoveragePrefix(inst, val, n - 1);
      var row := CoverageRow(inst.teachers, inst.courses[n - 1]);
      SatisfiesAllAppend(Coverage(inst, n - 1), [row], val);
      SatisfiesAllSingle(row, val);
    }
  }

  /** Under 0/1 values the coverage constraints hold exactly when every course has exactly one teacher. */
  lemma CoverageMeaning(inst: Instance, val: Valuation)
    requires Binary(inst, val)
    ensures SatisfiesAll(Coverage(inst, |inst.courses|), val) <==> Covered(inst, val)
  {
    var ts, cs := inst.teachers, inst.courses;
    CoveragePrefix(inst, val, |cs|);
    forall b | 0 <= b < |cs|
      ensures Satisfies(CoverageRow(ts, cs[b]), val) <==> ExactlyOneTeacher(ts, cs[b], val)
    {
      forall a | 0 <= a < |ts| ensures val(X(ts[a], cs[b])) == 0 || val(X(ts[a], cs[b])) == 1 {
      }
      ColumnSum(ts, cs[b], val);
    }
  }

  // ---------------------------------------------------------------------
  // Eligibility

  lemma {:induction false} EligibilityRowMeaning(inst: Instance, val: Valuation, t: int, m: nat)
    requires (m > 0 ==> t in inst.preferences) && m <= |inst.courses|
    ensures SatisfiesAll(EligibilityRow(inst, t, m), val) <==>
      forall b :: 0 <= b < m && inst.courses[b] !in inst.preferences[t] ==> val(X(t, inst.courses[b])) == 0
  {
    if m > 0 {
      EligibilityRowMeaning(inst, val, t, m - 1);
      var c := inst.courses[m - 1];
      var last := if c !in inst.preferences[t] then [FixZero(t, c)] else [];
      SatisfiesAllAppend(EligibilityRow(inst, t, m - 1), last, val);
      if c !in inst.preferences[t] {
        EvalCons(Term(X(t, c), 1), [], val);
        assert FixZero(t, c).terms == [Term(X(t, c), 1)] + [];
        SatisfiesAllSingle(FixZero(t, c), val);
      } else {
        assert SatisfiesAll(last, val);
      }
    }
  }

  lemma {:induction false} EligibilityPrefix(inst: Instance, val: Valuation, n: nat)
    requires TeachersHavePreferences(inst) && n <= |inst.teachers|
    ensures SatisfiesAll(Eligibility(inst, n), val) <==>
      forall a, b :: 0 <= a < n && 0 <= b < |inst.courses| && inst.teachers[a] in inst.preferences ==>
        inst.courses[b] !in inst.preferences[inst.teachers[a]] ==> val(X(inst.teachers[a], inst.courses[b])) == 0
  {
    if n > 0 {
      EligibilityPrefix(inst, val, n - 1);
      var t := inst.teachers[n - 1];
      EligibilityRowMeaning(inst, val, t, |inst.courses|);
      SatisfiesAllAppend(Eligibility(inst, n - 1), EligibilityRow(inst, t, |inst.courses|), val);
    }
  }

  /**
   * Under 0/1 values the eligibility constraints hold exactly when every
   * teacher holds only courses from its preference list.
   */
  lemma EligibilityMeaning(inst: Instance, val: Valuation)
    requires TeachersHavePreferences(inst) && Binary(inst, val)
    ensures SatisfiesAll(Eligibility(inst, |inst.teachers|), val) <==> Eligible(inst, val)
  {
    EligibilityPrefix(inst, val, |inst.teachers|);
  }

  // ---------------------------------------------------------------------
  // Conflict exclusion

  lemma {:induction false} ConflictRowMeaning(ts: seq<int>, p: (int, int), m: nat, val: Valuation)
    requires m <= |ts|
    ensures SatisfiesAll(ConflictRow(ts, p, m), val) <==>
      forall a :: 0 <= a < m ==> val(X(ts[a], p.0)) + val(X(ts[a], p.1)) <= 1
  {
    if m > 0 {
      ConflictRowMeaning(ts, p, m - 1, val);
      var e := Exclusion(ts[m - 1], p);
      SatisfiesAllAppend(ConflictRow(ts, p, m - 1), [e], val);
      SatisfiesAllSingle(e, val);
      EvalCons(Term(X(ts[m - 1], p.1), 1), [], val);
      EvalCons(Term(X(ts[m - 1], p.0), 1), [Term(X(ts[m - 1], p.1), 1)], val);
      assert e.terms == [Term(X(ts[m - 1], p.0), 1)] + [Term(X(ts[m - 1], p.1), 1)];
    }
  }

  lemma {:induction false} ConflictsPrefix(inst: Instance, val: Valuation, n: nat)
    requires n <= |inst.conflicts|
    ensures SatisfiesAll(Conflicts(inst, n), val) <==>
      forall k, a :: 0 <= k < n && 0 <= a < |inst.teachers| ==>
        val(X(inst.teachers[a], inst.conflicts[k].0)) + val(X(inst.teachers[a], inst.conflicts[k].1)) <= 1
  {
    if n > 0 {
      ConflictsPrefix(inst, val, n - 1);
      var row := ConflictRow(inst.teachers, inst.conflicts[n - 1], |inst.teachers|);
      ConflictRowMeaning(inst.teachers, inst.conflicts[n - 1], |inst.teachers|, val);
      SatisfiesAllAppend(Conflicts(inst, n - 1), row, val);
    }
  }

  /**
   * Under 0/1 values the exclusion constraints hold exactly when no teacher
   * holds both courses of a conflict pair.
   */
  lemma ConflictMeaning(inst: Instance, val: Valuation)
    requires ConflictsNameCourses(inst) && Binary(inst, val)
    ensures SatisfiesAll(Conflicts(inst, |inst.conflicts|), val) <==> ConflictFree(inst, val)
  {
    var ts, cs, ps := inst.teachers, inst.courses, inst.conflicts;
    ConflictsPrefix(inst, val, |ps|);
    forall k, a | 0 <= k < |ps| && 0 <= a < |ts|
      ensures val(X(ts[a], ps[k].0)) + val(X(ts[a], ps[k].1)) <= 1 <==>
        !(val(X(ts[a], ps[k].0)) == 1 && val(X(ts[a], ps[k].1)) == 1)
    {
      assert DeclaredPair(inst, ps[k]);
      var b0 :| 0 <= b0 < |cs| && cs[b0] == ps[k].0;
      var b1 :| 0 <= b1 < |cs| && cs[b1] == ps[k].1;
      assert val(X(ts[a], cs[b0])) == 0 || val(X(ts[a], cs[b0])) == 1;
      assert val(X(ts[a], cs[b1])) == 0 || val(X(ts[a], cs[b1])) == 1;
    }
  }

  // ---------------------------------------------------------------------
  // Load definition

  /** Under 0/1 values `sum(credits[c] * X[t, c])` is the credit sum of the courses `t` holds. */
  lemma {:induction false} LoadTermsValue(credits: seq<int>, cs: seq<int>, t: int, val: Valuation)
    requires ValidIndices(credits, cs)
    requires forall b :: 0 <= b < |cs| ==> val(X(t, cs[b])) == 0 || val(X(t, cs[b])) == 1
    ensures Eval(LoadTerms(credits, cs, t), val) == -CreditSum(credits, AssignedCourses(cs, t, val))
  {
    if cs != [] {
      var rest := cs[1..];
      assert cs[0] in cs && forall c :: c in rest ==> c in cs;
      assert forall b :: 0 <= b < |rest| ==> rest[b] == cs[b + 1];
      LoadTermsValue(credits, rest, t, val);
      var terms := LoadTerms(credits, cs, t);
      assert terms[0] == Term(X(t, cs[0]), -credits[cs[0]]) && terms[1..] == LoadTerms(credits, rest, t);
      var asg := AssignedCourses(cs, t, val);
      if val(X(t, cs[0])) == 1 {
        assert asg == [cs[0]] + AssignedCourses(rest, t, val);
        assert asg[1..] == AssignedCourses(rest, t, val);
      } else {
        assert asg == AssignedCourses(rest, t, val);
      }
    }
  }

  lemma {:induction false} LoadsPrefix(inst: Instance, val: Valuation, n: nat)
    requires ValidIndices(inst.credits, inst.courses) && n <= |inst.teachers|
    ensures SatisfiesAll(Loads(inst, n), val) <==>
      forall a :: 0 <= a < n ==> Satisfies(LoadRow(inst, inst.teachers[a]), val)
  {
    if n > 0 {
      LoadsPrefix(inst, val, n - 1);
      var row := LoadRow(inst, inst.teachers[n - 1]);
      SatisfiesAllAppend(Loads(inst, n - 1), [row], val);
      SatisfiesAllSingle(row, val);
    }
  }

  /** Under 0/1 values `Y[t] - sum(credits[c] * X[t, c]) == 0` holds exactly when `Y[t]` is `t`'s load. */
  lemma LoadRowMeaning(inst: Instance, val: Valuation, a: nat)
    requires ValidIndices(inst.credits, inst.courses) && Binary(inst, val) && a < |inst.teachers|
    ensures Satisfies(LoadRow(inst, inst.teachers[a]), val) <==>
      val(Y(inst.teachers[a])) == LoadOf(inst, val, inst.teachers[a])
  {
    var t := inst.teachers[a];
    var row := LoadRow(inst, t);
    forall b | 0 <= b < |inst.courses| ensures val(X(t, inst.courses[b])) == 0 || val(X(t, inst.courses[b])) == 1 {
    }
    LoadTermsValue(inst.credits, inst.courses, t, val);
    EvalCons(Term(Y(t), 1), LoadTerms(inst.credits, inst.courses, t), val);
  }

  /** Under 0/1 values the load constraints hold exactly when every `Y[t]` is teacher `t`'s load. */
  lemma LoadMeaning(inst: Instance, val: Valuation)
    requires ValidIndices(inst.credits, inst.courses) && Binary(inst, val)
    ensures SatisfiesAll(Loads(inst, |inst.teachers|), val) <==> LoadsMatch(inst, val)
  {
    LoadsPrefix(inst, val, |inst.teachers|);
    forall a | 0 <= a < |inst.teachers|
      ensures Satisfies(LoadRow(inst, inst.teachers[a]), val) <==>
        val(Y(inst.teachers[a])) == LoadOf(inst, val, inst.teachers[a])
    {
      LoadRowMeaning(inst, val, a);
    }
  }

  // ---------------------------------------------------------------------
  // Max-load linkage

  lemma {:induction false} LinkagePrefix(inst: Instance, val: Valuation, n: nat)
    requires n <= |inst.teachers|
    ensures SatisfiesAll(Linkage(inst, n), val) <==>
      forall a :: 0 <= a < n ==> val(Z) >= val(Y(inst.teachers[a]))
  {
    if n > 0 {
      LinkagePrefix(inst, val, n - 1);
      var d := Dominates(inst.teachers[n - 1]);
      SatisfiesAllAppend(Linkage(inst, n - 1), [d], val);
      var t := inst.teachers[n - 1];
      SatisfiesAllSingle(d, val);
      EvalCons(Term(Y(t), -1), [], val);
      EvalCons(Term(Z, 1), [Term(Y(t), -1)], val);
      assert d.terms == [Term(Z, 1)] + [Term(Y(t), -1)];
    }
  }

  /** The linkage constraints hold exactly when `Z` is at least every `Y[t]`. */
  lemma LinkageMeaning(inst: Instance, val: Valuation)
    ensures SatisfiesAll(Linkage(inst, |inst.teachers|), val) <==> ZDominates(inst, val)
  {
    LinkagePrefix(inst, val, |inst.teachers|);
  }

  // ---------------------------------------------------------------------
  // The whole program

  /**
   * A valuation is feasible for the generated program exactly when it is a
   * valid assignment (0/1, every course covered once, only preferred
   * courses, no conflict pair on one teacher), every `Y[t]` is `t`'s load,
   * `Z` is at least every load, and `Y` and `Z` lie in `[0, sum(credits)]`.
   */
  lemma FormulationMeaning(inst: Instance, val: Valuation)
    requires WellFormed(inst)
    ensures Feasible(Formulate(inst), val) <==>
      ValidAssignment(inst, val) && LoadsMatch(inst, val) && ZDominates(inst, val) && LoadBounds(inst, val)
  {
    VariableBoundsMeaning(inst, val);
    if Binary(inst, val) {
      var c1, c2, c3 := Coverage(inst, |inst.courses|), Eligibility(inst, |inst.teachers|), Conflicts(inst, |inst.conflicts|);
      var c4, c5 := Loads(inst, |inst.teachers|), Linkage(inst, |inst.teachers|);
      CoverageMeaning(inst, val);
      EligibilityMeaning(inst, val);
      ConflictMeaning(inst, val);
      LoadMeaning(inst, val);
      LinkageMeaning(inst, val);
      SatisfiesAllAppend(c1, c2, val);
      SatisfiesAllAppend(c1 + c2, c3, val);
      SatisfiesAllAppend(c1 + c2 + c3, c4, val);
      SatisfiesAllAppend(c1 + c2 + c3 + c4, c5, val);
    }
  }
}
