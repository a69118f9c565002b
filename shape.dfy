/**
 * The shape of the generated program: how many constraints each family
 * contributes and which ones, term by term. In particular the eligibility
 * family holds `X[t, c] == 0` exactly for the pairs where `c` is missing from
 * `t`'s preference list, and the exclusion family has one constraint per
 * conflict pair and teacher.
 */
module Shape {
  import opened LinearProgram
  import opened CourseAssignment
  import opened Formulation
  import opened Meaning

  // ---------------------------------------------------------------------
  // Coverage

  /** The coverage sum has one term `1 * X[t, c]` per teacher, in teacher order. */
  lemma {:induction false} ColumnTermsShape(ts: seq<int>, c: int)
    ensures |ColumnTerms(ts, c)| == |ts|
    ensures forall a :: 0 <= a < |ts| ==> ColumnTerms(ts, c)[a] == Term(X(ts[a], c), 1)
  {
    if ts != [] {
      ColumnTermsShape(ts[1..], c);
      forall a | 1 <= a < |ts| ensures ColumnTerms(ts, c)[a] == Term(X(ts[a], c), 1) {
        assert ColumnTerms(ts, c)[a] == ColumnTerms(ts[1..], c)[a - 1];
      }
    }
  }

  /** One coverage constraint per course, in course order. */
  lemma {:induction false} CoverageShape(inst: Instance, n: nat)
    requires n <= |inst.courses|
    ensures |Coverage(inst, n)| == n
    ensures forall b :: 0 <= b < n ==> Coverage(inst, n)[b] == CoverageRow(inst.teachers, inst.courses[b])
  {
    if n > 0 {
      CoverageShape(inst, n - 1);
    }
  }

  // ---------------------------------------------------------------------
  // Eligibility

  lemma {:induction false} EligibilityRowShape(inst: Instance, t: int, m: nat)
    requires (m > 0 ==> t in inst.preferences) && m <= |inst.courses|
    ensures forall e :: e in EligibilityRow(inst, t, m) ==>
      exists b :: 0 <= b < m && e == FixZero(t, inst.courses[b]) && inst.courses[b] !in inst.preferences[t]
    ensures forall b :: 0 <= b < m && inst.courses[b] !in inst.preferences[t] ==>
      FixZero(t, inst.courses[b]) in EligibilityRow(inst, t, m)
  {
    if m > 0 {
      EligibilityRowShape(inst, t, m - 1);
    }
  }

  /** Every eligibility constraint is `X[t, c] == 0` for a teacher and a course it did not list. */
  lemma {:induction false} EligibilityOnlyForbidden(inst: Instance, n: nat)
    requires TeachersHavePreferences(inst) && n <= |inst.teachers|
    ensures forall e :: e in Eligibility(inst, n) ==>
      exists a, b :: 0 <= a < n && 0 <= b < |inst.courses| && inst.teachers[a] in inst.preferences &&
        e == FixZero(inst.teachers[a], inst.courses[b]) && inst.courses[b] !in inst.preferences[inst.teachers[a]]
  {
    if n > 0 {
      var ts, cs := inst.teachers, inst.courses;
      EligibilityOnlyForbidden(inst, n - 1);
      var t := ts[n - 1];
      var prev, row := Eligibility(inst, n - 1), EligibilityRow(inst, t, |cs|);
      EligibilityRowShape(inst, t, |cs|);
      forall e | e in prev + row
        ensures exists a, b :: (0 <= a < n && 0 <= b < |cs| && ts[a] in inst.preferences &&
          e == FixZero(ts[a], cs[b]) && cs[b] !in inst.preferences[ts[a]])
      {
        if e in prev {
          var a, b :| 0 <= a < n - 1 && 0 <= b < |cs| && ts[a] in inst.preferences &&
            e == FixZero(ts[a], cs[b]) && cs[b] !in inst.preferences[ts[a]];
          assert a < n;
        } else {
          var b :| 0 <= b < |cs| && e == FixZero(t, cs[b]) && cs[b] !in inst.preferences[t];
          assert ts[n - 1] in inst.preferences && e == FixZero(ts[n - 1], cs[b]);
        }
      }
    }
  }

  /** Every teacher and course it did not list has its `X[t, c] == 0`. */
  lemma {:induction false} EligibilityComplete(inst: Instance, n: nat)
    requires TeachersHavePreferences(inst) && n <= |inst.teachers|
    ensures forall a, b ::
      (0 <= a < n && 0 <= b < |inst.courses| && inst.teachers[a] in inst.preferences &&
       inst.courses[b] !in inst.preferences[inst.teachers[a]]) ==>
        FixZero(inst.teachers[a], inst.courses[b]) in Eligibility(inst, n)
  {
    if n > 0 {
      var ts, cs := inst.teachers, inst.courses;
      EligibilityComplete(inst, n - 1);
      var t := ts[n - 1];
      EligibilityRowShape(inst, t, |cs|);
    }
  }

  /**
   * The eligibility family fixes `X[t, c] == 0` exactly for the teachers and
   * courses where `c` is not on `t`'s preference list: there is no
   * constraint for a preferred pair.
   */
  lemma EligibilityShape(inst: Instance)
    requires TeachersHavePreferences(inst)
    ensures forall a, b :: 0 <= a < |inst.teachers| && 0 <= b < |inst.courses| && inst.teachers[a] in inst.preferences ==>
      (FixZero(inst.teachers[a], inst.courses[b]) in Eligibility(inst, |inst.teachers|) <==>
        inst.courses[b] !in inst.preferences[inst.teachers[a]])
  {
    var ts, cs := inst.teachers, inst.courses;
    EligibilityOnlyForbidden(inst, |ts|);
    EligibilityComplete(inst, |ts|);
    forall a, b | 0 <= a < |ts| && 0 <= b < |cs| && ts[a] in inst.preferences &&
      FixZero(ts[a], cs[b]) in Eligibility(inst, |ts|)
      ensures cs[b] !in inst.preferences[ts[a]]
    {
      var a', b' :| 0 <= a' < |ts| && 0 <= b' < |cs| && ts[a'] in inst.preferences &&
        FixZero(ts[a], cs[b]) == FixZero(ts[a'], cs[b']) && cs[b'] !in inst.preferences[ts[a']];
    }
  }

  // ---------------------------------------------------------------------
  // Conflict exclusion

  lemma {:induction false} ConflictRowShape(ts: seq<int>, p: (int, int), m: nat)
    requires m <= |ts|
    ensures |ConflictRow(ts, p, m)| == m
    ensures forall a :: 0 <= a < m ==> ConflictRow(ts, p, m)[a] == Exclusion(ts[a], p)
  {
    if m > 0 {
      ConflictRowShape(ts, p, m - 1);
    }
  }

  /** The exclusion family has `|conflicts| * |teachers|` constraints. */
  lemma {:induction false} ConflictsCount(inst: Instance, n: nat)
    requires n <= |inst.conflicts|
    ensures |Conflicts(inst, n)| == n * |inst.teachers|
  {
    if n > 0 {
      ConflictsCount(inst, n - 1);
      ConflictRowShape(inst.teachers, inst.conflicts[n - 1], |inst.teachers|);
      assert (n - 1) * |inst.teachers| + |inst.teachers| == n * |inst.teachers|;
    }
  }

  /** The exclusion family holds `X[t, i] + X[t, j] <= 1` for every conflict pair and every teacher. */
  lemma {:induction false} ConflictsComplete(inst: Instance, n: nat)
    requires n <= |inst.conflicts|
    ensures forall k, a :: 0 <= k < n && 0 <= a < |inst.teachers| ==>
      Exclusion(inst.teachers[a], inst.conflicts[k]) in Conflicts(inst, n)
  {
    if n > 0 {
      var ts, ps := inst.teachers, inst.conflicts;
      ConflictsComplete(inst, n - 1);
      var prev, row := Conflicts(inst, n - 1), ConflictRow(ts, ps[n - 1], |ts|);
      ConflictRowShape(ts, ps[n - 1], |ts|);
      forall k, a | 0 <= k < n && 0 <= a < |ts| ensures Exclusion(ts[a], ps[k]) in prev + row {
        if k == n - 1 {
          assert row[a] == Exclusion(ts[a], ps[k]);
        } else {
          assert Exclusion(ts[a], ps[k]) in prev;
        }
      }
    }
  }

  /** Every constraint of the exclusion family is `X[t, i] + X[t, j] <= 1` for a teacher and a conflict pair. */
  lemma {:induction false} ConflictsOnlyExclusions(inst: Instance, n: nat)
    requires n <= |inst.conflicts|
    ensures forall e :: e in Conflicts(inst, n) ==>
      exists k, a :: 0 <= k < n && 0 <= a < |inst.teachers| && e == Exclusion(inst.teachers[a], inst.conflicts[k])
  {
    if n > 0 {
      var ts, ps := inst.teachers, inst.conflicts;
      ConflictsOnlyExclusions(inst, n - 1);
      var prev, row := Conflicts(inst, n - 1), ConflictRow(ts, ps[n - 1], |ts|);
      ConflictRowShape(ts, ps[n - 1], |ts|);
      forall e | e in prev + row
        ensures exists k, a :: 0 <= k < n && 0 <= a < |ts| && e == Exclusion(ts[a], ps[k])
      {
        if e in prev {
          var k, a :| 0 <= k < n - 1 && 0 <= a < |ts| && e == Exclusion(ts[a], ps[k]);
          assert 0 <= k < n;
        } else {
          var a :| 0 <= a < |row| && row[a] == e;
          assert e == Exclusion(ts[a], ps[n - 1]);
        }
      }
    }
  }

  // ---------------------------------------------------------------------
  // Loads and linkage

  /** The load sum has one term `-credits[c] * X[t, c]` per course, in course order. */
  lemma {:induction false} LoadTermsShape(credits: seq<int>, cs: seq<int>, t: int)
    requires ValidIndices(credits, cs)
    ensures |LoadTerms(credits, cs, t)| == |cs|
    ensures forall b :: 0 <= b < |cs| ==> (0 <= cs[b] < |credits| &&
      LoadTerms(credits, cs, t)[b] == Term(X(t, cs[b]), -credits[cs[b]]))
  {
    if cs != [] {
      var rest := cs[1..];
      assert forall c :: c in rest ==> c in cs;
      LoadTermsShape(credits, rest, t);
      forall b | 0 <= b < |cs| ensures 0 <= cs[b] < |credits| && LoadTerms(credits, cs, t)[b] == Term(X(t, cs[b]), -credits[cs[b]]) {
        assert cs[b] in cs;
        if b > 0 {
          assert cs[b] == rest[b - 1];
          assert LoadTerms(credits, cs, t)[b] == LoadTerms(credits, rest, t)[b - 1];
        }
      }
    }
  }

  /** One load definition per teacher, in teacher order. */
  lemma {:induction false} LoadsShape(inst: Instance, n: nat)
    requires ValidIndices(inst.credits, inst.courses) && n <= |inst.teachers|
    ensures |Loads(inst, n)| == n
    ensures forall a :: 0 <= a < n ==> Loads(inst, n)[a] == LoadRow(inst, inst.teachers[a])
  {
    if n > 0 {
      LoadsShape(inst, n - 1);
    }
  }

  /** One `Z >= Y[t]` per teacher, in teacher order. */
  lemma {:induction false} LinkageShape(inst: Instance, n: nat)
    requires n <= |inst.teachers|
    ensures |Linkage(inst, n)| == n
    ensures forall a :: 0 <= a < n ==> Linkage(inst, n)[a] == Dominates(inst.teachers[a])
  {
    if n > 0 {
      LinkageShape(inst, n - 1);
    }
  }

  /**
   * The size of the whole program: `|T| * |C| + |T| + 1` variables, and
   * `|C|` coverage, the eligibility, `|conflicts| * |T|` exclusion, `|T|`
   * load and `|T|` linkage constraints.
   */
  lemma ModelSize(inst: Instance)
    requires WellFormed(inst)
    ensures |Formulate(inst).variables| == |inst.teachers| * |inst.courses| + |inst.teachers| + 1
    ensures |Formulate(inst).constraints| ==
      |inst.courses| + |Eligibility(inst, |inst.teachers|)| + |inst.conflicts| * |inst.teachers| + 2 * |inst.teachers|
    ensures Formulate(inst).minimize == Z
  {
    XDeclsLength(inst, |inst.teachers|);
    CoverageShape(inst, |inst.courses|);
    ConflictsCount(inst, |inst.conflicts|);
    LoadsShape(inst, |inst.teachers|);
    LinkageShape(inst, |inst.teachers|);
  }
}
