/**
 * A course-assignment instance (teachers, courses, preference lists,
 * conflict pairs, credits), the checks the builder's lookups rely on, and
 * what an assignment of courses to teachers means: which courses a teacher
 * holds, the teacher's load, and the laws a valid assignment obeys.
 */
module CourseAssignment {
  import opened LinearProgram

  datatype Option<T> = None | Some(value: T)

  datatype Result<T, E> = Ok(value: T) | Err(error: E)

  /**
   * Teachers and courses are integer ids. `preferences[t]` lists the courses
   * teacher `t` is willing to teach, `conflicts` holds pairs of courses no
   * teacher may hold together, and `credits[c]` is the load of course `c`.
   */
  datatype Instance = Instance(
    teachers: seq<int>,
    courses: seq<int>,
    preferences: map<int, seq<int>>,
    conflicts: seq<(int, int)>,
    credits: seq<int>)

  predicate Distinct(s: seq<int>)
  {
    forall i, j :: 0 <= i < j < |s| ==> s[i] != s[j]
  }

  /** Every id in `ids` is a position of `s`. */
  predicate ValidIndices(s: seq<int>, ids: seq<int>)
  {
    forall c :: c in ids ==> 0 <= c < |s|
  }

  /** The load list `Y` is indexed by teacher id, so the ids are 0 .. n-1. */
  predicate TeacherIdsIndexLoads(inst: Instance)
  {
    ValidIndices(inst.teachers, inst.teachers) && Distinct(inst.teachers)
  }

  /** `credits` is indexed by course id. */
  predicate CourseIdsIndexCredits(inst: Instance)
  {
    ValidIndices(inst.credits, inst.courses) && Distinct(inst.courses)
  }

  /**
   * `preferences[t]` is read only while walking the courses, so a teacher
   * needs a preference list only when there is some course.
   */
  predicate TeachersHavePreferences(inst: Instance)
  {
    |inst.courses| > 0 ==> forall t :: t in inst.teachers ==> t in inst.preferences
  }

  /** A conflict pair names declared courses: `X[t, i]` and `X[t, j]` exist. */
  predicate DeclaredPair(inst: Instance, p: (int, int))
  {
    p.0 in inst.courses && p.1 in inst.courses
  }

  predicate ConflictsNameCourses(inst: Instance)
  {
    forall p :: p in inst.conflicts ==> DeclaredPair(inst, p)
  }

  /** Everything the builder's dictionary and list lookups rely on. */
  predicate WellFormed(inst: Instance)
  {
    && TeacherIdsIndexLoads(inst)
    && CourseIdsIndexCredits(inst)
    && TeachersHavePreferences(inst)
    && ConflictsNameCourses(inst)
  }

  predicate NonNegativeCredits(inst: Instance)
  {
    forall k :: 0 <= k < |inst.credits| ==> inst.credits[k] >= 0
  }

  /** The lookup that fails on a malformed instance, with the offending item. */
  datatype InputError =
    | MissingPreferences(teacher: int)            // preferences[t]
    | UndeclaredConflictCourse(pair: (int, int))  // X[t, i] or X[t, j]
    | TeacherIdOutOfRange(teacher: int)           // Y[t]
    | CreditIndexOutOfRange(course: int)          // credits[c]
    | DuplicateTeacher(teacher: int)
    | DuplicateCourse(course: int)

  /** The error names an item of the instance that really is malformed. */
  predicate Violates(inst: Instance, e: InputError)
  {
    match e
    case MissingPreferences(t) => |inst.courses| > 0 && t in inst.teachers && t !in inst.preferences
    case UndeclaredConflictCourse(p) => p in inst.conflicts && !DeclaredPair(inst, p)
    case TeacherIdOutOfRange(t) => t in inst.teachers && !(0 <= t < |inst.teachers|)
    case CreditIndexOutOfRange(c) => c in inst.courses && !(0 <= c < |inst.credits|)
    case DuplicateTeacher(t) => multiset(inst.teachers)[t] >= 2
    case DuplicateCourse(c) => multiset(inst.courses)[c] >= 2
  }

  /** The first element of `s` that fails `ok`, if any. */
  function FirstFailing<T(==)>(s: seq<T>, ok: T -> bool): (r: Option<T>)
    ensures r.None? <==> forall x :: x in s ==> ok(x)
    ensures r.Some? ==> r.value in s && !ok(r.value)
  {
    if s == [] then None
    else if !ok(s[0]) then Some(s[0])
    else
      var r := FirstFailing(s[1..], ok);
      assert forall x :: x in s ==> x == s[0] || x in s[1..];
      r
  }

  /** The first element of `s` that occurs again later, if any. */
  function FirstDuplicate(s: seq<int>): (r: Option<int>)
    ensures r.None? <==> Distinct(s)
    ensures r.Some? ==> multiset(s)[r.value] >= 2
  {
    if s == [] then None
    else
      assert s == [s[0]] + s[1..];
      if s[0] in s[1..] then
        assert multiset(s[1..])[s[0]] >= 1;
        Some(s[0])
      else
        var r := FirstDuplicate(s[1..]);
        assert Distinct(s) <==> Distinct(s[1..]) by {
          if Distinct(s[1..]) {
            forall i, j | 0 <= i < j < |s| ensures s[i] != s[j] {
              if i > 0 {
                assert s[i] == s[1..][i - 1] && s[j] == s[1..][j - 1];
              } else {
                assert s[j] in s[1..];
              }
            }
          }
          if Distinct(s) {
            forall i, j | 0 <= i < j < |s[1..]| ensures s[1..][i] != s[1..][j] {
              assert s[1..][i] == s[i + 1] && s[1..][j] == s[j + 1];
            }
          }
        }
        r
  }

  /**
   * Checks each kind of lookup the builder performs (`preferences[t]` when
   * there is a course, `X[t, i]` for a conflict pair, `Y[t]` and
   * `credits[c]`), and rejects repeated ids, which would make two entries
   * share one variable.
   */
  function Validate(inst: Instance): (r: Option<InputError>)
    ensures r.None? <==> WellFormed(inst)
    ensures r.Some? ==> Violates(inst, r.value)
  {
    match (if |inst.courses| == 0 then None else FirstFailing(inst.teachers, t => t in inst.preferences))
    case Some(t) => Some(MissingPreferences(t))
    case None =>
    match FirstFailing(inst.conflicts, p => DeclaredPair(inst, p))
    case Some(p) => Some(UndeclaredConflictCourse(p))
    case None =>
    match FirstFailing(inst.teachers, t => 0 <= t < |inst.teachers|)
    case Some(t) => Some(TeacherIdOutOfRange(t))
    case None =>
    match FirstFailing(inst.courses, c => 0 <= c < |inst.credits|)
    case Some(c) => Some(CreditIndexOutOfRange(c))
    case None =>
    match FirstDuplicate(inst.teachers)
    case Some(t) => Some(DuplicateTeacher(t))
    case None =>
    match FirstDuplicate(inst.courses)
    case Some(c) => Some(DuplicateCourse(c))
    case None => None
  }

  /**
   * With no courses the preference lists are never read: an instance is
   * accepted or rejected the same way whatever its preferences are.
   */
  lemma PreferencesUnreadWithoutCourses(inst: Instance, prefs: map<int, seq<int>>)
    requires |inst.courses| == 0
    ensures Validate(inst) == Validate(inst.(preferences := prefs))
  {
  }

  /** One teacher with no preference entry and no courses is accepted. */
  lemma TeacherWithoutCoursesAccepted()
    ensures Validate(Instance([0], [], map[], [], [])) == None
  {
  }

  /** `r` lists elements of `s` in the order they occur in `s`. */
  predicate Subsequence(r: seq<int>, s: seq<int>)
    decreases |s|
  {
    if r == [] then true
    else if s == [] then false
    else (r[0] == s[0] && Subsequence(r[1..], s[1..])) || Subsequence(r, s[1..])
  }

  /** The courses of `courses`, in that order, that `val` gives teacher `t`. */
  function AssignedCourses(courses: seq<int>, t: int, val: Valuation): (r: seq<int>)
    ensures forall c :: c in r <==> c in courses && val(X(t, c)) == 1
    ensures Subsequence(r, courses)
    ensures Distinct(courses) ==> Distinct(r)
  {
    if courses == [] then []
    else
      var rest := AssignedCourses(courses[1..], t, val);
      assert forall c :: c in courses <==> c == courses[0] || c in courses[1..];
      if val(X(t, courses[0])) == 1 then
        var r := [courses[0]] + rest;
        assert r[1..] == rest;
        assert Distinct(courses) ==> Distinct(r) by {
          if Distinct(courses) {
            assert courses[0] !in courses[1..] by {
              forall j | 1 <= j < |courses| ensures courses[j] != courses[0] {
                assert courses[0] != courses[j];
              }
            }
            DistinctSuffix(courses);
            DistinctCons(courses[0], rest);
          }
        }
        r
      else
        assert Distinct(courses) ==> Distinct(rest) by {
          if Distinct(courses) { DistinctSuffix(courses); }
        }
        rest
  }

  lemma DistinctSuffix(s: seq<int>)
    requires s != [] && Distinct(s)
    ensures Distinct(s[1..])
  {
    forall i, j | 0 <= i < j < |s[1..]| ensures s[1..][i] != s[1..][j] {
      assert s[1..][i] == s[i + 1] && s[1..][j] == s[j + 1];
    }
  }

  lemma DistinctCons(x: int, s: seq<int>)
    requires x !in s && Distinct(s)
    ensures Distinct([x] + s)
  {
    var r := [x] + s;
    forall i, j | 0 <= i < j < |r| ensures r[i] != r[j] {
      assert r[j] == s[j - 1];
      if i > 0 {
        assert r[i] == s[i - 1];
      }
    }
  }

  /** `sum(credits)`, added left to right. */
  function Sum(s: seq<int>): int
  {
    if s == [] then 0 else Sum(s[..|s| - 1]) + s[|s| - 1]
  }

  /** The credits of the courses `cs`, added in list order. */
  function CreditSum(credits: seq<int>, cs: seq<int>): int
    requires ValidIndices(credits, cs)
  {
    if cs == [] then 0
    else
      assert cs[0] in cs && forall c :: c in cs[1..] ==> c in cs;
      credits[cs[0]] + CreditSum(credits, cs[1..])
  }

  /** The load of teacher `t`: the credits of the courses `val` gives it. */
  function LoadOf(inst: Instance, val: Valuation, t: int): int
    requires ValidIndices(inst.credits, inst.courses)
  {
    CreditSum(inst.credits, AssignedCourses(inst.courses, t, val))
  }

  /** The largest load among `ts`, and 0 when `ts` is empty (the lower bound of `Z`). */
  function MaxLoadOf(inst: Instance, val: Valuation, ts: seq<int>): (r: int)
    requires ValidIndices(inst.credits, inst.courses)
    ensures r >= 0
    ensures forall a :: 0 <= a < |ts| ==> LoadOf(inst, val, ts[a]) <= r
    ensures r == 0 || exists a :: 0 <= a < |ts| && r == LoadOf(inst, val, ts[a])
  {
    if ts == [] then 0
    else
      var rest := MaxLoadOf(inst, val, ts[1..]);
      assert forall a :: 1 <= a < |ts| ==> ts[a] == ts[1..][a - 1];
      var here := LoadOf(inst, val, ts[0]);
      if here > rest then here else rest
  }

  function MaxLoad(inst: Instance, val: Valuation): int
    requires ValidIndices(inst.credits, inst.courses)
  {
    MaxLoadOf(inst, val, inst.teachers)
  }

  /** Every teacher/course variable is 0 or 1. */
  predicate Binary(inst: Instance, val: Valuation)
  {
    forall a, b :: 0 <= a < |inst.teachers| && 0 <= b < |inst.courses| ==>
      val(X(inst.teachers[a], inst.courses[b])) == 0 || val(X(inst.teachers[a], inst.courses[b])) == 1
  }

  /** Exactly one position of `teachers` holds course `c`. */
  predicate ExactlyOneTeacher(teachers: seq<int>, c: int, val: Valuation)
  {
    exists a :: 0 <= a < |teachers| && val(X(teachers[a], c)) == 1 &&
      forall a' :: 0 <= a' < |teachers| && val(X(teachers[a'], c)) == 1 ==> a' == a
  }

  /** Coverage law: every course has exactly one teacher. */
  predicate Covered(inst: Instance, val: Valuation)
  {
    forall b :: 0 <= b < |inst.courses| ==> ExactlyOneTeacher(inst.teachers, inst.courses[b], val)
  }

  /** Eligibility law: a teacher holds only courses from its preference list. */
  predicate Eligible(inst: Instance, val: Valuation)
  {
    forall a, b ::
      (0 <= a < |inst.teachers| && 0 <= b < |inst.courses| && val(X(inst.teachers[a], inst.courses[b])) == 1) ==>
        inst.teachers[a] in inst.preferences && inst.courses[b] in inst.preferences[inst.teachers[a]]
  }

  /** Conflict law: no teacher holds both courses of a conflict pair. */
  predicate ConflictFree(inst: Instance, val: Valuation)
  {
    forall k, a :: 0 <= k < |inst.conflicts| && 0 <= a < |inst.teachers| ==>
      !(val(X(inst.teachers[a], inst.conflicts[k].0)) == 1 && val(X(inst.teachers[a], inst.conflicts[k].1)) == 1)
  }

  /** A valid assignment of courses to teachers. */
  predicate ValidAssignment(inst: Instance, val: Valuation)
  {
    Binary(inst, val) && Covered(inst, val) && Eligible(inst, val) && ConflictFree(inst, val)
  }

  /** Every `Y[t]` is teacher `t`'s load. */
  predicate LoadsMatch(inst: Instance, val: Valuation)
    requires ValidIndices(inst.credits, inst.courses)
  {
    forall a :: 0 <= a < |inst.teachers| ==> val(Y(inst.teachers[a])) == LoadOf(inst, val, inst.teachers[a])
  }

  /** `Z` is at least every `Y[t]`. */
  predicate ZDominates(inst: Instance, val: Valuation)
  {
    forall a :: 0 <= a < |inst.teachers| ==> val(Z) >= val(Y(inst.teachers[a]))
  }

  /** `Y` and `Z` lie within `[0, sum(credits)]`. */
  predicate LoadBounds(inst: Instance, val: Valuation)
  {
    && (forall k :: 0 <= k < |inst.teachers| ==> 0 <= val(Y(k)) <= Sum(inst.credits))
    && 0 <= val(Z) <= Sum(inst.credits)
  }
}
