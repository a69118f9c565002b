/**
 * The mixed-integer linear program that the course-assignment builder hands
 * to its solver: the decision variables, their bounds, linear constraints in
 * the normalised form `sum(coef * var) REL constant` (the form the solver
 * stores `lhs == rhs`, `lhs <= rhs` and `lhs >= rhs` in), and what it means
 * for an integer valuation of the variables to satisfy them.
 */
module LinearProgram {

  /** The three families of variable the builder creates. */
  datatype Var =
    | X(teacher: int, course: int)  // boolean: the teacher teaches the course
    | Y(slot: int)                  // integer: entry `slot` of the list of loads
    | Z                             // integer: the maximum load

  datatype Term = Term(v: Var, coef: int)

  datatype Relation = Eq | Le | Ge

  /** `sum(t.coef * t.v for t in terms) rel rhs` */
  datatype LinearConstraint = LinearConstraint(terms: seq<Term>, rel: Relation, rhs: int)

  /** A variable with its inclusive bounds; a boolean variable has bounds 0 and 1. */
  datatype VarDecl = VarDecl(v: Var, lo: int, hi: int)

  /** Declared variables, added constraints, and the variable to minimise. */
  datatype Model = Model(variables: seq<VarDecl>, constraints: seq<LinearConstraint>, minimize: Var)

  /** An integer value for every variable, as a solver reports them. */
  type Valuation = Var -> int

  /** The value of a linear expression. */
  function Eval(terms: seq<Term>, val: Valuation): int
  {
    if terms == [] then 0 else terms[0].coef * val(terms[0].v) + Eval(terms[1..], val)
  }

  predicate Satisfies(con: LinearConstraint, val: Valuation)
  {
    var lhs := Eval(con.terms, val);
    match con.rel
    case Eq => lhs == con.rhs
    case Le => lhs <= con.rhs
    case Ge => lhs >= con.rhs
  }

  predicate SatisfiesAll(cons: seq<LinearConstraint>, val: Valuation)
  {
    forall k :: 0 <= k < |cons| ==> Satisfies(cons[k], val)
  }

  predicate WithinBounds(decls: seq<VarDecl>, val: Valuation)
  {
    forall k :: 0 <= k < |decls| ==> decls[k].lo <= val(decls[k].v) <= decls[k].hi
  }

  /** Every variable within its bounds and every constraint satisfied. */
  predicate Feasible(m: Model, val: Valuation)
  {
    WithinBounds(m.variables, val) && SatisfiesAll(m.constraints, val)
  }

  /**
   * What an OPTIMAL answer from the solver promises of the valuation it
   * returns: it is feasible and no feasible valuation has a smaller objective.
   */
  ghost predicate Optimal(m: Model, val: Valuation)
  {
    && Feasible(m, val)
    && forall other :: Feasible(m, other) ==> val(m.minimize) <= other(m.minimize)
  }

  lemma SatisfiesAllAppend(a: seq<LinearConstraint>, b: seq<LinearConstraint>, val: Valuation)
    ensures SatisfiesAll(a + b, val) <==> SatisfiesAll(a, val) && SatisfiesAll(b, val)
  {
    if SatisfiesAll(a, val) && SatisfiesAll(b, val) {
      forall k | 0 <= k < |a + b| ensures Satisfies((a + b)[k], val) {
        if k >= |a| {
          assert (a + b)[k] == b[k - |a|];
        }
      }
    }
    if SatisfiesAll(a + b, val) {
      forall k | 0 <= k < |a| ensures Satisfies(a[k], val) {
        assert (a + b)[k] == a[k];
      }
      forall k | 0 <= k < |b| ensures Satisfies(b[k], val) {
        assert (a + b)[|a| + k] == b[k];
      }
    }
  }

  lemma WithinBoundsAppend(a: seq<VarDecl>, b: seq<VarDecl>, val: Valuation)
    ensures WithinBounds(a + b, val) <==> WithinBounds(a, val) && WithinBounds(b, val)
  {
    if WithinBounds(a, val) && WithinBounds(b, val) {
      forall k | 0 <= k < |a + b| ensures (a + b)[k].lo <= val((a + b)[k].v) <= (a + b)[k].hi {
        if k >= |a| {
          assert (a + b)[k] == b[k - |a|];
        }
      }
    }
    if WithinBounds(a + b, val) {
      forall k | 0 <= k < |a| ensures a[k].lo <= val(a[k].v) <= a[k].hi {
        assert (a + b)[k] == a[k];
      }
      forall k | 0 <= k < |b| ensures b[k].lo <= val(b[k].v) <= b[k].hi {
        assert (a + b)[|a| + k] == b[k];
      }
    }
  }

  lemma EvalCons(t: Term, rest: seq<Term>, val: Valuation)
    ensures Eval([t] + rest, val) == t.coef * val(t.v) + Eval(rest, val)
  {
    assert ([t] + rest)[1..] == rest;
  }

  lemma SatisfiesAllSingle(con: LinearConstraint, val: Valuation)
    ensures SatisfiesAll([con], val) <==> Satisfies(con, val)
  {
    assert [con][0] == con;
  }

  lemma WithinBoundsSingle(d: VarDecl, val: Valuation)
    ensures WithinBounds([d], val) <==> d.lo <= val(d.v) <= d.hi
  {
    assert [d][0] == d;
  }
}
