/** Linear constraints over an n-by-n grid of integer decision variables.
    This is the vocabulary the model builder uses in place of the solver
    library's expression, range and constraint objects: a constraint is a
    list of `coef * x[row][col]` terms, a relation and a right-hand side,
    and a candidate solution is an integer grid. */
module LinearModel {

  /** One term `coef * x[row][col]` of a linear expression. */
  datatype Term = Term(coef: int, row: int, col: int)

  /** How a constraint's expression compares with its right-hand side:
      `<=`, `>=`, `==` or the strict `>`. */
  datatype Relation = AtMost | AtLeast | EqualTo | Above

  /** `terms rel rhs`, e.g. `x[i][j] - x[i+1][j] <= 0`. */
  datatype Constraint = Constraint(terms: seq<Term>, rel: Relation, rhs: int)

  /** `g` holds one integer per cell of an n-by-n grid. */
  predicate IsGrid(g: seq<seq<int>>, n: int) {
    |g| == n && forall i :: 0 <= i < |g| ==> |g[i]| == n
  }

  /** The term refers to a cell of an n-by-n grid. */
  predicate TermFits(t: Term, n: int) {
    0 <= t.row < n && 0 <= t.col < n
  }

  /** Every cell the constraint mentions lies in an n-by-n grid. */
  predicate Fits(c: Constraint, n: int) {
    forall k :: 0 <= k < |c.terms| ==> TermFits(c.terms[k], n)
  }

  /** The value of the linear expression `ts` on the grid `g`. */
  function Eval(ts: seq<Term>, g: seq<seq<int>>, n: int): int
    requires IsGrid(g, n)
    requires forall k :: 0 <= k < |ts| ==> TermFits(ts[k], n)
  {
    if ts == [] then 0
    else
      assert TermFits(ts[0], n) && |g[ts[0].row]| == n;
      ts[0].coef * g[ts[0].row][ts[0].col] + Eval(ts[1..], g, n)
  }

  /** The grid `g` satisfies the constraint `c`. */
  predicate Holds(g: seq<seq<int>>, n: int, c: Constraint)
    requires IsGrid(g, n) && Fits(c, n)
  {
    var v := Eval(c.terms, g, n);
    match c.rel
    case AtMost => v <= c.rhs
    case AtLeast => v >= c.rhs
    case EqualTo => v == c.rhs
    case Above => v > c.rhs
  }

  /** Every constraint of `cs` stays inside the grid and is satisfied by `g`. */
  predicate HoldsAll(g: seq<seq<int>>, n: int, cs: seq<Constraint>)
    requires IsGrid(g, n)
  {
    forall k :: 0 <= k < |cs| ==> Fits(cs[k], n) && Holds(g, n, cs[k])
  }

  /** The sum of the coefficients of `ts`. */
  function CoefSum(ts: seq<Term>): int {
    if ts == [] then 0 else ts[0].coef + CoefSum(ts[1..])
  }

  /** A constraint with no constant part: its coefficients cancel out, its
      right-hand side is 0 and it is not strict. */
  predicate Homogeneous(c: Constraint) {
    CoefSum(c.terms) == 0 && c.rhs == 0 && c.rel != Above
  }

  /** The n-by-n grid with `v` in every cell. */
  function ConstantGrid(n: nat, v: int): (g: seq<seq<int>>)
    ensures IsGrid(g, n)
    ensures forall i, j :: 0 <= i < n && 0 <= j < n ==> g[i][j] == v
  {
    seq(n, _ => seq(n, _ => v))
  }

  /** Two-term expressions evaluate term by term. */
  lemma EvalPair(a: Term, b: Term, g: seq<seq<int>>, n: int)
    requires IsGrid(g, n) && TermFits(a, n) && TermFits(b, n)
    ensures Eval([a, b], g, n) == a.coef * g[a.row][a.col] + b.coef * g[b.row][b.col]
  {
    assert [a, b][1..] == [b];
    assert [b][1..] == [];
    assert Eval([b], g, n) == b.coef * g[b.row][b.col] + Eval([], g, n);
  }

  /** Four-term expressions evaluate term by term. */
  lemma EvalQuad(a: Term, b: Term, c: Term, d: Term, g: seq<seq<int>>, n: int)
    requires IsGrid(g, n) && TermFits(a, n) && TermFits(b, n) && TermFits(c, n) && TermFits(d, n)
    ensures Eval([a, b, c, d], g, n)
         == a.coef * g[a.row][a.col] + b.coef * g[b.row][b.col]
          + c.coef * g[c.row][c.col] + d.coef * g[d.row][d.col]
  {
    assert [a, b, c, d][1..] == [b, c, d];
    assert [b, c, d][1..] == [c, d];
    EvalPair(c, d, g, n);
  }

  /** The coefficient sum of a two-term expression. */
  lemma CoefSumPair(a: Term, b: Term)
    ensures CoefSum([a, b]) == a.coef + b.coef
  {
    assert [a, b][1..] == [b];
    assert [b][1..] == [];
    assert CoefSum([b]) == b.coef + CoefSum([]);
  }

  /** The coefficient sum of a four-term expression. */
  lemma CoefSumQuad(a: Term, b: Term, c: Term, d: Term)
    ensures CoefSum([a, b, c, d]) == a.coef + b.coef + c.coef + d.coef
  {
    assert [a, b, c, d][1..] == [b, c, d];
    assert [b, c, d][1..] == [c, d];
    CoefSumPair(c, d);
  }

  /** On a constant grid an expression is worth the constant times the sum
      of its coefficients. */
  lemma {:induction false} EvalConstant(ts: seq<Term>, n: nat, v: int)
    requires forall k :: 0 <= k < |ts| ==> TermFits(ts[k], n)
    ensures Eval(ts, ConstantGrid(n, v), n) == v * CoefSum(ts)
  {
    if ts != [] {
      EvalConstant(ts[1..], n, v);
      assert ConstantGrid(n, v)[ts[0].row][ts[0].col] == v;
    }
  }

  /** A homogeneous constraint is met by every constant grid. */
  lemma ConstantMeetsHomogeneous(c: Constraint, n: nat, v: int)
    requires Fits(c, n) && Homogeneous(c)
    ensures Holds(ConstantGrid(n, v), n, c)
  {
    EvalConstant(c.terms, n, v);
  }
}
