/** The integer program that `main` in solver.cpp builds before handing it
    to the solver: a 6-by-6 grid of integer variables with the origin capped
    at 0, eight hard-coded "termini" constraints, the generic constraint
    system of `GridConstraints`, and the objective "minimise the corner". */
module Solver {
  import opened LinearModel
  import opened GridConstraints
  import opened GridConstraintFacts
  import opened GridConstraintMeaning

  /** ARRAY_SIZE and ARRAY_MAX of the source. */
  const Size: nat := 6
  const Max: nat := Size - 1

  datatype Option<T> = None | Some(value: T)

  /** An integer decision variable. `upper` is the bound set on it
      explicitly, if any; the library's default bounds are not modelled. */
  datatype IntVar = IntVar(upper: Option<int>)

  /** Minimise the linear expression `terms`. */
  datatype Objective = Minimize(terms: seq<Term>)

  /** What is added to the model: the variable grid with its bounds, the
      termini, the generic constraints and the objective. */
  datatype IlpModel = IlpModel(
    vars: seq<seq<IntVar>>,
    termini: seq<Constraint>,
    constraints: seq<Constraint>,
    objective: Objective)

  /** `x` holds one variable per cell of an n-by-n grid. */
  predicate IsVarGrid(x: seq<seq<IntVar>>, n: int) {
    |x| == n && forall i :: 0 <= i < |x| ==> |x[i]| == n
  }

  /** The grid of variables as allocated: square, no explicit bound. */
  function FreshGrid(size: nat): (x: seq<seq<IntVar>>)
    ensures IsVarGrid(x, size)
    ensures forall i, j :: 0 <= i < size && 0 <= j < size ==> x[i][j].upper == None
  {
    seq(size, _ => seq(size, _ => IntVar(None)))
  }

  /** The allocation loop: `size` rows, each built by appending `size` fresh
      variables to a temporary row that is then appended to the grid. */
  method CreateVariables(size: nat) returns (x: seq<seq<IntVar>>)
    ensures x == FreshGrid(size)
  {
    x := [];
    var i := 0;
    while i < size
      invariant 0 <= i <= size
      invariant |x| == i
      invariant forall r :: 0 <= r < i ==> x[r] == FreshGrid(size)[r]
    {
      var tmp: seq<IntVar> := [];
      var j := 0;
      while j < size
        invariant 0 <= j <= size
        invariant |tmp| == j
        invariant forall c :: 0 <= c < j ==> tmp[c] == IntVar(None)
      {
        tmp := tmp + [IntVar(None)];
        j := j + 1;
      }
      assert tmp == FreshGrid(size)[i];
      x := x + [tmp];
      i := i + 1;
    }
  }

  /** `setUB(b)` on variable (i, j): that variable gets upper bound b and
      every other variable keeps its own. */
  function WithUpperBound(x: seq<seq<IntVar>>, i: nat, j: nat, b: int): (y: seq<seq<IntVar>>)
    requires i < |x| && j < |x[i]|
    ensures |y| == |x| && forall r :: 0 <= r < |x| ==> |y[r]| == |x[r]|
    ensures y[i][j].upper == Some(b)
    ensures forall r, c :: 0 <= r < |x| && 0 <= c < |x[r]| && (r, c) != (i, j) ==> y[r][c] == x[r][c]
  {
    x[i := x[i][j := x[i][j].(upper := Some(b))]]
  }

  /** The grid `g` respects every explicit upper bound of `x`. */
  predicate RespectsBounds(x: seq<seq<IntVar>>, g: seq<seq<int>>, n: int)
    requires IsVarGrid(x, n) && IsGrid(g, n)
  {
    forall i, j :: 0 <= i < n && 0 <= j < n && x[i][j].upper.Some? ==> g[i][j] <= x[i][j].upper.value
  }

  /** The variables after allocation and `x[0][0].setUB(0)`. */
  function BoundedGrid(size: nat): (x: seq<seq<IntVar>>)
    requires size > 0
    ensures IsVarGrid(x, size)
  {
    WithUpperBound(FreshGrid(size), 0, 0, 0)
  }

  /** The only explicit bound is the origin's: a grid respects the bounds
      exactly when its origin is at most 0. */
  lemma BoundsCapOnlyOrigin(g: seq<seq<int>>, size: nat)
    requires size > 0 && IsGrid(g, size)
    ensures RespectsBounds(BoundedGrid(size), g, size) <==> g[0][0] <= 0
  {
    var x: seq<seq<IntVar>> := BoundedGrid(size);
    assert x[0][0].upper == Some(0);
    forall i, j | 0 <= i < size && 0 <= j < size && (i, j) != (0, 0) ensures x[i][j].upper == None {
      assert x[i][j] == FreshGrid(size)[i][j];
    }
  }

  // ---------------------------------------------------------------------
  // Termini

  /** The four cells that the termini tie to the corner, in source order. */
  const Pinned: seq<(int, int)> := [(5, 0), (3, 1), (2, 3), (4, 0)]

  /** x[r][c] == x[Max][Max]. */
  function PinnedToCorner(cell: (int, int)): Constraint {
    Constraint([Term(1, cell.0, cell.1), Term(-1, Max, Max)], EqualTo, 0)
  }

  /** x[r][c] - x[r-1][c] > 0: the cell one row above is strictly smaller. */
  function RisesFromAbove(cell: (int, int)): Constraint {
    Constraint([Term(1, cell.0, cell.1), Term(-1, cell.0 - 1, cell.1)], Above, 0)
  }

  /** Four equalities pinning the cells of `Pinned` to the corner, then, for
      the same cells in the same order, four strict rises against the cell
      above. */
  predicate IsTermini(t: seq<Constraint>) {
    |t| == 8
    && forall k :: 0 <= k < 4 ==> t[k] == PinnedToCorner(Pinned[k]) && t[k + 4] == RisesFromAbove(Pinned[k])
  }

  /** The termini array, filled one `add` at a time. */
  method BuildTermini() returns (termini: seq<Constraint>)
    ensures IsTermini(termini)
    ensures AllFit(termini, Size)
  {
    termini := [];
    termini := termini + [Constraint([Term(1, 5, 0), Term(-1, 5, 5)], EqualTo, 0)];
    termini := termini + [Constraint([Term(1, 3, 1), Term(-1, 5, 5)], EqualTo, 0)];
    termini := termini + [Constraint([Term(1, 2, 3), Term(-1, 5, 5)], EqualTo, 0)];
    termini := termini + [Constraint([Term(1, 4, 0), Term(-1, 5, 5)], EqualTo, 0)];

    termini := termini + [Constraint([Term(1, 5, 0), Term(-1, 4, 0)], Above, 0)];
    termini := termini + [Constraint([Term(1, 3, 1), Term(-1, 2, 1)], Above, 0)];
    termini := termini + [Constraint([Term(1, 2, 3), Term(-1, 1, 3)], Above, 0)];
    termini := termini + [Constraint([Term(1, 4, 0), Term(-1, 3, 0)], Above, 0)];
  }

  /** The cell (r, c) lies in the grid. */
  predicate InGrid(cell: (int, int)) {
    0 <= cell.0 < Size && 0 <= cell.1 < Size
  }

  /** The cell (r, c) and the cell above it lie in the grid. */
  predicate BelowTopRow(cell: (int, int)) {
    1 <= cell.0 < Size && 0 <= cell.1 < Size
  }

  lemma PinnedToCornerMeaning(cell: (int, int), g: seq<seq<int>>)
    requires IsGrid(g, Size) && InGrid(cell)
    ensures Fits(PinnedToCorner(cell), Size)
    ensures Holds(g, Size, PinnedToCorner(cell)) <==> g[cell.0][cell.1] == g[Max][Max]
  {
    var ts := PinnedToCorner(cell).terms;
    EvalPair(ts[0], ts[1], g, Size);
  }

  lemma RisesFromAboveMeaning(cell: (int, int), g: seq<seq<int>>)
    requires IsGrid(g, Size) && BelowTopRow(cell)
    ensures Fits(RisesFromAbove(cell), Size)
    ensures Holds(g, Size, RisesFromAbove(cell)) <==> g[cell.0][cell.1] > g[cell.0 - 1][cell.1]
  {
    var ts := RisesFromAbove(cell).terms;
    EvalPair(ts[0], ts[1], g, Size);
  }

  /** What the termini demand of a grid: the four pinned cells equal the
      corner and each exceeds the cell above it. */
  lemma TerminiMeaning(t: seq<Constraint>, g: seq<seq<int>>)
    requires IsTermini(t) && IsGrid(g, Size)
    ensures AllFit(t, Size)
    ensures HoldsAll(g, Size, t)
        <==> (g[3][1] == g[5][5] && g[3][1] > g[2][1]
              && g[2][3] == g[5][5] && g[2][3] > g[1][3]
              && g[4][0] > g[3][0]
              && g[5][0] == g[5][5] && g[4][0] == g[5][5] && g[5][0] > g[4][0])
  {
    PinnedToCornerMeaning(Pinned[0], g);
    PinnedToCornerMeaning(Pinned[1], g);
    PinnedToCornerMeaning(Pinned[2], g);
    PinnedToCornerMeaning(Pinned[3], g);
    RisesFromAboveMeaning(Pinned[0], g);
    RisesFromAboveMeaning(Pinned[1], g);
    RisesFromAboveMeaning(Pinned[2], g);
    RisesFromAboveMeaning(Pinned[3], g);
    assert t[4] == RisesFromAbove(Pinned[0]) && t[5] == RisesFromAbove(Pinned[1]);
    assert t[6] == RisesFromAbove(Pinned[2]) && t[7] == RisesFromAbove(Pinned[3]);
    assert AllFit(t, Size) by {
      forall k | 0 <= k < 8 ensures Fits(t[k], Size) {
        assert k == 0 || k == 1 || k == 2 || k == 3 || k == 4 || k == 5 || k == 6 || k == 7;
      }
    }
  }

  /** No grid meets the termini: cells (5,0) and (4,0) are both pinned to
      the corner, yet x[5][0] must exceed x[4][0]. */
  lemma TerminiInfeasible(t: seq<Constraint>, g: seq<seq<int>>)
    requires IsTermini(t) && IsGrid(g, Size)
    ensures !HoldsAll(g, Size, t)
  {
    TerminiMeaning(t, g);
  }

  // ---------------------------------------------------------------------
  // Objective

  /** `IloMinimize(env, x[ARRAY_MAX][ARRAY_MAX])` for a grid of the given
      size. */
  function CornerObjective(size: nat): Objective {
    Minimize([Term(1, size - 1, size - 1)])
  }

  /** The value of an objective's expression on a grid. */
  function ObjectiveValue(o: Objective, g: seq<seq<int>>, n: int): int
    requires IsGrid(g, n)
    requires forall k :: 0 <= k < |o.terms| ==> TermFits(o.terms[k], n)
  {
    Eval(o.terms, g, n)
  }

  /** The objective is exactly the corner cell: one term, nothing else. */
  lemma ObjectiveIsCorner(g: seq<seq<int>>, size: nat)
    requires size > 0 && IsGrid(g, size)
    ensures |CornerObjective(size).terms| == 1 && TermFits(CornerObjective(size).terms[0], size)
    ensures ObjectiveValue(CornerObjective(size), g, size) == g[size - 1][size - 1]
  {
    var ts := CornerObjective(size).terms;
    assert ts[1..] == [];
    assert Eval(ts[1..], g, size) == 0;
  }

  /** On a grid that meets the generic system the objective's value is an
      upper bound on every cell. */
  lemma ObjectiveBoundsEveryCell(g: seq<seq<int>>, size: nat)
    requires size > 0 && IsGrid(g, size) && HoldsAll(g, size, GenericSystem(size))
    ensures TermFits(CornerObjective(size).terms[0], size)
    ensures var v := ObjectiveValue(CornerObjective(size), g, size);
      forall i, j :: 0 <= i < size && 0 <= j < size ==> g[i][j] <= v
  {
    ObjectiveIsCorner(g, size);
    CornersBoundGrid(g, size);
  }

  // ---------------------------------------------------------------------
  // The whole model

  /** `g` is an assignment that meets every bound and constraint of `m`. */
  predicate Feasible(m: IlpModel, g: seq<seq<int>>)
  {
    IsGrid(g, Size) && IsVarGrid(m.vars, Size)
    && RespectsBounds(m.vars, g, Size)
    && HoldsAll(g, Size, m.termini)
    && HoldsAll(g, Size, m.constraints)
  }

  /** With these termini the model has no feasible assignment at all. */
  lemma ModelInfeasible(m: IlpModel, g: seq<seq<int>>)
    requires IsTermini(m.termini)
    ensures !Feasible(m, g)
  {
    if IsGrid(g, Size) {
      TerminiInfeasible(m.termini, g);
    }
  }

  /** Without the termini the model is consistent: every constant grid with
      a non-positive value meets the origin bound and the generic system. */
  lemma ConstantGridMeetsRest(size: nat, v: int)
    requires size > 0 && v <= 0
    ensures RespectsBounds(BoundedGrid(size), ConstantGrid(size, v), size)
    ensures HoldsAll(ConstantGrid(size, v), size, GenericSystem(size))
  {
    BoundsCapOnlyOrigin(ConstantGrid(size, v), size);
    ConstantGridMeetsGeneric(size, v);
  }

  /** For the 6-by-6 grid the loop adds 30 row-monotone, 30 column-monotone,
      25 + 25 cross-term, 24 row-convex and 24 column-convex constraints:
      158 in all (`GenericSystemSize` with n = 6). */
  lemma GenericSize158()
    ensures |GenericSystem(Size)| == 158
  {
    GenericSystemSize(6);
  }

  /** Allocation followed by `x[0][0].setUB(0)`. */
  method DeclareVariables() returns (x: seq<seq<IntVar>>)
    ensures x == BoundedGrid(Size)
  {
    x := CreateVariables(Size);
    x := WithUpperBound(x, 0, 0, 0);
  }

  /** The construction in `main`: allocate the grid, cap the origin, add the
      termini, run the generic loop and set the objective. */
  method BuildModel() returns (m: IlpModel)
    ensures m.vars == BoundedGrid(Size)
    ensures IsTermini(m.termini) && AllFit(m.termini, Size)
    ensures m.constraints == GenericSystem(Size) && AllFit(m.constraints, Size)
    ensures m.objective == CornerObjective(Size)
  {
    var x := DeclareVariables();
    var termini := BuildTermini();
    var constraints := GenerateConstraints(Size);
    m := IlpModel(x, termini, constraints, Minimize([Term(1, Max, Max)]));
  }
}
