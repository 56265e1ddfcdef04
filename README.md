# Grid integer program of `solver.cpp`

`solver.cpp` builds an integer linear program over a 6-by-6 grid of integer
decision variables `x[i][j]` and hands it to an external MILP solver. This
project models the construction of that program, step by step as `main`
performs it:

- the nested allocation loop that builds the grid row by row (`Solver.CreateVariables`);
- the upper bound 0 placed on the origin `x[0][0]` (`Solver.WithUpperBound`, `Solver.DeclareVariables`);
- the eight hard-coded "termini" constraints (`Solver.BuildTermini`);
- the generic constraint loop, whose inner body adds up to six guarded
  constraints per cell: row and column monotonicity, two cross terms, and row
  and column discrete convexity (`GridConstraints.EmitCell`, `EmitRow`,
  `GenerateConstraints`);
- the objective "minimise the corner `x[5][5]`";
- the whole construction (`Solver.BuildModel`).

Linear constraints are values (`LinearModel.Constraint`): a list of
`coef * x[row][col]` terms, a relation (`<=`, `>=`, `==`, strict `>`) and a
right-hand side. A candidate solution is an integer grid, and `Holds` says
whether the grid satisfies a constraint.

The generic loop is specified by a tagged emission schedule
(`GridConstraints.Schedule`). Each `Emission` records the constraint family
and the cell of the iteration that added it. `Instance` gives the linear
constraint added for it, with the terms in the order the source writes them.

The modules are:

- `LinearModel`: terms, constraints and their evaluation on a grid.
- `GridConstraints`: the generic loop as a schedule and as imperative methods.
- `GridConstraintFacts`: which emissions the loop produces, in what order and how many.
- `GridConstraintMeaning`: what the generic constraints say about a grid.
- `Solver`: variables, the origin bound, termini, objective and the whole model.

Facts that come out of the model:

- The two cross-term constraints added at one cell (solver.cpp lines 59 and 62)
  are the same inequality with the terms in a different order: each accepts
  exactly the grids the other accepts.
- The convexity constraints are kept as written, with the middle cell appearing
  twice; their value is twice the middle cell minus the two ends.
- No grid satisfies the eight termini. Cells (5,0) and (4,0) are both set equal
  to `x[5][5]`, yet `x[5][0] - x[4][0] > 0` is also required. So the model as
  built has no feasible assignment (`Solver.ModelInfeasible`). Without the
  termini, every constant grid with a non-positive value satisfies the origin
  bound and the generic system. This leaves out the library's default bounds
  on a fresh variable, which this file does not show. If the default lower
  bound is 0, the all-zero grid is the only constant grid that also respects it.

## Model

| member | source | states |
|---|---|---|
| Solver.CreateVariables | solver.cpp:27-31 | the allocation loop yields exactly `FreshGrid(size)`: `size` rows of `size` variables, none with an explicit bound |
| Solver.FreshGrid | solver.cpp:27-31 | the allocated grid is square, size by size, and no variable carries an explicit upper bound |
| Solver.WithUpperBound | solver.cpp:35 | `setUB(b)` gives the chosen variable upper bound b, keeps the grid's shape and leaves every other variable unchanged |
| Solver.DeclareVariables | solver.cpp:27-35 | allocation followed by `x[0][0].setUB(0)` yields exactly `Solver.BoundedGrid(6)`, the fresh grid with only the origin's bound set |
| Solver.BoundsCapOnlyOrigin | solver.cpp:35 | a grid respects the variables' explicit bounds if and only if its origin is at most 0 |
| Solver.BuildTermini | solver.cpp:36-46 | the termini array has exactly 8 constraints: 4 equalities pinning (5,0), (3,1), (2,3) and (4,0) to the corner (`Solver.PinnedToCorner`, lines 37-40), then for the same cells in the same order a strict rise over the cell above (`Solver.RisesFromAbove`, lines 42-45); all mention only grid cells |
| Solver.PinnedToCornerMeaning | solver.cpp:37-40 | the equality termini fit the grid and hold exactly when the pinned cell equals `x[5][5]` |
| Solver.RisesFromAboveMeaning | solver.cpp:42-45 | each strict terminus fits the grid and holds exactly when the cell is greater than the cell one row above it |
| Solver.TerminiMeaning | solver.cpp:36-46 | a grid satisfies the termini if and only if the four pinned cells equal the corner and each exceeds the cell above it |
| Solver.TerminiInfeasible | solver.cpp:37-45 | no grid satisfies all eight termini |
| Solver.ModelInfeasible | solver.cpp:35-76 | no assignment satisfies a model that contains these termini |
| Solver.ObjectiveIsCorner | solver.cpp:76 | `Solver.CornerObjective` is the objective of line 76; it has exactly one term, which lies inside the grid, and its value on any grid is the corner cell's value |
| Solver.ObjectiveBoundsEveryCell | solver.cpp:49-76 | on a grid satisfying the generic system, every cell is at most the objective's value |
| Solver.ConstantGridMeetsRest | solver.cpp:35-72 | a constant grid with a non-positive value respects the origin bound and satisfies the whole generic system |
| Solver.GenericSize158 | solver.cpp:48-72 | for the 6-by-6 grid the generic loop adds 158 constraints |
| Solver.BuildModel | solver.cpp:21-76 | the model built by `main` holds the bounded grid, the 8 termini, exactly the generic system (all constraints inside the grid) and the corner objective |
| GridConstraints.EmitCell | solver.cpp:50-70 | one inner-loop iteration adds exactly the instances of the guarded families at (i, j), in body order |
| GridConstraints.EmitRow | solver.cpp:50-70 | the inner loop over a row adds the cells' constraints column by column; every one stays inside the grid |
| GridConstraints.GenerateConstraints | solver.cpp:48-72 | the nested loop produces exactly `GenericSystem(n)`, and every constraint mentions only cells of the n-by-n grid |
| GridConstraints.InstanceFits | solver.cpp:52-69 | `GridConstraints.Guard`, with `RowLimit` and `ColLimit`, is the `if` test at lines 52, 55, 57, 66 and 69; an emission whose guard holds at a grid cell yields a constraint that mentions only grid cells |
| GridConstraintFacts.ScheduleSound | solver.cpp:49-71 | every emission is at a grid cell and its family's guard holds there |
| GridConstraintFacts.ScheduleComplete | solver.cpp:49-71 | every family is emitted at every grid cell where its guard holds |
| GridConstraintFacts.ScheduleMembers | solver.cpp:49-71 | an emission occurs in the schedule if and only if it is at a grid cell and its guard holds |
| GridConstraintFacts.GenericSystemFits | solver.cpp:52-69 | every constraint of the generic system mentions only cells `x[a][b]` with `0 <= a, b < n` |
| GridConstraintFacts.CellIncreasing | solver.cpp:51-69 | within a cell the families appear in body order, each at most once |
| GridConstraintFacts.RowIncreasing | solver.cpp:50-70 | within a row the emissions are ordered by column, then by body order |
| GridConstraintFacts.GridIncreasing | solver.cpp:49-71 | over the rows done so far the emissions are in row-major order, then body order |
| GridConstraintFacts.ScheduleIncreasing | solver.cpp:49-71 | the whole schedule is strictly increasing in (row, column, family rank), so the order is fixed and nothing is emitted twice |
| GridConstraintFacts.CellCount | solver.cpp:51-69 | a cell emits a family once if the family's guard holds there, and otherwise not at all |
| GridConstraintFacts.RowCount | solver.cpp:50-70 | over the first m columns of row i, a family is emitted min(m, column limit) times if i is below its row limit, and otherwise not at all |
| GridConstraintFacts.GridCount | solver.cpp:49-71 | over the first r rows, a family is emitted min(r, row limit) times its column limit |
| GridConstraintFacts.ScheduleFamilyCount | solver.cpp:49-71 | over the whole grid, a family is emitted (row limit) times (column limit) times, each limit clipped at 0 |
| GridConstraintFacts.SizeByFamilies | solver.cpp:49-71 | a schedule's length is the sum of its six family counts |
| GridConstraintFacts.FamilyCounts | solver.cpp:49-71 | for n >= 2: n(n-1) row-monotone, n(n-1) column-monotone, (n-1)^2 of each cross family, n(n-2) row-convex and n(n-2) column-convex constraints |
| GridConstraintFacts.GenericSystemSize | solver.cpp:49-71 | for n >= 2 the generic system has 2n(n-1) + 2(n-1)^2 + 2n(n-2) constraints |
| GridConstraintMeaning.InstanceMeaning | solver.cpp:51-69 | `GridConstraints.Instance` writes the six `constraints.add` expressions of lines 52-69 term for term; each one fits the grid and holds exactly when the inequality in the comment beside it holds |
| GridConstraintMeaning.CrossTermsCoincide | solver.cpp:57-63 | the two cross-term constraints at a cell are satisfied by exactly the same grids |
| GridConstraintMeaning.InstanceHomogeneous | solver.cpp:52-69 | every generic constraint has coefficients summing to 0, right-hand side 0 and a non-strict relation |
| GridConstraintMeaning.ConstantGridMeetsGeneric | solver.cpp:52-69 | every constant grid satisfies the whole generic system |
| GridConstraintMeaning.GenericSystemMeaning | solver.cpp:49-71 | a grid satisfies the generic system if and only if every commented inequality holds at every cell where its guard lets it be emitted |
| GridConstraintMeaning.AlongRow | solver.cpp:54-55 | on a grid meeting only the row- and column-monotone constraints, values do not decrease along a row |
| GridConstraintMeaning.DownColumn | solver.cpp:51-52 | on a grid meeting only the row- and column-monotone constraints, values do not decrease down a column |
| GridConstraintMeaning.MonotoneConstraintsOrderGrid | solver.cpp:51-55 | a grid meeting only the row- and column-monotone constraints is non-decreasing in both indices |
| GridConstraintMeaning.MonotoneConstraintsBoundCorners | solver.cpp:51-55 | in such a grid every cell lies between the origin and the corner `x[n-1][n-1]` |
| GridConstraintMeaning.GenericSystemMeetsMonotone | solver.cpp:49-71 | a grid satisfying the whole generic system satisfies its row- and column-monotone constraints |
| GridConstraintMeaning.GenericSystemMonotone | solver.cpp:49-71 | hence a grid satisfying the generic system is non-decreasing in both indices |
| GridConstraintMeaning.CornersBoundGrid | solver.cpp:49-71 | and every cell of it lies between the origin and the corner `x[n-1][n-1]` |
| LinearModel.EvalConstant | solver.cpp:52-69 | on a constant grid an expression evaluates to the constant times the sum of its coefficients |
| LinearModel.ConstantMeetsHomogeneous | solver.cpp:52-69 | a homogeneous constraint holds on every constant grid |

## Left out

- The `Env` wrapper around the library environment (solver.cpp:8-14) is not modelled. It only manages the lifetime of a foreign resource.
- Building the solver object, `solve()`, `getStatus()` and `getObjValue()` (solver.cpp:78-87) are not modelled. The optimisation happens inside an external MILP solver, so the model claims no optimal value.
- `exportModel` (solver.cpp:81) is not modelled. It is file output.
- `getValues` and the printing loop (solver.cpp:89-94) are not modelled. They are console output of floating-point values.
- The library's default bounds on a fresh integer variable (solver.cpp:29) are not visible in this file. `IntVar.upper == None` stands for them and no bound is assumed.
- The model, grid and constraint arrays are library handles that share state. Here they are values, so aliasing between handles is not captured.
- Enumerating the patterns behind the termini, and deriving them, are not part of this file. The termini are fixed data.
- The generic loop's inner loop is the method `EmitRow`, and its body is the method `EmitCell`. The source inlines both in `main`.
- The library's merging of a repeated variable into one coefficient is not modelled. For convexity, the term list keeps the middle cell twice, as the source writes it; only the value is the same.
