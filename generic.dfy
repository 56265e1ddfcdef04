/** The pattern-independent constraints of the grid model: the nested
    row-major loop of solver.cpp that, for every cell (i, j), emits the
    row and column monotonicity constraints, the two cross terms of the
    2-by-2 block at (i, j), and the row and column discrete convexity
    constraints, each only when its index guard holds.

    The loop is specified by a tagged emission schedule: an `Emission`
    names the constraint family and the cell it was emitted for, and
    `Instance` gives the linear constraint the loop body adds for it. */
module GridConstraints {
  import opened LinearModel

  /** The six constraint families of the loop body, in emission order. */
  datatype Family =
    | RowMonotone     // x[i][j] <= x[i+1][j]
    | ColumnMonotone  // x[i][j] <= x[i][j+1]
    | CrossRow        // x[i][j+1] - x[i][j] >= x[i+1][j+1] - x[i+1][j]
    | CrossColumn     // x[i+1][j] - x[i][j] >= x[i+1][j+1] - x[i][j+1]
    | RowConvex       // x[i+1][j] - x[i][j] >= x[i+2][j] - x[i+1][j]
    | ColumnConvex    // x[i][j+1] - x[i][j] >= x[i][j+2] - x[i][j+1]

  /** Position of a family within one cell's emissions. */
  function Rank(f: Family): nat {
    match f
    case RowMonotone => 0
    case ColumnMonotone => 1
    case CrossRow => 2
    case CrossColumn => 3
    case RowConvex => 4
    case ColumnConvex => 5
  }

  /** One constraint added by the loop: its family and the cell (i, j) of the
      iteration that added it. */
  datatype Emission = Emission(family: Family, row: int, col: int)

  /** A family is emitted at (i, j) exactly when `i < RowLimit` ... */
  function RowLimit(f: Family, n: int): int {
    match f
    case RowMonotone => n - 1
    case ColumnMonotone => n
    case CrossRow => n - 1
    case CrossColumn => n - 1
    case RowConvex => n - 2
    case ColumnConvex => n
  }

  /** ... and `j < ColLimit`. */
  function ColLimit(f: Family, n: int): int {
    match f
    case RowMonotone => n
    case ColumnMonotone => n - 1
    case CrossRow => n - 1
    case CrossColumn => n - 1
    case RowConvex => n
    case ColumnConvex => n - 2
  }

  /** The index guard of family `f` at cell (i, j) of an n-by-n grid. */
  predicate Guard(f: Family, n: int, i: int, j: int) {
    i < RowLimit(f, n) && j < ColLimit(f, n)
  }

  /** The six families in the order the loop body adds them. */
  const BodyOrder: seq<Family> := [RowMonotone, ColumnMonotone, CrossRow, CrossColumn, RowConvex, ColumnConvex]

  /** The emission of family f at cell (i, j) if its guard holds, else nothing. */
  function Piece(f: Family, n: int, i: int, j: int): seq<Emission> {
    if Guard(f, n, i, j) then [Emission(f, i, j)] else []
  }

  /** The emissions at cell (i, j) for the families `fs`, in the order of
      `fs`, each present only when its guard holds. */
  function Guarded(fs: seq<Family>, n: int, i: int, j: int): seq<Emission> {
    if fs == [] then [] else Piece(fs[0], n, i, j) + Guarded(fs[1..], n, i, j)
  }

  /** What one iteration of the inner loop adds at cell (i, j), in order. */
  function CellEmissions(n: int, i: int, j: int): seq<Emission> {
    Guarded(BodyOrder, n, i, j)
  }

  /** What the inner loop adds for row i over columns 0 .. m-1. */
  function RowEmissions(n: int, i: int, m: nat): seq<Emission> {
    if m == 0 then [] else RowEmissions(n, i, m - 1) + CellEmissions(n, i, m - 1)
  }

  /** What the outer loop adds for rows 0 .. r-1. */
  function GridEmissions(n: nat, r: nat): seq<Emission> {
    if r == 0 then [] else GridEmissions(n, r - 1) + RowEmissions(n, r - 1, n)
  }

  /** The whole emission schedule of the loop over an n-by-n grid. */
  function Schedule(n: nat): seq<Emission> {
    GridEmissions(n, n)
  }

  /** The linear constraint the loop body adds for an emission, with the
      terms in the order the source writes them. The convexity constraints
      mention the middle cell twice, as the source's expression does. */
  function Instance(e: Emission): Constraint {
    var i, j := e.row, e.col;
    match e.family
    case RowMonotone => Constraint([Term(1, i, j), Term(-1, i + 1, j)], AtMost, 0)
    case ColumnMonotone => Constraint([Term(1, i, j), Term(-1, i, j + 1)], AtMost, 0)
    case CrossRow =>
      Constraint([Term(1, i, j + 1), Term(-1, i, j), Term(-1, i + 1, j + 1), Term(1, i + 1, j)], AtLeast, 0)
    case CrossColumn =>
      Constraint([Term(1, i + 1, j), Term(-1, i, j), Term(-1, i + 1, j + 1), Term(1, i, j + 1)], AtLeast, 0)
    case RowConvex =>
      Constraint([Term(1, i + 1, j), Term(-1, i, j), Term(-1, i + 2, j), Term(1, i + 1, j)], AtLeast, 0)
    case ColumnConvex =>
      Constraint([Term(1, i, j + 1), Term(-1, i, j), Term(-1, i, j + 2), Term(1, i, j + 1)], AtLeast, 0)
  }

  /** The constraints of a schedule, one per emission and in the same order. */
  function Realise(es: seq<Emission>): (cs: seq<Constraint>)
    ensures |cs| == |es|
  {
    seq(|es|, k requires 0 <= k < |es| => Instance(es[k]))
  }

  lemma RealiseSnoc(es: seq<Emission>, e: Emission)
    ensures Realise(es + [e]) == Realise(es) + [Instance(e)]
  {
    RealiseConcat(es, [e]);
  }

  lemma RealiseConcat(a: seq<Emission>, b: seq<Emission>)
    ensures Realise(a + b) == Realise(a) + Realise(b)
  {
    assert forall k :: 0 <= k < |a + b| ==> Realise(a + b)[k] == (Realise(a) + Realise(b))[k];
  }

  /** Every constraint of `cs` stays inside an n-by-n grid. */
  predicate AllFit(cs: seq<Constraint>, n: int) {
    forall k :: 0 <= k < |cs| ==> Fits(cs[k], n)
  }

  /** An emission of `Guarded(fs, n, i, j)` is one of the families `fs` at
      cell (i, j) whose guard holds, and every such emission is there. */
  lemma {:induction false} GuardedMembers(fs: seq<Family>, n: int, i: int, j: int, e: Emission)
    ensures e in Guarded(fs, n, i, j)
        <==> e.family in fs && e.row == i && e.col == j && Guard(e.family, n, i, j)
  {
    if fs != [] {
      GuardedMembers(fs[1..], n, i, j, e);
      assert fs == [fs[0]] + fs[1..];
    }
  }

  /** `Guarded` takes the families one at a time. */
  lemma GuardedCons(f: Family, fs: seq<Family>, n: int, i: int, j: int)
    ensures Guarded([f] + fs, n, i, j) == Piece(f, n, i, j) + Guarded(fs, n, i, j)
  {
    assert ([f] + fs)[1..] == fs;
  }

  /** The cell's emissions spelled out family by family, in the order of
      the loop body. */
  lemma CellEmissionsUnfold(n: int, i: int, j: int)
    ensures CellEmissions(n, i, j)
         == Piece(RowMonotone, n, i, j) + Piece(ColumnMonotone, n, i, j)
          + Piece(CrossRow, n, i, j) + Piece(CrossColumn, n, i, j)
          + Piece(RowConvex, n, i, j) + Piece(ColumnConvex, n, i, j)
  {
    var t5 := [ColumnConvex];
    var t4 := [RowConvex] + t5;
    var t3 := [CrossColumn] + t4;
    var t2 := [CrossRow] + t3;
    var t1 := [ColumnMonotone] + t2;
    assert BodyOrder == [RowMonotone] + t1;
    GuardedCons(RowMonotone, t1, n, i, j);
    GuardedCons(ColumnMonotone, t2, n, i, j);
    GuardedCons(CrossRow, t3, n, i, j);
    GuardedCons(CrossColumn, t4, n, i, j);
    GuardedCons(RowConvex, t5, n, i, j);
    GuardedCons(ColumnConvex, [], n, i, j);
    assert [ColumnConvex] + [] == t5;
  }

  /** A guarded instance at a grid cell mentions only grid cells: the guards
      keep `i + 1`, `j + 1`, `i + 2` and `j + 2` below n. */
  lemma InstanceFits(e: Emission, n: int)
    requires 0 <= e.row < n && 0 <= e.col < n && Guard(e.family, n, e.row, e.col)
    ensures Fits(Instance(e), n)
  {
    var c := Instance(e);
    forall t | 0 <= t < |c.terms| ensures TermFits(c.terms[t], n) {
    }
  }

  /** Each constraint a cell adds stays inside the grid. */
  lemma CellFits(n: int, i: int, j: int)
    requires 0 <= i < n && 0 <= j < n
    ensures AllFit(Realise(CellEmissions(n, i, j)), n)
  {
    var es := CellEmissions(n, i, j);
    forall k | 0 <= k < |es| ensures Fits(Instance(es[k]), n) {
      GuardedMembers(BodyOrder, n, i, j, es[k]);
      InstanceFits(es[k], n);
    }
  }

  lemma AllFitConcat(a: seq<Constraint>, b: seq<Constraint>, n: int)
    requires AllFit(a, n) && AllFit(b, n)
    ensures AllFit(a + b, n)
  {
    forall k | 0 <= k < |a + b| ensures Fits((a + b)[k], n) {
      if k < |a| { assert (a + b)[k] == a[k]; } else { assert (a + b)[k] == b[k - |a|]; }
    }
  }

  /** The constraint array the loop builds for an n-by-n grid. */
  function GenericSystem(n: nat): seq<Constraint> {
    Realise(Schedule(n))
  }

  /** One iteration of the inner loop: the guarded additions at cell (i, j)
      in the order of the loop body. */
  method EmitCell(n: nat, i: nat, j: nat) returns (block: seq<Constraint>)
    requires i < n && j < n
    ensures block == Realise(CellEmissions(n, i, j))
  {
    block := [];
    ghost var emitted: seq<Emission> := [];
    if i < n - 1 {
      RealiseSnoc(emitted, Emission(RowMonotone, i, j));
      block := block + [Instance(Emission(RowMonotone, i, j))];
      emitted := emitted + [Emission(RowMonotone, i, j)];
    }
    assert block == Realise(emitted) && emitted == Piece(RowMonotone, n, i, j);
    ghost var before := emitted;
    if j < n - 1 {
      RealiseSnoc(emitted, Emission(ColumnMonotone, i, j));
      block := block + [Instance(Emission(ColumnMonotone, i, j))];
      emitted := emitted + [Emission(ColumnMonotone, i, j)];
    }
    assert block == Realise(emitted);
    assert emitted == before + Piece(ColumnMonotone, n, i, j);
    before := emitted;
    if i < n - 1 && j < n - 1 {
      RealiseSnoc(emitted, Emission(CrossRow, i, j));
      block := block + [Instance(Emission(CrossRow, i, j))];
      emitted := emitted + [Emission(CrossRow, i, j)];
      RealiseSnoc(emitted, Emission(CrossColumn, i, j));
      block := block + [Instance(Emission(CrossColumn, i, j))];
      emitted := emitted + [Emission(CrossColumn, i, j)];
    }
    assert block == Realise(emitted);
    assert emitted == before + Piece(CrossRow, n, i, j) + Piece(CrossColumn, n, i, j);
    before := emitted;
    if i < n - 2 {
      RealiseSnoc(emitted, Emission(RowConvex, i, j));
      block := block + [Instance(Emission(RowConvex, i, j))];
      emitted := emitted + [Emission(RowConvex, i, j)];
    }
    assert block == Realise(emitted);
    assert emitted == before + Piece(RowConvex, n, i, j);
    before := emitted;
    if j < n - 2 {
      RealiseSnoc(emitted, Emission(ColumnConvex, i, j));
      block := block + [Instance(Emission(ColumnConvex, i, j))];
      emitted := emitted + [Emission(ColumnConvex, i, j)];
    }
    assert block == Realise(emitted);
    assert emitted == before + Piece(ColumnConvex, n, i, j);
    CellEmissionsUnfold(n, i, j);
  }

  /** The inner loop for row i: one `EmitCell` per column, j ascending. */
  method EmitRow(n: nat, i: nat) returns (row: seq<Constraint>)
    requires i < n
    ensures row == Realise(RowEmissions(n, i, n))
    ensures AllFit(row, n)
  {
    row := [];
    var j := 0;
    while j < n
      invariant 0 <= j <= n
      invariant row == Realise(RowEmissions(n, i, j))
      invariant AllFit(row, n)
    {
      var block := EmitCell(n, i, j);
      CellFits(n, i, j);
      AllFitConcat(row, block, n);
      RealiseConcat(RowEmissions(n, i, j), CellEmissions(n, i, j));
      row := row + block;
      j := j + 1;
    }
  }

  /** The outer loop of the source: one `EmitRow` per row, i ascending. */
  method GenerateConstraints(n: nat) returns (cs: seq<Constraint>)
    ensures cs == GenericSystem(n)
    ensures AllFit(cs, n)
  {
    cs := [];
    var i := 0;
    while i < n
      invariant 0 <= i <= n
      invariant cs == Realise(GridEmissions(n, i))
      invariant AllFit(cs, n)
    {
      var row := EmitRow(n, i);
      AllFitConcat(cs, row, n);
      RealiseConcat(GridEmissions(n, i), RowEmissions(n, i, n));
      cs := cs + row;
      i := i + 1;
    }
  }
}
