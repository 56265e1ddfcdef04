/** What the generic constraints say about a grid of values: each one is the
    inequality written beside it in solver.cpp, all of them are met by a
    constant grid, and together they force the grid to be non-decreasing
    along rows and columns. */
module GridConstraintMeaning {
  import opened LinearModel
  import opened GridConstraints
  import opened GridConstraintFacts

  /** The emission sits at a cell of the grid and its guard holds there,
      i.e. the loop emits it (see `ScheduleMembers`). */
  predicate Placed(e: Emission, n: int) {
    0 <= e.row < n && 0 <= e.col < n && Guard(e.family, n, e.row, e.col)
  }

  /** The inequality each family stands for, in the difference form of the
      comments beside the loop body. */
  predicate Meaning(g: seq<seq<int>>, n: int, e: Emission)
    requires IsGrid(g, n) && Placed(e, n)
  {
    var i, j := e.row, e.col;
    match e.family
    case RowMonotone => g[i][j] <= g[i + 1][j]
    case ColumnMonotone => g[i][j] <= g[i][j + 1]
    case CrossRow => g[i][j + 1] - g[i][j] >= g[i + 1][j + 1] - g[i + 1][j]
    case CrossColumn => g[i + 1][j] - g[i][j] >= g[i + 1][j + 1] - g[i][j + 1]
    case RowConvex => g[i + 1][j] - g[i][j] >= g[i + 2][j] - g[i + 1][j]
    case ColumnConvex => g[i][j + 1] - g[i][j] >= g[i][j + 2] - g[i][j + 1]
  }

  /** The linear constraint the loop adds is exactly the commented
      inequality. */
  lemma InstanceMeaning(g: seq<seq<int>>, n: int, e: Emission)
    requires IsGrid(g, n) && Placed(e, n)
    ensures Fits(Instance(e), n)
    ensures Holds(g, n, Instance(e)) <==> Meaning(g, n, e)
  {
    InstanceFits(e, n);
    var ts := Instance(e).terms;
    match e.family
    case RowMonotone => EvalPair(ts[0], ts[1], g, n);
    case ColumnMonotone => EvalPair(ts[0], ts[1], g, n);
    case CrossRow => EvalQuad(ts[0], ts[1], ts[2], ts[3], g, n);
    case CrossColumn => EvalQuad(ts[0], ts[1], ts[2], ts[3], g, n);
    case RowConvex => EvalQuad(ts[0], ts[1], ts[2], ts[3], g, n);
    case ColumnConvex => EvalQuad(ts[0], ts[1], ts[2], ts[3], g, n);
  }

  /** The two cross constraints added at the same cell accept exactly the
      same grids: both say x[i][j+1] + x[i+1][j] >= x[i][j] + x[i+1][j+1]. */
  lemma CrossTermsCoincide(g: seq<seq<int>>, n: int, i: int, j: int)
    requires IsGrid(g, n) && 0 <= i < n - 1 && 0 <= j < n - 1
    ensures Fits(Instance(Emission(CrossRow, i, j)), n)
    ensures Fits(Instance(Emission(CrossColumn, i, j)), n)
    ensures Holds(g, n, Instance(Emission(CrossRow, i, j)))
        <==> Holds(g, n, Instance(Emission(CrossColumn, i, j)))
  {
    InstanceMeaning(g, n, Emission(CrossRow, i, j));
    InstanceMeaning(g, n, Emission(CrossColumn, i, j));
  }

  /** Every constraint the loop builds is homogeneous: its coefficients
      cancel, its right-hand side is 0 and it is not strict. */
  lemma InstanceHomogeneous(e: Emission)
    ensures Homogeneous(Instance(e))
  {
    var ts := Instance(e).terms;
    match e.family
    case RowMonotone => CoefSumPair(ts[0], ts[1]);
    case ColumnMonotone => CoefSumPair(ts[0], ts[1]);
    case CrossRow => CoefSumQuad(ts[0], ts[1], ts[2], ts[3]);
    case CrossColumn => CoefSumQuad(ts[0], ts[1], ts[2], ts[3]);
    case RowConvex => CoefSumQuad(ts[0], ts[1], ts[2], ts[3]);
    case ColumnConvex => CoefSumQuad(ts[0], ts[1], ts[2], ts[3]);
  }

  /** A grid with the same value in every cell meets the whole generic
      system. */
  lemma ConstantGridMeetsGeneric(n: nat, v: int)
    ensures HoldsAll(ConstantGrid(n, v), n, GenericSystem(n))
  {
    var cs := GenericSystem(n);
    GenericSystemFits(n);
    forall k | 0 <= k < |cs| ensures Fits(cs[k], n) && Holds(ConstantGrid(n, v), n, cs[k]) {
      InstanceHomogeneous(Schedule(n)[k]);
      ConstantMeetsHomogeneous(cs[k], n, v);
    }
  }

  /** Every commented inequality holds at every cell where the loop would
      emit it. */
  ghost predicate Shaped(g: seq<seq<int>>, n: int)
    requires IsGrid(g, n)
  {
    forall e :: Placed(e, n) ==> Meaning(g, n, e)
  }

  /** A grid meets the generic system exactly when it meets every commented
      inequality at every cell where the guard lets it be emitted. */
  lemma GenericSystemMeaning(g: seq<seq<int>>, n: nat)
    requires IsGrid(g, n)
    ensures HoldsAll(g, n, GenericSystem(n)) <==> Shaped(g, n)
  {
    var es := Schedule(n);
    var cs := GenericSystem(n);
    if HoldsAll(g, n, cs) {
      forall e | Placed(e, n) ensures Meaning(g, n, e) {
        ScheduleMembers(n, e);
        var k :| 0 <= k < |es| && es[k] == e;
        assert cs[k] == Instance(e);
        InstanceMeaning(g, n, e);
      }
    }
    if Shaped(g, n) {
      forall k | 0 <= k < |cs| ensures Fits(cs[k], n) && Holds(g, n, cs[k]) {
        assert es[k] in es;
        ScheduleMembers(n, es[k]);
        InstanceMeaning(g, n, es[k]);
      }
    }
  }

  /** Values never decrease down a column or along a row. */
  predicate Monotone(g: seq<seq<int>>, n: int)
    requires IsGrid(g, n)
  {
    forall i, j, i2, j2 :: 0 <= i <= i2 < n && 0 <= j <= j2 < n ==> g[i][j] <= g[i2][j2]
  }

  /** The two monotonicity families, the first two additions of the loop body. */
  predicate IsMonotoneFamily(f: Family) {
    f == RowMonotone || f == ColumnMonotone
  }

  /** `g` meets every row- and column-monotone constraint the loop adds, and
      nothing else is asked of it. */
  ghost predicate MeetsMonotone(g: seq<seq<int>>, n: int)
    requires IsGrid(g, n)
  {
    forall e :: Placed(e, n) && IsMonotoneFamily(e.family) ==> Fits(Instance(e), n) && Holds(g, n, Instance(e))
  }

  lemma {:induction false} AlongRow(g: seq<seq<int>>, n: int, i: int, j: int, j2: int)
    requires IsGrid(g, n) && MeetsMonotone(g, n)
    requires 0 <= i < n && 0 <= j <= j2 < n
    ensures g[i][j] <= g[i][j2]
    decreases j2 - j
  {
    if j < j2 {
      var e := Emission(ColumnMonotone, i, j);
      assert Placed(e, n) && IsMonotoneFamily(e.family);
      InstanceMeaning(g, n, e);
      AlongRow(g, n, i, j + 1, j2);
    }
  }

  lemma {:induction false} DownColumn(g: seq<seq<int>>, n: int, i: int, i2: int, j: int)
    requires IsGrid(g, n) && MeetsMonotone(g, n)
    requires 0 <= i <= i2 < n && 0 <= j < n
    ensures g[i][j] <= g[i2][j]
    decreases i2 - i
  {
    if i < i2 {
      var e := Emission(RowMonotone, i, j);
      assert Placed(e, n) && IsMonotoneFamily(e.family);
      InstanceMeaning(g, n, e);
      DownColumn(g, n, i + 1, i2, j);
    }
  }

  /** Any grid that meets the row- and column-monotone constraints alone is
      non-decreasing in both indices. */
  lemma MonotoneConstraintsOrderGrid(g: seq<seq<int>>, n: nat)
    requires IsGrid(g, n) && MeetsMonotone(g, n)
    ensures Monotone(g, n)
  {
    forall i, j, i2, j2 | 0 <= i <= i2 < n && 0 <= j <= j2 < n ensures g[i][j] <= g[i2][j2] {
      AlongRow(g, n, i, j, j2);
      DownColumn(g, n, i, i2, j2);
    }
  }

  /** In such a grid the bottom-right corner is the largest value and the
      top-left corner the smallest. */
  lemma MonotoneConstraintsBoundCorners(g: seq<seq<int>>, n: nat)
    requires IsGrid(g, n) && MeetsMonotone(g, n)
    ensures forall i, j :: 0 <= i < n && 0 <= j < n ==> g[0][0] <= g[i][j] <= g[n - 1][n - 1]
  {
    MonotoneConstraintsOrderGrid(g, n);
  }

  /** A grid that meets the whole generic system meets its monotone part. */
  lemma GenericSystemMeetsMonotone(g: seq<seq<int>>, n: nat)
    requires IsGrid(g, n) && HoldsAll(g, n, GenericSystem(n))
    ensures MeetsMonotone(g, n)
  {
    var es := Schedule(n);
    forall e | Placed(e, n) && IsMonotoneFamily(e.family) ensures Fits(Instance(e), n) && Holds(g, n, Instance(e)) {
      ScheduleMembers(n, e);
      var k :| 0 <= k < |es| && es[k] == e;
      assert GenericSystem(n)[k] == Instance(e);
    }
  }

  /** Hence any grid that meets the generic system is non-decreasing in both
      indices ... */
  lemma GenericSystemMonotone(g: seq<seq<int>>, n: nat)
    requires IsGrid(g, n) && HoldsAll(g, n, GenericSystem(n))
    ensures Monotone(g, n)
  {
    GenericSystemMeetsMonotone(g, n);
    MonotoneConstraintsOrderGrid(g, n);
  }

  /** ... and lies between its top-left and bottom-right corners. */
  lemma CornersBoundGrid(g: seq<seq<int>>, n: nat)
    requires IsGrid(g, n) && HoldsAll(g, n, GenericSystem(n))
    ensures forall i, j :: 0 <= i < n && 0 <= j < n ==> g[0][0] <= g[i][j] <= g[n - 1][n - 1]
  {
    GenericSystemMeetsMonotone(g, n);
    MonotoneConstraintsBoundCorners(g, n);
  }
}
