/** What the generic constraint loop of solver.cpp guarantees: which
    constraints it emits and in which order, how many, that they stay
    inside the grid, what each one means, and what they force on any grid
    that satisfies them. */
module GridConstraintFacts {
  import opened LinearModel
  import opened GridConstraints

  // ---------------------------------------------------------------------
  // Which constraints are emitted

  /** A block of cells: rows top .. bottom-1, columns left .. right-1. */
  datatype Box = Box(top: int, bottom: int, left: int, right: int)

  /** The emission lies in the box and its guard holds at its cell. */
  predicate InBox(e: Emission, n: int, b: Box) {
    b.top <= e.row < b.bottom && b.left <= e.col < b.right && Guard(e.family, n, e.row, e.col)
  }

  /** Every emission of `es` lies in the box with its guard holding. */
  predicate Inside(es: seq<Emission>, n: int, b: Box) {
    forall k :: 0 <= k < |es| ==> InBox(es[k], n, b)
  }

  predicate Within(b: Box, c: Box) {
    c.top <= b.top && b.bottom <= c.bottom && c.left <= b.left && b.right <= c.right
  }

  lemma InsideJoin(a: seq<Emission>, b: seq<Emission>, n: int, ba: Box, bb: Box, c: Box)
    requires Inside(a, n, ba) && Inside(b, n, bb) && Within(ba, c) && Within(bb, c)
    ensures Inside(a + b, n, c)
  {
    forall k | 0 <= k < |a + b| ensures InBox((a + b)[k], n, c) {
      if k < |a| { assert (a + b)[k] == a[k]; } else { assert (a + b)[k] == b[k - |a|]; }
    }
  }

  lemma InsideMember(es: seq<Emission>, n: int, b: Box, e: Emission)
    requires Inside(es, n, b) && e in es
    ensures InBox(e, n, b)
  {
    var k :| 0 <= k < |es| && es[k] == e;
  }

  lemma CellMembers(n: int, i: int, j: int, e: Emission)
    ensures e in CellEmissions(n, i, j) <==> e.row == i && e.col == j && Guard(e.family, n, e.row, e.col)
  {
    GuardedMembers(BodyOrder, n, i, j, e);
  }

  lemma CellInside(n: int, i: int, j: int)
    ensures Inside(CellEmissions(n, i, j), n, Box(i, i + 1, j, j + 1))
  {
    var es := CellEmissions(n, i, j);
    forall k | 0 <= k < |es| ensures InBox(es[k], n, Box(i, i + 1, j, j + 1)) {
      CellMembers(n, i, j, es[k]);
    }
  }

  /** Row i over columns 0 .. m-1 emits only guarded emissions of its own
      cells. */
  lemma {:induction false} RowInside(n: int, i: int, m: nat)
    ensures Inside(RowEmissions(n, i, m), n, Box(i, i + 1, 0, m))
  {
    if m > 0 {
      RowInside(n, i, m - 1);
      CellInside(n, i, m - 1);
      InsideJoin(RowEmissions(n, i, m - 1), CellEmissions(n, i, m - 1), n,
                 Box(i, i + 1, 0, m - 1), Box(i, i + 1, m - 1, m), Box(i, i + 1, 0, m));
    }
  }

  lemma {:induction false} GridInside(n: nat, r: nat)
    ensures Inside(GridEmissions(n, r), n, Box(0, r, 0, n))
  {
    if r > 0 {
      GridInside(n, r - 1);
      RowInside(n, r - 1, n);
      InsideJoin(GridEmissions(n, r - 1), RowEmissions(n, r - 1, n), n,
                 Box(0, r - 1, 0, n), Box(r - 1, r, 0, n), Box(0, r, 0, n));
    }
  }

  /** Every guarded emission of row i over columns 0 .. m-1 is there. */
  lemma {:induction false} RowComplete(n: int, i: int, m: nat, e: Emission)
    requires e.row == i && 0 <= e.col < m && Guard(e.family, n, e.row, e.col)
    ensures e in RowEmissions(n, i, m)
  {
    if e.col < m - 1 {
      RowComplete(n, i, m - 1, e);
    } else {
      CellMembers(n, i, m - 1, e);
    }
  }

  lemma {:induction false} GridComplete(n: nat, r: nat, e: Emission)
    requires 0 <= e.row < r && 0 <= e.col < n && Guard(e.family, n, e.row, e.col)
    ensures e in GridEmissions(n, r)
  {
    if e.row < r - 1 {
      GridComplete(n, r - 1, e);
    } else {
      RowComplete(n, r - 1, n, e);
    }
  }

  /** Nothing else is emitted: every emission of the loop is at a cell of
      the grid and its guard holds there. */
  lemma ScheduleSound(n: nat)
    ensures Inside(Schedule(n), n, Box(0, n, 0, n))
  {
    GridInside(n, n);
  }

  /** No guarded constraint is missed: the loop emits family f at cell
      (i, j) whenever (i, j) is a cell of the grid and the guard of f holds
      there. */
  lemma ScheduleComplete(n: nat, e: Emission)
    requires 0 <= e.row < n && 0 <= e.col < n && Guard(e.family, n, e.row, e.col)
    ensures e in Schedule(n)
  {
    GridComplete(n, n, e);
  }

  /** The two together: family f is emitted at cell (i, j) exactly when
      (i, j) is a cell of the grid and the guard of f holds there. */
  lemma ScheduleMembers(n: nat, e: Emission)
    ensures e in Schedule(n)
        <==> 0 <= e.row < n && 0 <= e.col < n && Guard(e.family, n, e.row, e.col)
  {
    if e in Schedule(n) {
      ScheduleSound(n);
      InsideMember(Schedule(n), n, Box(0, n, 0, n), e);
    }
    if 0 <= e.row < n && 0 <= e.col < n && Guard(e.family, n, e.row, e.col) {
      ScheduleComplete(n, e);
    }
  }

  // ---------------------------------------------------------------------
  // Every emitted constraint stays inside the grid

  /** Every constraint of the generic system mentions only cells x[a][b]
      with 0 <= a, b < n. */
  lemma GenericSystemFits(n: nat)
    ensures AllFit(GenericSystem(n), n)
  {
    var es := Schedule(n);
    ScheduleSound(n);
    forall k | 0 <= k < |es| ensures Fits(GenericSystem(n)[k], n) {
      assert InBox(es[k], n, Box(0, n, 0, n));
      InstanceFits(es[k], n);
    }
  }

  // ---------------------------------------------------------------------
  // Emission order

  /** Row-major order of cells, then the loop body's order of families. */
  predicate Precedes(a: Emission, b: Emission) {
    a.row < b.row
    || (a.row == b.row && (a.col < b.col || (a.col == b.col && Rank(a.family) < Rank(b.family))))
  }

  predicate Increasing(es: seq<Emission>) {
    forall k, l :: 0 <= k < l < |es| ==> Precedes(es[k], es[l])
  }

  /** Every emission of `a` precedes every emission of `b`. */
  predicate AllBefore(a: seq<Emission>, b: seq<Emission>) {
    forall k, l :: 0 <= k < |a| && 0 <= l < |b| ==> Precedes(a[k], b[l])
  }

  lemma IncreasingConcat(a: seq<Emission>, b: seq<Emission>)
    requires Increasing(a) && Increasing(b) && AllBefore(a, b)
    ensures Increasing(a + b)
  {
    var ab := a + b;
    forall k, l | 0 <= k < l < |ab| ensures Precedes(ab[k], ab[l]) {
      if l < |a| {
        assert ab[k] == a[k] && ab[l] == a[l];
      } else if k >= |a| {
        assert ab[k] == b[k - |a|] && ab[l] == b[l - |a|];
      } else {
        assert ab[k] == a[k] && ab[l] == b[l - |a|];
      }
    }
  }

  /** Families listed in strictly increasing rank. */
  predicate RankIncreasing(fs: seq<Family>) {
    forall k, l :: 0 <= k < l < |fs| ==> Rank(fs[k]) < Rank(fs[l])
  }

  lemma {:induction false} GuardedIncreasing(fs: seq<Family>, n: int, i: int, j: int)
    requires RankIncreasing(fs)
    ensures Increasing(Guarded(fs, n, i, j))
  {
    if fs != [] {
      var head, tail := Piece(fs[0], n, i, j), Guarded(fs[1..], n, i, j);
      GuardedIncreasing(fs[1..], n, i, j);
      forall k, l | 0 <= k < |head| && 0 <= l < |tail| ensures Precedes(head[k], tail[l]) {
        GuardedMembers(fs[1..], n, i, j, tail[l]);
        var p :| 0 <= p < |fs[1..]| && fs[1..][p] == tail[l].family;
        assert fs[p + 1] == tail[l].family;
      }
      IncreasingConcat(head, tail);
    }
  }

  lemma CellIncreasing(n: int, i: int, j: int)
    ensures Increasing(CellEmissions(n, i, j))
  {
    GuardedIncreasing(BodyOrder, n, i, j);
  }

  /** Emissions confined to earlier columns of a row precede those of a
      later column of the same row. */
  lemma ColumnsBefore(a: seq<Emission>, b: seq<Emission>, n: int, i: int, m: int)
    requires Inside(a, n, Box(i, i + 1, 0, m)) && Inside(b, n, Box(i, i + 1, m, m + 1))
    ensures AllBefore(a, b)
  {
    forall k, l | 0 <= k < |a| && 0 <= l < |b| ensures Precedes(a[k], b[l]) {
      assert InBox(a[k], n, Box(i, i + 1, 0, m)) && InBox(b[l], n, Box(i, i + 1, m, m + 1));
    }
  }

  /** Emissions confined to earlier rows precede those of a later row. */
  lemma RowsBefore(a: seq<Emission>, b: seq<Emission>, n: int, r: int)
    requires Inside(a, n, Box(0, r, 0, n)) && Inside(b, n, Box(r, r + 1, 0, n))
    ensures AllBefore(a, b)
  {
    forall k, l | 0 <= k < |a| && 0 <= l < |b| ensures Precedes(a[k], b[l]) {
      assert InBox(a[k], n, Box(0, r, 0, n)) && InBox(b[l], n, Box(r, r + 1, 0, n));
    }
  }

  lemma {:induction false} RowIncreasing(n: int, i: int, m: nat)
    ensures Increasing(RowEmissions(n, i, m))
  {
    if m > 0 {
      RowIncreasing(n, i, m - 1);
      CellIncreasing(n, i, m - 1);
      RowInside(n, i, m - 1);
      CellInside(n, i, m - 1);
      ColumnsBefore(RowEmissions(n, i, m - 1), CellEmissions(n, i, m - 1), n, i, m - 1);
      IncreasingConcat(RowEmissions(n, i, m - 1), CellEmissions(n, i, m - 1));
    }
  }

  lemma {:induction false} GridIncreasing(n: nat, r: nat)
    ensures Increasing(GridEmissions(n, r))
  {
    if r > 0 {
      var done, row := GridEmissions(n, r - 1), RowEmissions(n, r - 1, n);
      assert GridEmissions(n, r) == done + row;
      GridIncreasing(n, r - 1);
      RowIncreasing(n, r - 1, n);
      GridInside(n, r - 1);
      RowInside(n, r - 1, n);
      RowsBefore(done, row, n, r - 1);
      IncreasingConcat(done, row);
    }
  }

  /** The emission order is fixed: cells row-major (i outer, j inner) and,
      within a cell, row-monotone, column-monotone, the two cross terms,
      row-convex, column-convex. In particular no constraint is emitted
      twice. */
  lemma ScheduleIncreasing(n: nat)
    ensures Increasing(Schedule(n))
  {
    GridIncreasing(n, n);
  }

  // ---------------------------------------------------------------------
  // How many constraints of each family

  /** The number of emissions of family f in `es`. */
  function Count(es: seq<Emission>, f: Family): nat {
    if es == [] then 0 else (if es[0].family == f then 1 else 0) + Count(es[1..], f)
  }

  lemma {:induction false} CountConcat(a: seq<Emission>, b: seq<Emission>, f: Family)
    ensures Count(a + b, f) == Count(a, f) + Count(b, f)
  {
    if a == [] {
      assert a + b == b;
    } else {
      assert (a + b)[0] == a[0];
      assert (a + b)[1..] == a[1..] + b;
      CountConcat(a[1..], b, f);
    }
  }

  function Min(a: int, b: int): int {
    if a <= b then a else b
  }

  /** A loop bound as a number of iterations: negative bounds run none. */
  function Clip(x: int): nat {
    if x < 0 then 0 else x
  }

  lemma {:induction false} GuardedCount(fs: seq<Family>, n: int, i: int, j: int, f: Family)
    requires RankIncreasing(fs)
    ensures Count(Guarded(fs, n, i, j), f) == if f in fs && Guard(f, n, i, j) then 1 else 0
  {
    if fs != [] {
      GuardedCount(fs[1..], n, i, j, f);
      CountConcat(Piece(fs[0], n, i, j), Guarded(fs[1..], n, i, j), f);
      assert fs == [fs[0]] + fs[1..];
      if fs[0] == f {
        assert f !in fs[1..] by {
          forall l | 0 <= l < |fs[1..]| ensures fs[1..][l] != f {
            assert Rank(fs[0]) < Rank(fs[l + 1]);
          }
        }
      }
    }
  }

  /** Each family is emitted at most once per cell: exactly when its guard
      holds. */
  lemma CellCount(n: int, i: int, j: int, f: Family)
    ensures Count(CellEmissions(n, i, j), f) == if Guard(f, n, i, j) then 1 else 0
  {
    GuardedCount(BodyOrder, n, i, j, f);
    assert f in BodyOrder by {
      match f
      case RowMonotone => assert BodyOrder[0] == f;
      case ColumnMonotone => assert BodyOrder[1] == f;
      case CrossRow => assert BodyOrder[2] == f;
      case CrossColumn => assert BodyOrder[3] == f;
      case RowConvex => assert BodyOrder[4] == f;
      case ColumnConvex => assert BodyOrder[5] == f;
    }
  }

  lemma {:induction false} RowCount(n: int, i: int, m: nat, f: Family)
    ensures Count(RowEmissions(n, i, m), f)
         == if i < RowLimit(f, n) then Min(m, Clip(ColLimit(f, n))) else 0
  {
    if m > 0 {
      RowCount(n, i, m - 1, f);
      CellCount(n, i, m - 1, f);
      CountConcat(RowEmissions(n, i, m - 1), CellEmissions(n, i, m - 1), f);
    }
  }

  lemma {:induction false} GridCount(n: nat, r: nat, f: Family)
    ensures Count(GridEmissions(n, r), f) == Min(r, Clip(RowLimit(f, n))) * Clip(ColLimit(f, n))
  {
    if r > 0 {
      GridCount(n, r - 1, f);
      RowCount(n, r - 1, n, f);
      CountConcat(GridEmissions(n, r - 1), RowEmissions(n, r - 1, n), f);
      var rows, cols := RowLimit(f, n), Clip(ColLimit(f, n));
      var done := Min(r - 1, Clip(rows));
      assert Count(GridEmissions(n, r), f)
          == done * cols + (if r - 1 < rows then Min(n, cols) else 0);
      assert Min(n, cols) == cols;
      StepProduct(r, Clip(rows), cols);
    }
  }

  /** One more row adds a full row of `cols` while rows remain. */
  lemma StepProduct(r: nat, rows: nat, cols: nat)
    requires r > 0
    ensures Min(r, rows) * cols == Min(r - 1, rows) * cols + (if r - 1 < rows then cols else 0)
  {
    if r - 1 < rows {
      assert Min(r, rows) == Min(r - 1, rows) + 1;
    } else {
      assert Min(r, rows) == Min(r - 1, rows);
    }
  }

  /** Family f is emitted once per cell of a RowLimit-by-ColLimit block. */
  lemma ScheduleFamilyCount(n: nat, f: Family)
    ensures Count(Schedule(n), f) == Clip(RowLimit(f, n)) * Clip(ColLimit(f, n))
  {
    GridCount(n, n, f);
  }

  /** Every emission belongs to one of the six families. */
  lemma {:induction false} SizeByFamilies(es: seq<Emission>)
    ensures |es| == Count(es, RowMonotone) + Count(es, ColumnMonotone)
                  + Count(es, CrossRow) + Count(es, CrossColumn)
                  + Count(es, RowConvex) + Count(es, ColumnConvex)
  {
    if es != [] {
      SizeByFamilies(es[1..]);
    }
  }

  /** For n >= 2 the loop adds n(n-1) row-monotone, n(n-1) column-monotone,
      (n-1)^2 constraints of each cross family, n(n-2) row-convex and n(n-2)
      column-convex constraints. */
  lemma FamilyCounts(n: nat)
    requires n >= 2
    ensures Count(Schedule(n), RowMonotone) == n * (n - 1)
    ensures Count(Schedule(n), ColumnMonotone) == n * (n - 1)
    ensures Count(Schedule(n), CrossRow) == (n - 1) * (n - 1)
    ensures Count(Schedule(n), CrossColumn) == (n - 1) * (n - 1)
    ensures Count(Schedule(n), RowConvex) == n * (n - 2)
    ensures Count(Schedule(n), ColumnConvex) == n * (n - 2)
  {
    var below, before := n - 1, n - 2;
    ScheduleFamilyCount(n, RowMonotone);
    assert Clip(RowLimit(RowMonotone, n)) == below && Clip(ColLimit(RowMonotone, n)) == n;
    ScheduleFamilyCount(n, ColumnMonotone);
    assert Clip(RowLimit(ColumnMonotone, n)) == n && Clip(ColLimit(ColumnMonotone, n)) == below;
    ScheduleFamilyCount(n, CrossRow);
    assert Clip(RowLimit(CrossRow, n)) == below && Clip(ColLimit(CrossRow, n)) == below;
    ScheduleFamilyCount(n, CrossColumn);
    assert Clip(RowLimit(CrossColumn, n)) == below && Clip(ColLimit(CrossColumn, n)) == below;
    ScheduleFamilyCount(n, RowConvex);
    assert Clip(RowLimit(RowConvex, n)) == before && Clip(ColLimit(RowConvex, n)) == n;
    ScheduleFamilyCount(n, ColumnConvex);
    assert Clip(RowLimit(ColumnConvex, n)) == n && Clip(ColLimit(ColumnConvex, n)) == before;
  }

  /** The whole system therefore has 2n(n-1) + 2(n-1)^2 + 2n(n-2) constraints. */
  lemma GenericSystemSize(n: nat)
    requires n >= 2
    ensures |GenericSystem(n)| == 2 * (n * (n - 1)) + 2 * ((n - 1) * (n - 1)) + 2 * (n * (n - 2))
  {
    FamilyCounts(n);
    SizeByFamilies(Schedule(n));
  }
}
