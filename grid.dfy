/** The subplot cursor of `fitnessplot`, `lineprofiles` and `convergence`:
    a grid of `nrows` by `ncols` axes is visited in row-major order by two
    counters that start just before the top-left cell; the first items get a
    panel each and every other cell is switched off. */
module SubplotGrid {

  /** What the loop does with one cell of the grid. */
  datatype Slot = Off | Item(index: nat)

  datatype Cell = Cell(row: int, col: int, slot: Slot)

  /** Division with remainder by a positive number is unique. */
  lemma DivModUnique(x: int, n: int, q: int, r: int)
    requires n > 0 && 0 <= r < n && x == q * n + r
    ensures x / n == q && x % n == r
  {
    var q', r' := x / n, x % n;
    assert x == q' * n + r';
    assert (q' - q) * n == r - r';
    assert -n < (q' - q) * n < n;
    MulBounds(q' - q, n);
  }

  /** A multiple of a positive `n` strictly between `-n` and `n` is zero. */
  lemma MulBounds(d: int, n: int)
    requires n > 0 && -n < d * n < n
    ensures d == 0
  {
  }

  /** The row-major index of a cell inside the grid is below the grid's size. */
  lemma RowMajorBelow(ncols: nat, nrows: nat, row: nat, col: nat)
    requires col < ncols && row < nrows
    ensures row * ncols + col < ncols * nrows
  {
    assert row * ncols + col < row * ncols + ncols == (row + 1) * ncols;
    assert (row + 1) * ncols <= nrows * ncols;
  }

  /** The number of rows that holds `items` items at `ncols` per row, at
      least `minRows` of them: `max(ceil(items / ncols), minRows)`. */
  function RowsFor(items: nat, ncols: nat, minRows: nat): (rows: nat)
    requires ncols > 0
    ensures rows >= minRows
    ensures ncols * rows >= items
    ensures rows == minRows || ncols * (rows - 1) < items
  {
    var q := (items + ncols - 1) / ncols;
    DivModUnique(items + ncols - 1, ncols, q, (items + ncols - 1) % ncols);
    if q < minRows then minRows else q
  }

  /** The cursor loop: `ccol` and `crow` start at `ncols - 1` and `-1`; at
      each step `ccol` wraps to 0 and `crow` advances, or `ccol` advances.
      Cell `i` shows item `i` when there is one and is switched off
      otherwise. */
  method WalkGrid(ncols: nat, nrows: nat, items: nat) returns (cells: seq<Cell>)
    requires ncols > 0
    ensures |cells| == ncols * nrows
    ensures forall i :: 0 <= i < |cells| ==> cells[i].row == i / ncols && cells[i].col == i % ncols
    ensures forall i :: 0 <= i < |cells| ==> cells[i].slot == if i < items then Item(i) else Off
  {
    var ccol: int := ncols - 1;
    var crow: int := -1;
    cells := [];
    var i := 0;
    while i < ncols * nrows
      invariant 0 <= i <= ncols * nrows
      invariant |cells| == i
      invariant 0 <= ccol < ncols
      invariant crow * ncols + ccol == i - 1
      invariant forall k :: 0 <= k < i ==> cells[k].row == k / ncols && cells[k].col == k % ncols
      invariant forall k :: 0 <= k < i ==> cells[k].slot == if k < items then Item(k) else Off
    {
      if ccol == ncols - 1 {
        ccol := 0;
        crow := crow + 1;
      } else {
        ccol := ccol + 1;
      }
      DivModUnique(i, ncols, crow, ccol);
      cells := cells + [Cell(crow, ccol, if i >= items then Off else Item(i))];
      i := i + 1;
    }
  }

  /** Every visited cell lies inside the grid. */
  lemma CellInGrid(ncols: nat, nrows: nat, i: nat)
    requires ncols > 0 && i < ncols * nrows
    ensures 0 <= i / ncols < nrows && 0 <= i % ncols < ncols
  {
    assert (i / ncols) * ncols <= i < nrows * ncols;
    MulLess(i / ncols, nrows, ncols);
  }

  /** Multiplying by a positive number keeps a strict order. */
  lemma MulLess(a: int, b: int, n: int)
    requires n > 0 && a * n < b * n
    ensures a < b
  {
    assert (b - a) * n > 0;
  }

  /** Columns per row in each of the three figures. */
  const FitnessCols: nat := 5
  const LineProfileCols: nat := 5
  const ConvergenceCols: nat := 3

  /** A cell of the walk with its position and its content stated
      outright. */
  ghost predicate WellPlaced(cells: seq<Cell>, ncols: nat, nrows: nat, items: nat)
    requires ncols > 0
  {
    |cells| == ncols * nrows &&
    forall i :: 0 <= i < |cells| ==>
      0 <= cells[i].row < nrows && 0 <= cells[i].col < ncols &&
      cells[i].row * ncols + cells[i].col == i &&
      cells[i].slot == if i < items then Item(i) else Off
  }

  /** The walk's cells are placed row by row inside the grid. */
  lemma WalkWellPlaced(cells: seq<Cell>, ncols: nat, nrows: nat, items: nat)
    requires ncols > 0 && |cells| == ncols * nrows
    requires forall i :: 0 <= i < |cells| ==> cells[i].row == i / ncols && cells[i].col == i % ncols
    requires forall i :: 0 <= i < |cells| ==> cells[i].slot == if i < items then Item(i) else Off
    ensures WellPlaced(cells, ncols, nrows, items)
  {
    forall i | 0 <= i < |cells|
      ensures 0 <= cells[i].row < nrows && 0 <= cells[i].col < ncols
      ensures cells[i].row * ncols + cells[i].col == i
    {
      CellInGrid(ncols, nrows, i);
    }
  }

  /** Distinct steps of the walk visit distinct cells. */
  lemma CellsDistinct(cells: seq<Cell>, ncols: nat, nrows: nat, items: nat, i: nat, j: nat)
    requires ncols > 0 && WellPlaced(cells, ncols, nrows, items)
    requires i < j < |cells|
    ensures (cells[i].row, cells[i].col) != (cells[j].row, cells[j].col)
  {
  }

  /** Every cell of the grid is visited by exactly one step of the walk, the
      step `row * ncols + col`. */
  lemma CellVisitedOnce(cells: seq<Cell>, ncols: nat, nrows: nat, items: nat, row: nat, col: nat)
    requires ncols > 0 && WellPlaced(cells, ncols, nrows, items)
    requires row < nrows && col < ncols
    ensures row * ncols + col < |cells|
    ensures cells[row * ncols + col].row == row && cells[row * ncols + col].col == col
    ensures forall i :: 0 <= i < |cells| && cells[i].row == row && cells[i].col == col ==> i == row * ncols + col
  {
    var k := row * ncols + col;
    RowMajorBelow(ncols, nrows, row, col);
    DivModUnique(k, ncols, row, col);
    DivModUnique(k, ncols, cells[k].row, cells[k].col);
  }

  /** `fitnessplot`: one panel per parameter in a grid of five columns whose
      rows leave room for one more cell (the colour bar), and never fewer
      than two rows. */
  method FitnessLayout(paramNames: seq<string>) returns (nrows: nat, cells: seq<Cell>)
    ensures nrows >= 2 && FitnessCols * nrows >= |paramNames| + 1
    ensures nrows == 2 || FitnessCols * (nrows - 1) < |paramNames| + 1
    ensures WellPlaced(cells, FitnessCols, nrows, |paramNames|)
    ensures cells[|paramNames|].slot == Off
    ensures forall i :: 0 <= i < |cells| && cells[i].slot.Item? ==> cells[i].slot.index < |paramNames|
  {
    nrows := RowsFor(|paramNames| + 1, FitnessCols, 2);
    cells := WalkGrid(FitnessCols, nrows, |paramNames|);
    WalkWellPlaced(cells, FitnessCols, nrows, |paramNames|);
  }

  /** `lineprofiles`: one panel per spectral line, five per row, at least
      two rows. */
  method LineProfileLayout(nlines: nat) returns (nrows: nat, cells: seq<Cell>)
    ensures nrows >= 2 && LineProfileCols * nrows >= nlines
    ensures nrows == 2 || LineProfileCols * (nrows - 1) < nlines
    ensures WellPlaced(cells, LineProfileCols, nrows, nlines)
  {
    nrows := RowsFor(nlines, LineProfileCols, 2);
    cells := WalkGrid(LineProfileCols, nrows, nlines);
    WalkWellPlaced(cells, LineProfileCols, nrows, nlines);
  }

  /** `convergence`: one panel per free parameter, three per row, at least
      two rows; the cells the loop finds in the bottom row (`crow == nrows - 1`),
      which get the "Generation" axis label whether they show a panel or not,
      are exactly the last three. */
  method ConvergenceLayout(nparams: nat) returns (nrows: nat, cells: seq<Cell>)
    ensures nrows >= 2 && ConvergenceCols * nrows >= nparams
    ensures nrows == 2 || ConvergenceCols * (nrows - 1) < nparams
    ensures WellPlaced(cells, ConvergenceCols, nrows, nparams)
    ensures forall i :: 0 <= i < |cells| ==> (cells[i].row == nrows - 1 <==> i >= ConvergenceCols * (nrows - 1))
  {
    nrows := RowsFor(nparams, ConvergenceCols, 2);
    cells := WalkGrid(ConvergenceCols, nrows, nparams);
    WalkWellPlaced(cells, ConvergenceCols, nrows, nparams);
    forall k | 0 <= k < |cells|
      ensures cells[k].row == nrows - 1 <==> k >= ConvergenceCols * (nrows - 1)
    {
      var r := cells[k].row;
      assert r * ConvergenceCols + cells[k].col == k;
      if r != nrows - 1 {
        assert r <= nrows - 2;
        assert r * ConvergenceCols <= (nrows - 2) * ConvergenceCols;
      }
    }
  }
}
