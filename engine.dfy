/** The simulator object: the grid it owns, the tick that replaces it, the
    brush that paints the next grid in place, the reset key and the
    fixed-step catch-up loop. */
module Engine {
  import opened Rules
  import opened Properties

  /** Cells per side of the grid. */
  const SIZE: nat := 50
  /** Brush radius; the brush covers RADIUS / 2 cells per axis. */
  const RADIUS: nat := 5

  /** `generate_grid`: a fresh size × size array of zeros, filled row by row. */
  method GenerateGrid(size: nat) returns (g: array2<Cell>)
    ensures fresh(g) && g.Length0 == size && g.Length1 == size
    ensures forall i, j :: 0 <= i < size && 0 <= j < size ==> g[i, j] == EMPTY
    ensures Snapshot(g) == EmptyGrid(size)
  {
    g := new Cell[size, size];
    for row := 0 to size
      invariant forall i, j :: 0 <= i < row && 0 <= j < size ==> g[i, j] == EMPTY
    {
      for col := 0 to size
        invariant forall i, j :: 0 <= i < row && 0 <= j < size ==> g[i, j] == EMPTY
        invariant forall j :: 0 <= j < col ==> g[row, j] == EMPTY
      {
        g[row, col] := EMPTY;
      }
    }
    GridExt(Snapshot(g), EmptyGrid(size), size);
  }

  /** The contents of a 2-D array as a grid value. */
  ghost function Snapshot(a: array2<Cell>): (g: Grid)
    reads a
    ensures |g| == a.Length0
    ensures forall i :: 0 <= i < a.Length0 ==>
              |g[i]| == a.Length1 && forall j :: 0 <= j < a.Length1 ==> g[i][j] == a[i, j]
  {
    seq(a.Length0, i reads a =>
      seq(a.Length1, j reads a =>
        if 0 <= i < a.Length0 && 0 <= j < a.Length1 then a[i, j] else EMPTY))
  }

  class FallingSand {
    const size: nat
    const radius: nat
    var grid: array2<Cell>

    /** The grid is size × size. */
    ghost predicate Valid()
      reads this
    {
      grid.Length0 == size && grid.Length1 == size
    }

    /** The committed grid as a value. */
    ghost function Cells(): (g: Grid)
      reads this, grid
      requires Valid()
      ensures IsGrid(g, size)
    {
      Snapshot(grid)
    }

    constructor ()
      ensures size == SIZE && radius == RADIUS
      ensures Valid() && fresh(grid) && Cells() == EmptyGrid(size)
    {
      var g := GenerateGrid(SIZE);
      size, radius, grid := SIZE, RADIUS, g;
    }

    /** `within_rows`: row is a row index of the grid. */
    function WithinRows(row: int): (b: bool)
      reads this
      requires Valid()
      ensures b <==> 0 <= row < grid.Length0
    {
      InRange(size, row)
    }

    /** `within_cols`: col is a column index of the grid. */
    function WithinCols(col: int): (b: bool)
      reads this
      requires Valid()
      ensures b <==> 0 <= col < grid.Length1
    {
      InRange(size, col)
    }

    /** The reset key: the grid is replaced by an empty one. */
    method Reset()
      requires Valid()
      modifies this
      ensures Valid() && fresh(grid)
      ensures Cells() == EmptyGrid(size) && SandCount(Cells(), size) == 0
    {
      grid := GenerateGrid(size);
      assert SandCells(Cells(), size) == {};
    }

    /** `handle_drag` with the pointer in cell (x, y): every candidate offset
        (row, column) in [0, extent)² that keep admits writes 1 to
        next[y + column, x + row] when both indices are in range. It only
        ever writes 1, and only inside the brush block. */
    method HandleDrag(next: array2<Cell>, x: int, y: int, keep: (int, int) -> bool)
      requires Valid() && next.Length0 == size && next.Length1 == size
      modifies next
      ensures forall i, j :: 0 <= i < size && 0 <= j < size ==>
                next[i, j] == if Brushed(size, Extent(radius), x, y, keep, i, j) then SAND else old(next[i, j])
    {
      var extent := radius / 2;
      for row := 0 to extent
        invariant forall i, j :: 0 <= i < size && 0 <= j < size ==>
                    next[i, j] == if 0 <= j - x < row && 0 <= i - y < extent && keep(j - x, i - y)
                                  then SAND else old(next[i, j])
      {
        for column := 0 to extent
          invariant forall i, j :: 0 <= i < size && 0 <= j < size ==>
                      next[i, j] == if ((0 <= j - x < row && 0 <= i - y < extent) ||
                                        (j - x == row && 0 <= i - y < column)) && keep(j - x, i - y)
                                    then SAND else old(next[i, j])
        {
          if keep(row, column) {
            var r := x + row;
            var c := y + column;
            if WithinCols(c) && WithinRows(r) {
              next[c, r] := SAND;
            }
          }
        }
      }
    }

    /** `update_grid`: a fresh grid is painted (when the button is held) and
        then receives every particle of the current grid at its destination,
        scanning row by row; the result is committed. Whatever the scan
        order, the committed grid is the order-free Tick of the old one. */
    method UpdateGrid(p: Pointer, keep: (int, int) -> bool, dir: (int, int) -> Side)
      requires Valid()
      modifies this
      ensures Valid() && fresh(grid)
      ensures Cells() == Tick(old(Cells()), size, Extent(radius), p, keep, dir)
    {
      ghost var g := Cells();
      ghost var extent := Extent(radius);
      var next := GenerateGrid(size);
      if p.held {
        HandleDrag(next, p.x, p.y, keep);
      }
      assert forall i, j :: 0 <= i < size && 0 <= j < size ==>
               next[i, j] == if Painted(size, extent, p, keep, i, j) then SAND else EMPTY;
      ScanParticles(next, dir);
      ScanComplete(next, g, size, extent, p, keep, dir);
      grid := next;
    }

    /** The nested scan of `update_grid`: every cell of the current grid, row
        by row, is settled into next. Afterwards a cell of next holds sand
        exactly when it held sand before the scan or some particle lands on it. */
    method ScanParticles(next: array2<Cell>, dir: (int, int) -> Side)
      requires Valid() && next.Length0 == size && next.Length1 == size && next != grid
      modifies next
      ensures forall i, j :: 0 <= i < size && 0 <= j < size ==>
                next[i, j] == if old(next[i, j]) == SAND || Reached(Cells(), size, dir, i, j, size, 0)
                              then SAND else EMPTY
    {
      ghost var g := Cells();
      for row := 0 to size
        invariant forall i, j :: 0 <= i < size && 0 <= j < size ==>
                    next[i, j] == if old(next[i, j]) == SAND || Reached(g, size, dir, i, j, row, 0)
                                  then SAND else EMPTY
      {
        ScanRow(next, row, dir);
        RowWrap(g, size, dir, row);
      }
    }

    /** One row of the scan: columns 0 .. size - 1 of `row` are settled in
        turn. Given that the particles of the rows above are already in
        next, afterwards next holds those of `row` as well. */
    method ScanRow(next: array2<Cell>, row: int, dir: (int, int) -> Side)
      requires Valid() && next.Length0 == size && next.Length1 == size && next != grid
      requires InRange(size, row)
      requires forall i, j :: 0 <= i < size && 0 <= j < size && Reached(Cells(), size, dir, i, j, row, 0) ==>
                 next[i, j] == SAND
      modifies next
      ensures forall i, j :: 0 <= i < size && 0 <= j < size ==>
                next[i, j] == if old(next[i, j]) == SAND || Reached(Cells(), size, dir, i, j, row, size)
                              then SAND else EMPTY
    {
      ghost var g := Cells();
      for col := 0 to size
        invariant forall i, j :: 0 <= i < size && 0 <= j < size ==>
                    next[i, j] == if old(next[i, j]) == SAND || Reached(g, size, dir, i, j, row, col)
                                  then SAND else EMPTY
      {
        ScanStep(g, size, dir, row, col);
        Settle(next, row, col, dir(row, col));
      }
    }

    /** The body of the scan in `update_grid` for cell (row, col): a sand
        particle is written into next at its destination, read from the
        current grid only; nothing else of next changes. */
    method Settle(next: array2<Cell>, row: int, col: int, side: Side)
      requires Valid() && next.Length0 == size && next.Length1 == size && next != grid
      requires InRange(size, row) && InRange(size, col)
      modifies next
      ensures forall i, j :: 0 <= i < size && 0 <= j < size ==>
                next[i, j] == if Cells()[row][col] == SAND && (i, j) == Dest(Cells(), size, row, col, side)
                              then SAND else old(next[i, j])
    {
      ghost var g := Cells();
      var cell := grid[row, col];
      var below := row + 1;

      if cell != SAND {
        return;
      }

      if WithinRows(below) && grid[below, col] == EMPTY {
        assert g[below][col] == grid[below, col];
        next[below, col] := SAND;
        return;
      }

      var newCol := col + Offset(side);

      if WithinCols(newCol) && WithinRows(below) && grid[below, newCol] == EMPTY {
        assert g[below][newCol] == grid[below, newCol];
        next[below, newCol] := SAND;
        return;
      }

      assert WithinRows(below) ==> grid[below, col] == g[below][col];
      assert WithinCols(newCol) && WithinRows(below) ==> grid[below, newCol] == g[below][newCol];
      next[row, col] := cell;
    }

    /** The fixed-step loop of `run`, in whole time units: while at least
        one tick duration `delta` of the elapsed time remains, run one tick
        (tick t samples ptr(t), keep(t), dir(t)) and subtract delta. */
    method RunTicks(elapsed: nat, delta: nat, ptr: nat -> Pointer,
                    keep: nat -> (int, int) -> bool, dir: nat -> (int, int) -> Side)
      returns (ticks: nat, left: nat)
      requires Valid() && delta > 0
      modifies this
      ensures Valid()
      ensures ticks * delta + left == elapsed && left < delta
      ensures ticks == elapsed / delta && left == elapsed % delta
      ensures Cells() == Iterate(old(Cells()), size, Extent(radius), ticks, ptr, keep, dir)
    {
      ghost var g := Cells();
      ticks, left := 0, elapsed;
      while left >= delta
        invariant Valid()
        invariant ticks * delta + left == elapsed
        invariant Cells() == Iterate(g, size, Extent(radius), ticks, ptr, keep, dir)
      {
        UpdateGrid(ptr(ticks), keep(ticks), dir(ticks));
        left := left - delta;
        ticks := ticks + 1;
      }
      DivMod(elapsed, delta, ticks, left);
    }
  }

  /** Scanning (row, col) adds exactly the particle at (row, col), if there
      is one, at its destination. */
  lemma ScanStep(g: Grid, n: nat, dir: (int, int) -> Side, row: int, col: int)
    requires IsGrid(g, n) && InRange(n, row) && InRange(n, col)
    ensures forall i, j :: Reached(g, n, dir, i, j, row, col + 1)
                       == (Reached(g, n, dir, i, j, row, col) ||
                           (g[row][col] == SAND && (i, j) == Dest(g, n, row, col, dir(row, col))))
  {
  }

  /** Once every row is scanned, the buffer holds the tick of g. */
  lemma ScanComplete(next: array2<Cell>, g: Grid, n: nat, extent: nat, p: Pointer,
                     keep: (int, int) -> bool, dir: (int, int) -> Side)
    requires IsGrid(g, n) && next.Length0 == n && next.Length1 == n
    requires forall i, j :: 0 <= i < n && 0 <= j < n ==>
               next[i, j] == if Painted(n, extent, p, keep, i, j) || Reached(g, n, dir, i, j, n, 0)
                             then SAND else EMPTY
    ensures Snapshot(next) == Tick(g, n, extent, p, keep, dir)
  {
    GridExt(Snapshot(next), Tick(g, n, extent, p, keep, dir), n);
  }

  /** Past the last column of a row, the scan moves on to the next row. */
  lemma RowWrap(g: Grid, n: nat, dir: (int, int) -> Side, row: int)
    requires IsGrid(g, n)
    ensures forall i, j :: InRange(n, j) ==> Reached(g, n, dir, i, j, row, n) == Reached(g, n, dir, i, j, row + 1, 0)
  {
  }

  /** The quotient and remainder are determined by q * d + r == x, 0 <= r < d. */
  lemma DivMod(x: nat, d: nat, q: nat, r: nat)
    requires d > 0 && q * d + r == x && r < d
    ensures q == x / d && r == x % d
  {
    var q', r' := x / d, x % d;
    assert q' * d + r' == x;
    if q > q' {
      MulAtLeast(q - q', d);
    } else if q < q' {
      MulAtLeast(q' - q, d);
    }
  }

  lemma MulAtLeast(k: int, d: nat)
    requires k >= 1
    ensures k * d >= d
  {
  }
}
