/** The rule engine of the falling-sand simulator, stated on values.

    A grid is a square matrix of cells, indexed grid[row][column], row 0 at
    the top and rows growing in the direction of gravity. One tick reads only
    the pre-tick grid and builds a fresh grid: painted cells first, then the
    destination of every sand particle. Randomness is passed in explicitly:
    `dir` gives the lateral direction each particle would try, `keep` says
    which brush offsets survive the 75% thinning. */
module Rules {

  /** A cell holds 0 (empty) or 1 (sand), as the source's lists do. */
  type Cell = x: int | 0 <= x <= 1

  const EMPTY: Cell := 0
  const SAND: Cell := 1

  type Grid = seq<seq<Cell>>

  /** g has n rows of n cells each. */
  predicate IsGrid(g: Grid, n: nat) {
    |g| == n && forall i :: 0 <= i < n ==> |g[i]| == n
  }

  /** The bounds test of `within_rows` and `within_cols` for an n × n grid. */
  predicate InRange(n: nat, i: int) {
    0 <= i <= n - 1
  }

  /** The grid that `generate_grid` builds: n rows of n zeros. */
  function EmptyGrid(n: nat): (g: Grid)
    ensures IsGrid(g, n)
  {
    seq(n, _ => seq(n, _ => EMPTY))
  }

  /** The set of sand cells of a grid, as (row, column) pairs. */
  function SandCells(g: Grid, n: nat): (s: set<(int, int)>)
    requires IsGrid(g, n)
  {
    set i, j | 0 <= i < n && 0 <= j < n && g[i][j] == SAND :: (i, j)
  }

  function SandCount(g: Grid, n: nat): nat
    requires IsGrid(g, n)
  {
    |SandCells(g, n)|
  }

  // ---------------------------------------------------------------- brush

  /** The two outcomes of `choice((-1, 1))`. */
  datatype Side = Left | Right

  function Offset(s: Side): int {
    match s
    case Left => -1
    case Right => 1
  }

  /** Pointer state sampled by a tick: whether the primary button is held and
      the grid cell under the pointer, x from the horizontal pixel position
      and y from the vertical one. */
  datatype Pointer = Pointer(held: bool, x: int, y: int)

  /** `extent = RADIUS // 2`. */
  function Extent(radius: nat): nat {
    radius / 2
  }

  /** Cell (i, j) is written by the brush: it lies in the grid, it is offset
      by row = j - x and column = i - y from the pointer cell with both
      offsets in [0, extent), and that offset passed the thinning test. */
  predicate Brushed(n: nat, extent: nat, x: int, y: int, keep: (int, int) -> bool, i: int, j: int) {
    InRange(n, i) && InRange(n, j) &&
    0 <= j - x < extent && 0 <= i - y < extent && keep(j - x, i - y)
  }

  /** The cells the brush writes, as the image of the surviving offsets. */
  function BrushCells(n: nat, extent: nat, x: int, y: int, keep: (int, int) -> bool): set<(int, int)> {
    set row, column | 0 <= row < extent && 0 <= column < extent && keep(row, column)
                      && InRange(n, y + column) && InRange(n, x + row)
      :: (y + column, x + row)
  }

  /** What a tick paints: nothing unless the button is held. */
  predicate Painted(n: nat, extent: nat, p: Pointer, keep: (int, int) -> bool, i: int, j: int) {
    p.held && Brushed(n, extent, p.x, p.y, keep, i, j)
  }

  // ------------------------------------------------------------- movement

  /** Where the sand particle at (r, c) ends up: straight down if that cell
      is in range and empty, else one cell down on the chosen side if that
      cell is in range and empty, else where it is. Only the pre-tick grid
      is consulted. */
  function Dest(g: Grid, n: nat, r: int, c: int, side: Side): (d: (int, int))
    requires IsGrid(g, n) && InRange(n, r) && InRange(n, c)
    ensures InRange(n, d.0) && InRange(n, d.1)
    ensures d == (r, c) || (d.0 == r + 1 && c - 1 <= d.1 <= c + 1 && g[d.0][d.1] == EMPTY)
  {
    var below := r + 1;
    if InRange(n, below) && g[below][c] == EMPTY then
      (below, c)
    else
      var newCol := c + Offset(side);
      if InRange(n, newCol) && InRange(n, below) && g[below][newCol] == EMPTY then
        (below, newCol)
      else
        (r, c)
  }

  /** The particle at (r, c) exists and its destination is (i, j). */
  predicate Arrives(g: Grid, n: nat, dir: (int, int) -> Side, r: int, c: int, i: int, j: int)
    requires IsGrid(g, n)
  {
    InRange(n, r) && InRange(n, c) && g[r][c] == SAND && Dest(g, n, r, c, dir(r, c)) == (i, j)
  }

  /** Cell (r, c) comes before (row, col) in the row-major scan. */
  predicate Scanned(r: int, c: int, row: int, col: int) {
    r < row || (r == row && c < col)
  }

  /** Some particle scanned before (row, col) lands on (i, j). Only the cell
      itself, the one above and the two diagonally above can send a
      particle to (i, j); `Properties.OnlyNeighboursArrive` proves that these
      four are all there are. With (row, col) = (n, 0) every cell has been
      scanned. */
  predicate Reached(g: Grid, n: nat, dir: (int, int) -> Side, i: int, j: int, row: int, col: int)
    requires IsGrid(g, n)
  {
    (Scanned(i, j, row, col) && Arrives(g, n, dir, i, j, i, j)) ||
    (Scanned(i - 1, j, row, col) && Arrives(g, n, dir, i - 1, j, i, j)) ||
    (Scanned(i - 1, j - 1, row, col) && Arrives(g, n, dir, i - 1, j - 1, i, j)) ||
    (Scanned(i - 1, j + 1, row, col) && Arrives(g, n, dir, i - 1, j + 1, i, j))
  }

  /** Cell (i, j) holds sand after the tick. */
  predicate Occupied(g: Grid, n: nat, extent: nat, p: Pointer, keep: (int, int) -> bool,
                     dir: (int, int) -> Side, i: int, j: int)
    requires IsGrid(g, n)
  {
    Painted(n, extent, p, keep, i, j) || Reached(g, n, dir, i, j, n, 0)
  }

  /** One tick of `update_grid`, independent of any scan order. */
  function Tick(g: Grid, n: nat, extent: nat, p: Pointer, keep: (int, int) -> bool,
                dir: (int, int) -> Side): (h: Grid)
    requires IsGrid(g, n)
    ensures IsGrid(h, n)
  {
    seq(n, i => seq(n, j => if Occupied(g, n, extent, p, keep, dir, i, j) then SAND else EMPTY))
  }

  /** `ticks` consecutive ticks; tick t samples ptr(t), keep(t) and dir(t). */
  function Iterate(g: Grid, n: nat, extent: nat, ticks: nat, ptr: nat -> Pointer,
                   keep: nat -> (int, int) -> bool, dir: nat -> (int, int) -> Side): (h: Grid)
    requires IsGrid(g, n)
    ensures IsGrid(h, n)
    decreases ticks
  {
    if ticks == 0 then g
    else Tick(Iterate(g, n, extent, ticks - 1, ptr, keep, dir), n, extent,
              ptr(ticks - 1), keep(ticks - 1), dir(ticks - 1))
  }
}
