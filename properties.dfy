/** What one tick, and a run of ticks, guarantee about the grid. */
module Properties {
  import opened Rules

  // ------------------------------------------------------- set cardinality

  function Image<A, B>(s: set<A>, f: A -> B): set<B> {
    set x | x in s :: f(x)
  }

  /** A function never maps a finite set onto a larger one. */
  lemma {:induction false} ImageCard<A, B>(s: set<A>, f: A -> B)
    ensures |Image(s, f)| <= |s|
    decreases |s|
  {
    if s != {} {
      var x :| x in s;
      ImageCard(s - {x}, f);
      assert Image(s, f) == Image(s - {x}, f) + {f(x)};
    }
  }

  /** Two distinct elements with the same image make the image strictly smaller. */
  lemma ImageCardMerge<A, B>(s: set<A>, f: A -> B, a: A, b: A)
    requires a in s && b in s && a != b && f(a) == f(b)
    ensures |Image(s, f)| < |s|
  {
    assert Image(s, f) == Image(s - {a}, f);
    ImageCard(s - {a}, f);
  }

  /** The h × w block of offsets [0, h) × [0, w). */
  function Block(h: nat, w: nat): set<(int, int)> {
    set row, column | 0 <= row < h && 0 <= column < w :: (row, column)
  }

  function BlockRow(row: nat, w: nat): set<(int, int)> {
    set column | 0 <= column < w :: (row, column)
  }

  lemma {:induction false} BlockRowCard(row: nat, w: nat)
    ensures |BlockRow(row, w)| == w
  {
    if w > 0 {
      BlockRowCard(row, w - 1);
      assert BlockRow(row, w) == BlockRow(row, w - 1) + {(row, w - 1)};
    }
  }

  lemma {:induction false} BlockCard(h: nat, w: nat)
    ensures |Block(h, w)| == h * w
  {
    if h > 0 {
      BlockCard(h - 1, w);
      BlockRowCard(h - 1, w);
      BlockSplit(h, w);
      assert (h - 1) * w + w == h * w;
    }
  }

  lemma BlockSplit(h: nat, w: nat)
    requires h > 0
    ensures Block(h, w) == Block(h - 1, w) + BlockRow(h - 1, w)
    ensures Block(h - 1, w) * BlockRow(h - 1, w) == {}
  {
  }

  // ------------------------------------------------------------------ brush

  lemma BrushedIffBrushCells(n: nat, extent: nat, x: int, y: int, keep: (int, int) -> bool, i: int, j: int)
    ensures Brushed(n, extent, x, y, keep, i, j) <==> (i, j) in BrushCells(n, extent, x, y, keep)
  {
    if Brushed(n, extent, x, y, keep, i, j) {
      var row, column := j - x, i - y;
      assert (y + column, x + row) == (i, j);
    }
  }

  /** The brush offsets that survive thinning and land on the grid. */
  function KeptOffsets(n: nat, extent: nat, x: int, y: int, keep: (int, int) -> bool): set<(int, int)> {
    set row, column | 0 <= row < extent && 0 <= column < extent && keep(row, column)
                      && InRange(n, y + column) && InRange(n, x + row)
      :: (row, column)
  }

  function Shift(x: int, y: int): ((int, int)) -> (int, int) {
    (o: (int, int)) => (y + o.1, x + o.0)
  }

  lemma BrushCellsAreShiftedOffsets(n: nat, extent: nat, x: int, y: int, keep: (int, int) -> bool)
    ensures BrushCells(n, extent, x, y, keep) == Image(KeptOffsets(n, extent, x, y, keep), Shift(x, y))
  {
    var kept := KeptOffsets(n, extent, x, y, keep);
    forall q | q in BrushCells(n, extent, x, y, keep) ensures q in Image(kept, Shift(x, y)) {
      var row, column :| 0 <= row < extent && 0 <= column < extent && keep(row, column)
                         && InRange(n, y + column) && InRange(n, x + row) && q == (y + column, x + row);
      assert (row, column) in kept && Shift(x, y)((row, column)) == q;
    }
  }

  lemma SubsetCard<A>(a: set<A>, b: set<A>)
    requires a <= b
    ensures |a| <= |b|
  {
    assert b == a + (b - a);
  }

  /** The brush writes at most extent × extent cells, however many survive
      the thinning and wherever the pointer is. */
  lemma BrushCellsBound(n: nat, extent: nat, x: int, y: int, keep: (int, int) -> bool)
    ensures |BrushCells(n, extent, x, y, keep)| <= extent * extent
  {
    var kept := KeptOffsets(n, extent, x, y, keep);
    BrushCellsAreShiftedOffsets(n, extent, x, y, keep);
    ImageCard(kept, Shift(x, y));
    BlockCard(extent, extent);
    SubsetCard(kept, Block(extent, extent));
  }

  /** A pointer whose whole brush block lies off the grid paints nothing. */
  lemma OffGridBrushPaintsNothing(n: nat, extent: nat, x: int, y: int, keep: (int, int) -> bool)
    requires x >= n || y >= n || x + extent <= 0 || y + extent <= 0
    ensures BrushCells(n, extent, x, y, keep) == {}
  {
  }

  // --------------------------------------------------------------- movement

  /** A particle's destination, extended to the whole plane so that it can
      serve as a total map on cells. */
  function Move(g: Grid, n: nat, dir: (int, int) -> Side): ((int, int)) -> (int, int)
    requires IsGrid(g, n)
  {
    (p: (int, int)) => if InRange(n, p.0) && InRange(n, p.1) then Dest(g, n, p.0, p.1, dir(p.0, p.1)) else p
  }

  /** Only the cell itself, the cell above and the two cells diagonally above
      can send a particle to (i, j). */
  lemma OnlyNeighboursArrive(g: Grid, n: nat, dir: (int, int) -> Side, r: int, c: int, i: int, j: int)
    requires IsGrid(g, n)
    requires Arrives(g, n, dir, r, c, i, j)
    ensures (r, c) in {(i, j), (i - 1, j), (i - 1, j - 1), (i - 1, j + 1)}
    ensures Reached(g, n, dir, i, j, n, 0)
  {
  }

  lemma ArrivalIsMove(g: Grid, n: nat, dir: (int, int) -> Side, r: int, c: int, i: int, j: int)
    requires IsGrid(g, n)
    requires Arrives(g, n, dir, r, c, i, j)
    ensures (r, c) in SandCells(g, n) && Move(g, n, dir)((r, c)) == (i, j)
  {
  }

  /** No spontaneous creation, and no particle lost track of: after a tick
      the sand cells are exactly the painted cells together with the
      destinations of the pre-tick sand cells. */
  lemma TickSandCells(g: Grid, n: nat, extent: nat, p: Pointer, keep: (int, int) -> bool, dir: (int, int) -> Side)
    requires IsGrid(g, n)
    ensures SandCells(Tick(g, n, extent, p, keep, dir), n)
         == (if p.held then BrushCells(n, extent, p.x, p.y, keep) else {})
          + Image(SandCells(g, n), Move(g, n, dir))
  {
    var h := Tick(g, n, extent, p, keep, dir);
    var painted := if p.held then BrushCells(n, extent, p.x, p.y, keep) else {};
    var f := Move(g, n, dir);
    var moved := Image(SandCells(g, n), f);
    forall q | q in SandCells(h, n) ensures q in painted + moved {
      var i, j := q.0, q.1;
      assert Occupied(g, n, extent, p, keep, dir, i, j);
      if Painted(n, extent, p, keep, i, j) {
        BrushedIffBrushCells(n, extent, p.x, p.y, keep, i, j);
      } else {
        if Arrives(g, n, dir, i, j, i, j) {
          ArrivalIsMove(g, n, dir, i, j, i, j);
        } else if Arrives(g, n, dir, i - 1, j, i, j) {
          ArrivalIsMove(g, n, dir, i - 1, j, i, j);
        } else if Arrives(g, n, dir, i - 1, j - 1, i, j) {
          ArrivalIsMove(g, n, dir, i - 1, j - 1, i, j);
        } else {
          ArrivalIsMove(g, n, dir, i - 1, j + 1, i, j);
        }
      }
    }
    forall q | q in painted + moved ensures q in SandCells(h, n) {
      var i, j := q.0, q.1;
      if q in painted {
        BrushedIffBrushCells(n, extent, p.x, p.y, keep, i, j);
        assert Occupied(g, n, extent, p, keep, dir, i, j);
      } else {
        var s :| s in SandCells(g, n) && f(s) == q;
        OnlyNeighboursArrive(g, n, dir, s.0, s.1, i, j);
        assert Occupied(g, n, extent, p, keep, dir, i, j);
      }
    }
  }

  /** Every pre-tick particle lands: its destination holds sand afterwards. */
  lemma EveryParticleLands(g: Grid, n: nat, extent: nat, p: Pointer, keep: (int, int) -> bool,
                           dir: (int, int) -> Side, r: int, c: int)
    requires IsGrid(g, n) && InRange(n, r) && InRange(n, c) && g[r][c] == SAND
    ensures var d := Dest(g, n, r, c, dir(r, c));
            Tick(g, n, extent, p, keep, dir)[d.0][d.1] == SAND
  {
    var d := Dest(g, n, r, c, dir(r, c));
    OnlyNeighboursArrive(g, n, dir, r, c, d.0, d.1);
  }

  /** A tick never adds sand beyond what the brush paints. */
  lemma SandCountBound(g: Grid, n: nat, extent: nat, p: Pointer, keep: (int, int) -> bool, dir: (int, int) -> Side)
    requires IsGrid(g, n)
    ensures SandCount(Tick(g, n, extent, p, keep, dir), n)
         <= SandCount(g, n) + (if p.held then extent * extent else 0)
  {
    TickSandCells(g, n, extent, p, keep, dir);
    ImageCard(SandCells(g, n), Move(g, n, dir));
    BrushCellsBound(n, extent, p.x, p.y, keep);
  }

  /** Without paint the amount of sand never increases. */
  lemma UnpaintedTickNeverAddsSand(g: Grid, n: nat, extent: nat, p: Pointer, keep: (int, int) -> bool, dir: (int, int) -> Side)
    requires IsGrid(g, n) && !p.held
    ensures SandCount(Tick(g, n, extent, p, keep, dir), n) <= SandCount(g, n)
  {
    SandCountBound(g, n, extent, p, keep, dir);
  }

  /** Sand is not conserved: two particles that choose the same destination
      become one. */
  lemma CollisionLosesSand(g: Grid, n: nat, extent: nat, p: Pointer, keep: (int, int) -> bool,
                           dir: (int, int) -> Side, a: (int, int), b: (int, int))
    requires IsGrid(g, n) && !p.held
    requires a in SandCells(g, n) && b in SandCells(g, n) && a != b
    requires Dest(g, n, a.0, a.1, dir(a.0, a.1)) == Dest(g, n, b.0, b.1, dir(b.0, b.1))
    ensures SandCount(Tick(g, n, extent, p, keep, dir), n) < SandCount(g, n)
  {
    TickSandCells(g, n, extent, p, keep, dir);
    ImageCardMerge(SandCells(g, n), Move(g, n, dir), a, b);
  }

  /** Straight fall takes priority: the chosen side is not consulted. */
  lemma FallsStraight(g: Grid, n: nat, extent: nat, p: Pointer, keep: (int, int) -> bool,
                      dir: (int, int) -> Side, r: int, c: int)
    requires IsGrid(g, n) && InRange(n, r) && InRange(n, c) && g[r][c] == SAND
    requires InRange(n, r + 1) && g[r + 1][c] == EMPTY
    ensures forall side :: Dest(g, n, r, c, side) == (r + 1, c)
    ensures Tick(g, n, extent, p, keep, dir)[r + 1][c] == SAND
  {
    EveryParticleLands(g, n, extent, p, keep, dir, r, c);
  }

  /** A lone grain over an in-range empty cell ends up there and nowhere
      else after an unpainted tick. */
  lemma OneGrainFalls(g: Grid, n: nat, extent: nat, p: Pointer, keep: (int, int) -> bool,
                      dir: (int, int) -> Side, r: int, c: int)
    requires IsGrid(g, n) && InRange(n, r) && InRange(n, c) && InRange(n, r + 1)
    requires SandCells(g, n) == {(r, c)} && g[r + 1][c] == EMPTY && !p.held
    ensures SandCells(Tick(g, n, extent, p, keep, dir), n) == {(r + 1, c)}
  {
    TickSandCells(g, n, extent, p, keep, dir);
    assert Image(SandCells(g, n), Move(g, n, dir)) == {Move(g, n, dir)((r, c))};
  }

  /** A blocked particle slides to the chosen diagonal when that cell is in
      the grid and was empty before the tick, and otherwise rests. */
  lemma SlidesOrRests(g: Grid, n: nat, extent: nat, p: Pointer, keep: (int, int) -> bool,
                      dir: (int, int) -> Side, r: int, c: int)
    requires IsGrid(g, n) && InRange(n, r) && InRange(n, c) && g[r][c] == SAND
    requires !(InRange(n, r + 1) && g[r + 1][c] == EMPTY)
    ensures var nc := c + Offset(dir(r, c));
            var d := if InRange(n, r + 1) && InRange(n, nc) && g[r + 1][nc] == EMPTY then (r + 1, nc) else (r, c);
            Dest(g, n, r, c, dir(r, c)) == d && Tick(g, n, extent, p, keep, dir)[d.0][d.1] == SAND
  {
    EveryParticleLands(g, n, extent, p, keep, dir, r, c);
  }

  /** Sand in the bottom row never moves. */
  lemma BottomRowRests(g: Grid, n: nat, extent: nat, p: Pointer, keep: (int, int) -> bool,
                       dir: (int, int) -> Side, c: int)
    requires IsGrid(g, n) && n > 0 && InRange(n, c) && g[n - 1][c] == SAND
    ensures Dest(g, n, n - 1, c, Left) == Dest(g, n, n - 1, c, Right) == (n - 1, c)
    ensures Tick(g, n, extent, p, keep, dir)[n - 1][c] == SAND
  {
    EveryParticleLands(g, n, extent, p, keep, dir, n - 1, c);
  }

  /** Two grids of the same shape that agree on every cell are equal. */
  lemma GridExt(a: Grid, b: Grid, n: nat)
    requires IsGrid(a, n) && IsGrid(b, n)
    requires forall i, j :: 0 <= i < n && 0 <= j < n ==> a[i][j] == b[i][j]
    ensures a == b
  {
    forall i | 0 <= i < n ensures a[i] == b[i] {
      assert forall j :: 0 <= j < n ==> a[i][j] == b[i][j];
    }
  }

  /** The grid whose only sand is a full bottom row. */
  predicate BottomRowFull(g: Grid, n: nat)
    requires IsGrid(g, n)
  {
    forall i, j :: 0 <= i < n && 0 <= j < n ==> (g[i][j] == SAND <==> i == n - 1)
  }

  /** A grid whose only sand is a full bottom row is a fixed point of an
      unpainted tick, whatever the direction oracle says. */
  lemma BottomRowFixedPoint(g: Grid, n: nat, extent: nat, p: Pointer, keep: (int, int) -> bool, dir: (int, int) -> Side)
    requires IsGrid(g, n) && BottomRowFull(g, n) && !p.held
    ensures Tick(g, n, extent, p, keep, dir) == g
  {
    var h := Tick(g, n, extent, p, keep, dir);
    forall i, j | 0 <= i < n && 0 <= j < n ensures h[i][j] == g[i][j] {
      if i == n - 1 {
        BottomRowRests(g, n, extent, p, keep, dir, j);
      } else {
        forall r, c | Arrives(g, n, dir, r, c, i, j) ensures false {
          OnlyNeighboursArrive(g, n, dir, r, c, i, j);
        }
      }
    }
    GridExt(h, g, n);
  }

  /** The fixed point survives any number of unpainted ticks. */
  lemma {:induction false} BottomRowStaysPut(g: Grid, n: nat, extent: nat, ticks: nat, ptr: nat -> Pointer,
                                             keep: nat -> (int, int) -> bool, dir: nat -> (int, int) -> Side)
    requires IsGrid(g, n) && BottomRowFull(g, n)
    requires forall t :: 0 <= t < ticks ==> !ptr(t).held
    ensures Iterate(g, n, extent, ticks, ptr, keep, dir) == g
  {
    if ticks > 0 {
      BottomRowStaysPut(g, n, extent, ticks - 1, ptr, keep, dir);
      BottomRowFixedPoint(g, n, extent, ptr(ticks - 1), keep(ticks - 1), dir(ticks - 1));
    }
  }

  /** Over any run of unpainted ticks the amount of sand never increases. */
  lemma {:induction false} UnpaintedRunNeverAddsSand(g: Grid, n: nat, extent: nat, ticks: nat, ptr: nat -> Pointer,
                                                     keep: nat -> (int, int) -> bool, dir: nat -> (int, int) -> Side)
    requires IsGrid(g, n)
    requires forall t :: 0 <= t < ticks ==> !ptr(t).held
    ensures SandCount(Iterate(g, n, extent, ticks, ptr, keep, dir), n) <= SandCount(g, n)
  {
    if ticks > 0 {
      UnpaintedRunNeverAddsSand(g, n, extent, ticks - 1, ptr, keep, dir);
      UnpaintedTickNeverAddsSand(Iterate(g, n, extent, ticks - 1, ptr, keep, dir), n, extent,
                                 ptr(ticks - 1), keep(ticks - 1), dir(ticks - 1));
    }
  }

  /** A reset grid holds no sand. */
  lemma EmptyGridHasNoSand(n: nat)
    ensures SandCells(EmptyGrid(n), n) == {}
    ensures SandCount(EmptyGrid(n), n) == 0
  {
  }
}
