# Falling sand: the simulation engine in Dafny

This project models the engine of the `FallingSand` simulator in `main.py`. The grid is a
`SIZE × SIZE` matrix of 0/1 cells: 0 is empty, 1 is sand. Row 0 is the top row, and rows grow
downwards in the direction of gravity.

- Each tick builds a fresh, all-empty `next_grid`.
- While the primary button is held, the brush paints into that grid.
- Then, reading only the pre-tick grid, every sand particle moves. It falls straight down if
  it can. Otherwise it slides to one randomly chosen diagonal cell below, if it can.
  Otherwise it stays where it is.
- The new grid is then committed.

The reset key replaces the grid with an empty one.

Files:

- `rules.dfy` (module `Rules`) states the rule engine on values. `Dest` is a particle's
  destination. `Brushed` and `BrushCells` give what the brush writes. `Tick` is one tick
  defined cell by cell, with no scan order. `Iterate` is a run of ticks.
- `properties.dfy` (module `Properties`) proves what a tick and a run of ticks guarantee.
- `scenarios.dfy` (module `Scenarios`) works one tick on small concrete grids.
- `engine.dfy` (module `Engine`) is the imperative model. `FallingSand` is a class that owns
  the grid as an `array2<Cell>`. `UpdateGrid` fills a fresh array with nested `for` loops and
  then reassigns the `grid` field. It is proved to commit exactly `Tick` of the old grid.
  `HandleDrag` writes into the buffer it is passed, in place. `Reset` reassigns the field.
- `color.dfy` (module `Color`) holds the colour constants and `Color.invert`.

Randomness is passed in explicitly:

- `dir: (int, int) -> Side` gives, for each cell, the outcome of `choice((-1, 1))` that its
  particle would draw.
- `keep: (int, int) -> bool` gives, for each brush offset `(row, column)`, the outcome of the
  75% test.
- The pointer is a `Pointer(held, x, y)`. `held` says whether the primary button is down. `x`
  is the cell column computed from the horizontal pixel position (`mxr`), and `y` is the cell
  row computed from the vertical one (`myc`).

`handle_drag` is modelled literally. Offset `(row, column)` writes
`next_grid[myc + column][mxr + row]`. The column index of that write is checked with
`within_rows` and the row index with `within_cols`. This is correct only because the grid is
square, which `FallingSand.Valid()` records. The writes to computed indices, the brush
cells in `HandleDrag` and the straight and diagonal targets in `Settle`, are guarded by these
predicates. The resting write in `Settle` uses the scanned cell's own indices, which its
precondition keeps in range. Dafny checks every one of these indices against the array's
bounds.

The scan of `update_grid` is split over three methods so that each proof stays small.
`ScanParticles` is the row loop. `ScanRow` is the column loop. `Settle` is the loop body,
where each `continue` of the source becomes a `return`.

Two consequences of `main.py:150-164` are worth stating:

- Several particles can land on one empty cell in one tick: one falling from `(r-1, c)` and
  two sliding in from `(r-1, c-1)` and `(r-1, c+1)`. They become one grain, so the amount of
  sand never increases but is not conserved (`Properties.CollisionLosesSand`,
  `Scenarios.ThreeGrainsMerge`).
- A grain at (0,0) over one at (1,0) slides to (1,1) only when the oracle picks +1. With -1
  the target column is -1, so the slide is rejected and the grain rests
  (`Scenarios.BlockedGrainAtEdgeRests`).

## Model

| member | source | states |
|---|---|---|
| Engine.GenerateGrid | main.py:56-64 | returns a fresh `size × size` array whose every cell is 0, i.e. the empty grid |
| Engine.FallingSand.constructor | main.py:35-48 | `SIZE` is 50 and `RADIUS` is 5; the simulator starts with a fresh, empty, square grid |
| Engine.FallingSand.Reset | main.py:75-76 | after the reset key the grid is a fresh empty `size × size` grid holding no sand at all |
| Properties.EmptyGridHasNoSand | main.py:56-64 | the grid built by `generate_grid` has no sand cells and a sand count of 0 |
| Engine.FallingSand.WithinRows | main.py:96-102 | holds exactly when the index is a valid row index of the grid array |
| Engine.FallingSand.WithinCols | main.py:104-110 | holds exactly when the index is a valid column index of the grid array |
| Engine.FallingSand.HandleDrag | main.py:112-129 | a cell of the buffer becomes 1 exactly when it is in range, its offset from the pointer cell is in `[0, RADIUS//2)` on both axes and that offset passed the thinning test; every other cell keeps its value, so the brush never clears a cell |
| Properties.BrushedIffBrushCells | main.py:123-129 | the cell-wise brush test agrees with the set of cells obtained by shifting the surviving offsets onto the grid |
| Properties.BrushCellsBound | main.py:121-129 | the brush paints at most `(RADIUS//2)²` cells, whatever the mask and pointer |
| Properties.OffGridBrushPaintsNothing | main.py:126-129 | a pointer whose whole brush block is off the grid paints nothing, so the candidates are dropped rather than clamped |
| Rules.Dest | main.py:145-164 | a particle's destination is always in the grid; it is either its own cell, or a cell one row down and at most one column over that was empty before the tick |
| Engine.FallingSand.Settle | main.py:144-164 | for a sand cell, writes 1 at its destination and nowhere else; for an empty cell, changes nothing; it reads only the pre-tick grid |
| Engine.FallingSand.ScanRow | main.py:143-164 | scanning one row adds exactly the particles of that row at their destinations to the buffer |
| Engine.FallingSand.ScanParticles | main.py:142-164 | after the full scan, a buffer cell holds sand exactly when it held sand before or some particle of the pre-tick grid lands on it |
| Engine.FallingSand.UpdateGrid | main.py:131-166 | the committed grid equals `Tick` of the old grid with this pointer, mask and direction oracle, so the result does not depend on the scan order; the grid stays square |
| Properties.OnlyNeighboursArrive | main.py:145-164 | a particle can reach a cell only from that cell itself, the cell above, or the two cells diagonally above |
| Properties.TickSandCells | main.py:136-166 | after a tick the sand cells are exactly the painted cells plus the destinations of the pre-tick sand cells: there is no spontaneous creation and no particle is lost |
| Properties.EveryParticleLands | main.py:142-164 | the destination of every pre-tick sand particle holds sand after the tick |
| Properties.SandCountBound | main.py:136-166 | a tick leaves at most the old sand count plus `(RADIUS//2)²` grains, and at most the old count when nothing is painted |
| Properties.UnpaintedTickNeverAddsSand | main.py:142-166 | without paint the sand count never increases |
| Properties.CollisionLosesSand | main.py:150-161 | two distinct particles with the same destination make an unpainted tick strictly decrease the sand count |
| Properties.FallsStraight | main.py:150-152 | a particle above an in-range empty cell moves straight down whatever side is drawn, and that cell holds sand afterwards |
| Properties.OneGrainFalls | main.py:145-152 | a lone grain over an in-range empty cell leaves, after an unpainted tick, exactly one grain, one row lower |
| Properties.SlidesOrRests | main.py:156-164 | a particle blocked from below moves to `(row+1, col+dir)` when that cell is in range and was empty before the tick, and otherwise stays at `(row, col)`; the cell it ends in holds sand |
| Properties.BottomRowRests | main.py:145-164 | a particle in the bottom row stays where it is for both sides and is still there after the tick |
| Properties.BottomRowFixedPoint | main.py:142-166 | a grid whose only sand is a full bottom row is unchanged by an unpainted tick |
| Properties.BottomRowStaysPut | main.py:201-204 | that grid is unchanged by any number of unpainted ticks |
| Properties.UnpaintedRunNeverAddsSand | main.py:201-204 | over any run of unpainted ticks the sand count never increases |
| Engine.FallingSand.RunTicks | main.py:198-204 | runs `elapsed / delta` ticks and leaves `elapsed % delta` time units (`ticks·delta + left = elapsed`, `left < delta`); the grid is the result of those ticks in order |
| Scenarios.SingleGrainFalls | main.py:142-152 | on a 3 × 3 grid a single grain at (0,1) ends at (1,1), and no other cell holds sand |
| Scenarios.FullBottomRowIsUnchanged | main.py:145-164 | on a 2 × 2 grid a full bottom row is left unchanged |
| Scenarios.BlockedGrainSlides | main.py:154-162 | a grain at (0,0) over a grain at (1,0) slides to (1,1) when the oracle says +1, while the lower grain falls to (2,0) |
| Scenarios.BlockedGrainAtEdgeRests | main.py:156-164 | the same grain rests at (0,0) when the oracle says -1, because column -1 is rejected and not wrapped |
| Scenarios.ThreeGrainsMerge | main.py:150-161 | three grains landing on (1,1) in one tick become a single grain, and the count drops from five to three |
| Color.Invert | main.py:22-28 | the inverse of a triple is an RGB colour exactly when the triple is one |
| Color.InvertInvolutive | main.py:22-28 | inverting twice gives the colour back |
| Color.InvertSwapsBlackAndWhite | main.py:11-12 | white and black, the two colours the grid is drawn in, are each other's inverse |

## Left out

- Everything pygame is left out, because it is platform I/O: the window, `draw`, `draw_grid`
  and the mapping of cells to WHITE and BLACK, and the display flip. `clock.tick` frame pacing
  and the caption are left out too.
- Event polling beyond the reset effect is left out: the quit event, the `q` key and the
  `running` flag. The sound cue of the reset key (`mixer.stop` and `click.play`) is a foreign
  call and is left out.
- `shutdown` and `sys.exit` are left out. They are process control.
- `uniform` and `choice` are not modelled. Their outcomes are the parameters `keep` and
  `dir`, which may be any functions. So the model covers every sequence of random outcomes.
  It does not model that `choice` is drawn only for particles whose straight fall is blocked.
  It also does not model the 75% probability itself, or the rounding to two decimals in that
  test.
- The pixel-to-cell division of `pygame.mouse.get_pos()` is left out; the pointer cell is an
  input. The always-true `if pygame.MOUSEBUTTONDOWN:` test is left out too, and "button held"
  is an input.
- Engine.FallingSand.RunTicks: time is counted in whole units, because the source uses float
  seconds. Float rounding (`1 / TICKRATE`, repeated subtraction from `elapsed_time`) is
  therefore not modelled. The wall clock (`time.time()`) becomes the `elapsed` input.
- The source's grid is a list of row lists, and the model uses one 2-D array. `generate_grid`
  builds a separate list for each row, so rows never alias and nothing is lost by this.
