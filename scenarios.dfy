/** Small worked grids: one tick on concrete 2 × 2 and 3 × 3 grids. */
module Scenarios {
  import opened Rules
  import opened Properties

  const Idle := Pointer(false, 0, 0)

  /** A single grain with empty space below falls one row, whatever side
      the oracle would have picked. */
  lemma SingleGrainFalls(keep: (int, int) -> bool, dir: (int, int) -> Side)
    ensures Tick([[0, 1, 0], [0, 0, 0], [0, 0, 0]], 3, 2, Idle, keep, dir)
         == [[0, 0, 0], [0, 1, 0], [0, 0, 0]]
  {
    var g: Grid := [[0, 1, 0], [0, 0, 0], [0, 0, 0]];
    var want: Grid := [[0, 0, 0], [0, 1, 0], [0, 0, 0]];
    var h := Tick(g, 3, 2, Idle, keep, dir);
    assert Dest(g, 3, 0, 1, dir(0, 1)) == (1, 1);
    forall i, j | 0 <= i < 3 && 0 <= j < 3 ensures h[i][j] == want[i][j] {
      if (i, j) != (1, 1) {
        forall r, c | Arrives(g, 3, dir, r, c, i, j) ensures false {
          OnlyNeighboursArrive(g, 3, dir, r, c, i, j);
        }
      }
    }
    GridExt(h, want, 3);
  }

  /** A full bottom row of a 2 × 2 grid is left as it is. */
  lemma FullBottomRowIsUnchanged(keep: (int, int) -> bool, dir: (int, int) -> Side)
    ensures Tick([[0, 0], [1, 1]], 2, 2, Idle, keep, dir) == [[0, 0], [1, 1]]
  {
    BottomRowFixedPoint([[0, 0], [1, 1]], 2, 2, Idle, keep, dir);
  }

  /** A grain blocked from below slides to the right when the oracle says
      right and the lower-right cell is empty; the grain underneath falls. */
  lemma BlockedGrainSlides(keep: (int, int) -> bool, dir: (int, int) -> Side)
    requires dir(0, 0) == Right
    ensures Tick([[1, 0, 0], [1, 0, 0], [0, 0, 0]], 3, 2, Idle, keep, dir)
         == [[0, 0, 0], [0, 1, 0], [1, 0, 0]]
  {
    var g: Grid := [[1, 0, 0], [1, 0, 0], [0, 0, 0]];
    var want: Grid := [[0, 0, 0], [0, 1, 0], [1, 0, 0]];
    var h := Tick(g, 3, 2, Idle, keep, dir);
    assert Dest(g, 3, 0, 0, dir(0, 0)) == (1, 1);
    assert Dest(g, 3, 1, 0, dir(1, 0)) == (2, 0);
    forall i, j | 0 <= i < 3 && 0 <= j < 3 ensures h[i][j] == want[i][j] {
      if (i, j) != (1, 1) && (i, j) != (2, 0) {
        forall r, c | Arrives(g, 3, dir, r, c, i, j) ensures false {
          OnlyNeighboursArrive(g, 3, dir, r, c, i, j);
        }
      }
    }
    GridExt(h, want, 3);
  }

  /** The same grain rests when the oracle says left: column -1 is off the
      grid, so the slide is rejected rather than wrapped. */
  lemma BlockedGrainAtEdgeRests(keep: (int, int) -> bool, dir: (int, int) -> Side)
    requires dir(0, 0) == Left
    ensures Tick([[1, 0, 0], [1, 0, 0], [0, 0, 0]], 3, 2, Idle, keep, dir)
         == [[1, 0, 0], [0, 0, 0], [1, 0, 0]]
  {
    var g: Grid := [[1, 0, 0], [1, 0, 0], [0, 0, 0]];
    var want: Grid := [[1, 0, 0], [0, 0, 0], [1, 0, 0]];
    var h := Tick(g, 3, 2, Idle, keep, dir);
    assert Dest(g, 3, 0, 0, dir(0, 0)) == (0, 0);
    assert Dest(g, 3, 1, 0, dir(1, 0)) == (2, 0);
    forall i, j | 0 <= i < 3 && 0 <= j < 3 ensures h[i][j] == want[i][j] {
      if (i, j) != (0, 0) && (i, j) != (2, 0) {
        forall r, c | Arrives(g, 3, dir, r, c, i, j) ensures false {
          OnlyNeighboursArrive(g, 3, dir, r, c, i, j);
        }
      }
    }
    GridExt(h, want, 3);
  }

  /** Three grains reach the centre cell in one tick: one falling straight
      and two sliding inwards. They become a single grain, so five grains
      turn into three. */
  lemma ThreeGrainsMerge(keep: (int, int) -> bool, dir: (int, int) -> Side)
    requires dir(0, 0) == Right && dir(0, 2) == Left
    ensures Tick([[1, 1, 1], [1, 0, 1], [0, 0, 0]], 3, 2, Idle, keep, dir)
         == [[0, 0, 0], [0, 1, 0], [1, 0, 1]]
    ensures SandCount(Tick([[1, 1, 1], [1, 0, 1], [0, 0, 0]], 3, 2, Idle, keep, dir), 3)
          < SandCount([[1, 1, 1], [1, 0, 1], [0, 0, 0]], 3)
  {
    var g: Grid := [[1, 1, 1], [1, 0, 1], [0, 0, 0]];
    var want: Grid := [[0, 0, 0], [0, 1, 0], [1, 0, 1]];
    var h := Tick(g, 3, 2, Idle, keep, dir);
    assert Dest(g, 3, 0, 0, dir(0, 0)) == (1, 1);
    assert Dest(g, 3, 0, 1, dir(0, 1)) == (1, 1);
    assert Dest(g, 3, 0, 2, dir(0, 2)) == (1, 1);
    assert Dest(g, 3, 1, 0, dir(1, 0)) == (2, 0);
    assert Dest(g, 3, 1, 2, dir(1, 2)) == (2, 2);
    forall i, j | 0 <= i < 3 && 0 <= j < 3 ensures h[i][j] == want[i][j] {
      if (i, j) != (1, 1) && (i, j) != (2, 0) && (i, j) != (2, 2) {
        forall r, c | Arrives(g, 3, dir, r, c, i, j) ensures false {
          OnlyNeighboursArrive(g, 3, dir, r, c, i, j);
        }
      }
    }
    GridExt(h, want, 3);
    assert (0, 0) in SandCells(g, 3) && (0, 1) in SandCells(g, 3);
    CollisionLosesSand(g, 3, 2, Idle, keep, dir, (0, 0), (0, 1));
  }
}
