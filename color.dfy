/** The colour helper: named RGB triples and their inversion. */
module Color {

  type Rgb = (int, int, int)

  const WHITE: Rgb := (255, 255, 255)
  const BLACK: Rgb := (0, 0, 0)
  const RED: Rgb := (255, 0, 0)
  const GREEN: Rgb := (0, 255, 0)
  const BLUE: Rgb := (0, 0, 255)
  const YELLOW: Rgb := (255, 255, 0)
  const ORANGE: Rgb := (255, 127, 0)
  const MAGENTA: Rgb := (255, 0, 255)
  const PURPLE: Rgb := (127, 0, 127)

  /** Every channel lies in [0, 255]. */
  predicate IsColor(c: Rgb) {
    0 <= c.0 <= 255 && 0 <= c.1 <= 255 && 0 <= c.2 <= 255
  }

  /** `Color.invert`: each channel is reflected about the middle of [0, 255].
      The result is a colour exactly when the argument is one. */
  function Invert(c: Rgb): (r: Rgb)
    ensures IsColor(r) <==> IsColor(c)
  {
    (255 - c.0, 255 - c.1, 255 - c.2)
  }

  /** Inverting twice gives the colour back. */
  lemma InvertInvolutive(c: Rgb)
    ensures Invert(Invert(c)) == c
  {
  }

  /** The two colours the grid is drawn in are each other's inverse. */
  lemma InvertSwapsBlackAndWhite()
    ensures Invert(WHITE) == BLACK && Invert(BLACK) == WHITE
  {
  }
}
