/** Board dimensions, pixel geometry and the two sides (checkers/constants.py). */
module Constants {
  /** Window size in pixels. */
  const WIDTH := 800
  const HEIGHT := 800

  /** The board is always 8 by 8. */
  const ROWS := 8
  const COLS := 8

  /** Pixels per square: 800 div 8 == 100. */
  const SQUARE_SIZE := WIDTH / COLS

  /** The two sides. The source compares RGB triples; only their identity matters. */
  datatype Colour = White | Black

  function Opponent(c: Colour): (o: Colour)
    ensures o != c
  {
    if c == White then Black else White
  }
}

/** Python's `None` or a value. */
module Options {
  datatype Option<+T> = None | Some(value: T)
}
