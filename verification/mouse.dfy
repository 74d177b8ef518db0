/**
 * The click handling of main.py: the pixel position of a click picks the
 * square under it. Python's `//` rounds towards minus infinity, which for a
 * positive divisor is what Dafny's `/` on `int` does as well.
 */
module Mouse {
  import opened Constants
  import opened Rules
  import opened Pieces

  /** `getRowColFromMouse`: the (row, col) of the square whose pixels contain (x, y). */
  function RowColFromMouse(x: int, y: int): (rc: (int, int))
    ensures SQUARE_SIZE * rc.0 <= y < SQUARE_SIZE * (rc.0 + 1)
    ensures SQUARE_SIZE * rc.1 <= x < SQUARE_SIZE * (rc.1 + 1)
    ensures 0 <= x < WIDTH && 0 <= y < HEIGHT ==> Square(rc.0, rc.1).OnBoard()
  {
    assert SQUARE_SIZE == 100;
    (y / SQUARE_SIZE, x / SQUARE_SIZE)
  }

  /** Every pixel of the square (row, col) picks that square, and no other. */
  lemma PixelsOfSquare(row: int, col: int, dx: int, dy: int)
    requires 0 <= dx < SQUARE_SIZE && 0 <= dy < SQUARE_SIZE
    ensures RowColFromMouse(SQUARE_SIZE * col + dx, SQUARE_SIZE * row + dy) == (row, col)
  {
    assert SQUARE_SIZE == 100;
    var rc := RowColFromMouse(SQUARE_SIZE * col + dx, SQUARE_SIZE * row + dy);
    assert SQUARE_SIZE * rc.0 <= SQUARE_SIZE * row + dy < SQUARE_SIZE * (rc.0 + 1);
    assert SQUARE_SIZE * rc.1 <= SQUARE_SIZE * col + dx < SQUARE_SIZE * (rc.1 + 1);
  }

  /** A click on the drawn centre of a piece (`calculatePosition`) picks the piece's square. */
  lemma CentreOfPiece(p: Piece)
    requires p.Valid()
    ensures RowColFromMouse(p.x, p.y) == (p.row, p.col)
  {
    PixelsOfSquare(p.row, p.col, SQUARE_SIZE / 2, SQUARE_SIZE / 2);
  }
}
