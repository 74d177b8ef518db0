/** A checkers piece (checkers/piece.py), updated in place when it moves or is crowned. */
module Pieces {
  import opened Constants

  class Piece {
    var row: int
    var col: int
    var colour: Colour
    var king: bool
    /** Pixel centre of the piece's square. */
    var x: int
    var y: int

    /** The pixel centre always matches the square. */
    ghost predicate Valid()
      reads this
    {
      x == SQUARE_SIZE * col + SQUARE_SIZE / 2 && y == SQUARE_SIZE * row + SQUARE_SIZE / 2
    }

    constructor (row: int, col: int, colour: Colour)
      ensures Valid()
      ensures this.row == row && this.col == col && this.colour == colour && !king
      ensures x == 100 * col + 50 && y == 100 * row + 50
    {
      this.row := row;
      this.col := col;
      this.colour := colour;
      king := false;
      x := 0;
      y := 0;
      new;
      CalculatePosition();
    }

    method CalculatePosition()
      modifies this
      ensures Valid()
      ensures row == old(row) && col == old(col) && colour == old(colour) && king == old(king)
    {
      x := SQUARE_SIZE * col + SQUARE_SIZE / 2;
      y := SQUARE_SIZE * row + SQUARE_SIZE / 2;
    }

    /** Crowning; calling it again leaves the piece as it is. */
    method MakeKing()
      modifies this
      ensures king
      ensures row == old(row) && col == old(col) && colour == old(colour) && x == old(x) && y == old(y)
    {
      king := true;
    }

    method Move(row: int, col: int)
      modifies this
      ensures Valid()
      ensures this.row == row && this.col == col
      ensures colour == old(colour) && king == old(king)
    {
      this.row := row;
      this.col := col;
      CalculatePosition();
    }
  }
}
