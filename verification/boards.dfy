/**
 * The board of checkers/board.py as the source keeps it: a grid of rows of
 * squares, each holding a piece object or nothing, and four counters, all
 * updated in place. The ghost field `model` is the value (`Rules.Position`)
 * the board stands for; every method is proved to change the board exactly
 * as the corresponding function of `Rules` changes `model`.
 */
module Boards {
  import opened Constants
  import opened Options
  import opened Dicts
  import opened Rules
  import opened Pieces
  import MoveGenFacts

  class Board {
    var grid: seq<seq<Piece?>>
    var whiteLeft: int
    var blackLeft: int
    var whiteKings: int
    var blackKings: int
    /** The position this board stands for. */
    ghost var model: Position
    /** Every piece object that may stand on the board. */
    ghost var pieces: set<Piece>

    ghost predicate Shaped()
      reads this
    {
      WellFormed(model) && |grid| == ROWS && forall r :: 0 <= r < ROWS ==> |grid[r]| == COLS
    }

    /**
     * Every square agrees with the model, every piece on the board is one of
     * `pieces`, and the counters are the model's.
     */
    ghost predicate Valid()
      reads this, pieces
    {
      Shaped() && Agrees() && Counted()
    }

    ghost predicate Agrees()
      requires Shaped()
      reads this, pieces
    {
      forall r, c :: 0 <= r < ROWS && 0 <= c < COLS ==>
        (grid[r][c] != null ==> grid[r][c] in pieces) && SquareHolds(grid[r][c], r, c, model.grid[r][c])
    }

    ghost predicate Counted()
      reads this
    {
      whiteLeft == model.whiteLeft && blackLeft == model.blackLeft
      && whiteKings == model.whiteKings && blackKings == model.blackKings
    }

    /** `__init__`: twelve pieces a side, no kings, and the grid of `createBoard`. */
    constructor ()
      ensures Valid()
      ensures model == InitialPosition()
      ensures fresh(pieces)
    {
      grid := [];
      blackLeft, whiteLeft := 12, 12;
      blackKings, whiteKings := 0, 0;
      model := InitialPosition();
      pieces := {};
      new;
      CreateBoard();
    }

    /**
     * `createBoard`: appends the eight rows, putting a fresh white piece on
     * the squares with `col % 2 == (row + 1) % 2` of rows 0 to 2, a fresh
     * black one on those of rows 5 to 7, and nothing elsewhere.
     */
    method CreateBoard()
      requires grid == [] && pieces == {} && model == InitialPosition()
      requires whiteLeft == 12 && blackLeft == 12 && whiteKings == 0 && blackKings == 0
      modifies this
      ensures Valid()
      ensures model == InitialPosition()
      ensures fresh(pieces)
    {
      for row := 0 to ROWS
        invariant |grid| == row && model == InitialPosition() && fresh(pieces)
        invariant forall r :: 0 <= r < row ==> |grid[r]| == COLS
        invariant forall r, c :: 0 <= r < row && 0 <= c < COLS ==>
          (grid[r][c] != null ==> grid[r][c] in pieces) && SquareHolds(grid[r][c], r, c, InitialCell(r, c))
        invariant whiteLeft == 12 && blackLeft == 12 && whiteKings == 0 && blackKings == 0
      {
        grid := grid + [[]];
        for col := 0 to COLS
          invariant |grid| == row + 1 && |grid[row]| == col && model == InitialPosition() && fresh(pieces)
          invariant forall r :: 0 <= r < row ==> |grid[r]| == COLS
          invariant forall r, c :: 0 <= r < row && 0 <= c < COLS ==>
            (grid[r][c] != null ==> grid[r][c] in pieces) && SquareHolds(grid[r][c], r, c, InitialCell(r, c))
          invariant forall c :: 0 <= c < col ==>
            (grid[row][c] != null ==> grid[row][c] in pieces) && SquareHolds(grid[row][c], row, c, InitialCell(row, c))
          invariant whiteLeft == 12 && blackLeft == 12 && whiteKings == 0 && blackKings == 0
        {
          var square: Piece? := null;
          if col % 2 == (row + 1) % 2 {
            if row < 3 {
              square := new Piece(row, col, White);
            } else if row > 4 {
              square := new Piece(row, col, Black);
            }
          }
          if square != null {
            pieces := pieces + {square};
          }
          grid := grid[row := grid[row] + [square]];
        }
      }
    }

    /** `getPiece`: the content of a square, which the model describes. */
    function GetPiece(row: int, col: int): (p: Piece?)
      requires Valid() && 0 <= row < ROWS && 0 <= col < COLS
      reads this, pieces
      ensures p == null <==> model.grid[row][col] == Empty
      ensures p != null ==>
        p in pieces && p.row == row && p.col == col && model.grid[row][col] == Occupied(p.colour, p.king)
    {
      assert SquareHolds(grid[row][col], row, col, model.grid[row][col]);
      grid[row][col]
    }

    /**
     * `movePiece`: swaps the piece with the (empty) destination square, moves
     * the piece object, and crowns it on row 0 or row 7, counting the crown.
     */
    method MovePiece(piece: Piece, row: int, col: int)
      requires Valid()
      requires 0 <= piece.row < ROWS && 0 <= piece.col < COLS && grid[piece.row][piece.col] == piece
      requires 0 <= row < ROWS && 0 <= col < COLS && grid[row][col] == null
      modifies this, piece
      ensures Valid() && pieces == old(pieces)
      ensures model == Rules.MovePiece(old(model), Square(old(piece.row), old(piece.col)), Square(row, col))
      ensures piece.row == row && piece.col == col
    {
      var from := Square(piece.row, piece.col);
      var to := Square(row, col);
      assert SquareHolds(grid[from.row][from.col], from.row, from.col, model.grid[from.row][from.col]);
      assert SquareHolds(grid[row][col], row, col, model.grid[row][col]);
      ghost var moved := Rules.MovePiece(model, from, to);
      var moving := grid[from.row][from.col];
      var target := grid[row][col];
      assert moving == piece && target == null;
      var swapped := grid[from.row := grid[from.row][from.col := target]];
      swapped := swapped[row := swapped[row][col := moving]];
      assert swapped == Swap(grid, from, to);
      OthersAgree(swapped, moved, piece, from, to);
      grid := swapped;
      piece.Move(row, col);
      if row == ROWS - 1 || row == 0 {
        piece.MakeKing();
        if piece.colour == White {
          whiteKings := whiteKings + 1;
        } else {
          blackKings := blackKings + 1;
        }
      }
      model := moved;
      assert SquareHolds(grid[row][col], row, col, model.grid[row][col]);
    }

    /**
     * After the swap of `movePiece`, every square but the destination holds
     * what it held and agrees with the moved model, and none of them holds the
     * moving piece.
     */
    lemma OthersAgree(swapped: seq<seq<Piece?>>, moved: Position, piece: Piece, from: Square, to: Square)
      requires Valid() && from.OnBoard() && to.OnBoard() && from != to
      requires grid[from.row][from.col] == piece && grid[to.row][to.col] == null
      requires swapped == Swap(grid, from, to)
      requires moved == Rules.MovePiece(model, from, to)
      ensures |swapped| == ROWS && forall r :: 0 <= r < ROWS ==> |swapped[r]| == COLS
      ensures forall r, c :: 0 <= r < ROWS && 0 <= c < COLS && Square(r, c) != to ==>
        (swapped[r][c] != null ==> swapped[r][c] in pieces && swapped[r][c] != piece)
        && SquareHolds(swapped[r][c], r, c, moved.grid[r][c])
      ensures swapped[to.row][to.col] == piece
    {
      forall r, c | 0 <= r < ROWS && 0 <= c < COLS && Square(r, c) != to
        ensures (swapped[r][c] != null ==> swapped[r][c] in pieces && swapped[r][c] != piece)
          && SquareHolds(swapped[r][c], r, c, moved.grid[r][c])
      {
        if Square(r, c) == from {
          assert swapped[r][c] == null;
        } else {
          assert swapped[r][c] == grid[r][c] && moved.grid[r][c] == model.grid[r][c];
          assert SquareHolds(grid[r][c], r, c, model.grid[r][c]);
        }
      }
    }

    /**
     * `remove`: empties the square of every listed piece and decrements the
     * counter of its colour.
     */
    method Remove(captured: seq<Jumped>)
      requires Valid() && AllOnBoard(captured)
      modifies this
      ensures Valid() && pieces == old(pieces)
      ensures model == Rules.Remove(old(model), captured)
    {
      for i := 0 to |captured|
        invariant Valid() && pieces == old(pieces)
        invariant model == Rules.Remove(old(model), captured[..i])
      {
        assert captured[..i + 1][..i] == captured[..i];
        RemovePiece(captured[i]);
      }
      assert captured[..|captured|] == captured;
    }

    /** The body of the loop of `remove`, for one piece. */
    method RemovePiece(piece: Jumped)
      requires Valid() && piece.At().OnBoard()
      modifies this
      ensures Valid() && pieces == old(pieces)
      ensures model == RemoveOne(old(model), piece)
    {
      grid := grid[piece.row := grid[piece.row][piece.col := null]];
      if piece.colour == Black {
        blackLeft := blackLeft - 1;
      }
      if piece.colour == White {
        whiteLeft := whiteLeft - 1;
      }
      model := RemoveOne(model, piece);
    }

    /** `winner`, read off the counters. */
    function Winner(): (w: Option<Colour>)
      requires Valid()
      reads this, pieces
      ensures w == Rules.Winner(model)
    {
      WinnerOf(whiteLeft, blackLeft)
    }

    /** `_moveLeft`: the loop over the rows of the range, heading left. */
    method MoveLeft(start: int, stop: int, step: int, colour: Colour, left: int, skipped: seq<Jumped>)
      returns (moves: MoveMap)
      requires Valid() && ScanArgs(model.grid, start, stop, step, left, -1)
      ensures moves == Scan(model.grid, start, stop, step, colour, left, -1, skipped, [])
      decreases if step == 1 then ROWS - start else start + 1, 1
    {
      moves := [];
      var last: seq<Jumped> := [];
      var r := start;
      var col := left;
      while InRange(r, stop, step)
        invariant ScanArgs(model.grid, r, stop, step, col, -1)
        invariant NotBehind(r, start, step)
        invariant moves == []
        invariant Scan(model.grid, start, stop, step, colour, left, -1, skipped, [])
               == Scan(model.grid, r, stop, step, colour, col, -1, skipped, last)
        decreases if step == 1 then stop - r else r - stop
      {
        if col < 0 {
          break;
        }
        var current := grid[r][col];
        assert SquareHolds(current, r, col, model.grid[r][col]);
        if current == null {
          moves := Landing(r, stop, step, colour, col, -1, skipped, last);
          break;
        } else if current.colour == colour {
          break;
        } else {
          last := [Jumped(current.row, current.col, current.colour)];
        }
        col := col - 1;
        r := r + step;
      }
    }

    /** `_moveRight`: the loop over the rows of the range, heading right. */
    method MoveRight(start: int, stop: int, step: int, colour: Colour, right: int, skipped: seq<Jumped>)
      returns (moves: MoveMap)
      requires Valid() && ScanArgs(model.grid, start, stop, step, right, 1)
      ensures moves == Scan(model.grid, start, stop, step, colour, right, 1, skipped, [])
      decreases if step == 1 then ROWS - start else start + 1, 1
    {
      moves := [];
      var last: seq<Jumped> := [];
      var r := start;
      var col := right;
      while InRange(r, stop, step)
        invariant ScanArgs(model.grid, r, stop, step, col, 1)
        invariant NotBehind(r, start, step)
        invariant moves == []
        invariant Scan(model.grid, start, stop, step, colour, right, 1, skipped, [])
               == Scan(model.grid, r, stop, step, colour, col, 1, skipped, last)
        decreases if step == 1 then stop - r else r - stop
      {
        if col >= COLS {
          break;
        }
        var current := grid[r][col];
        assert SquareHolds(current, r, col, model.grid[r][col]);
        if current == null {
          moves := Landing(r, stop, step, colour, col, 1, skipped, last);
          break;
        } else if current.colour == colour {
          break;
        } else {
          last := [Jumped(current.row, current.col, current.colour)];
        }
        col := col + 1;
        r := r + step;
      }
    }

    /**
     * The empty-square branch shared by `_moveLeft` and `_moveRight`: stop if
     * a chain has nothing new to jump, otherwise record the destination and,
     * after a jump, merge in the scans on from it in both column directions.
     * The scans only read the grid, so running both before the merges gives
     * the same map as the source's record-then-update order.
     */
    method Landing(r: int, stop: int, step: int, colour: Colour, col: int, dc: int,
                   skipped: seq<Jumped>, last: seq<Jumped>) returns (moves: MoveMap)
      requires Valid() && ScanArgs(model.grid, r, stop, step, col, dc)
      requires InRange(r, stop, step) && !OffBoard(col, dc) && model.grid[r][col] == Empty
      ensures moves == Scan(model.grid, r, stop, step, colour, col, dc, skipped, last)
      decreases if step == 1 then ROWS - r else r + 1, 0
    {
      if skipped != [] && last == [] {
        return [];
      }
      var captured := if skipped != [] then last + skipped else last;
      if last != [] {
        var row;
        if step == -1 {
          row := Max(r - 3, 0);
        } else {
          row := Min(r + 3, ROWS);
        }
        var leftMoves := MoveLeft(r + step, row, step, colour, col - 1, last);
        var rightMoves := MoveRight(r + step, row, step, colour, col + 1, last);
        moves := Update(Update(Put([], Square(r, col), captured), leftMoves), rightMoves);
        MoveGenFacts.ChainUnfold(model.grid, r, stop, step, colour, col, dc, skipped, last);
      } else {
        moves := Put([], Square(r, col), captured);
      }
    }

    /**
     * `getValidMoves`: the upward scans for black pieces and kings, then the
     * downward scans for white pieces and kings, merged in that order.
     */
    method GetValidMoves(piece: Piece) returns (moves: MoveMap)
      requires Valid() && 0 <= piece.row < ROWS && 0 <= piece.col < COLS
      ensures moves == ValidMoves(model.grid, piece.row, piece.col, piece.colour, piece.king)
    {
      moves := [];
      if piece.colour == Black || piece.king {
        moves := AddDiagonalMoves(moves, piece, -1);
      }
      if piece.colour == White || piece.king {
        moves := AddDiagonalMoves(moves, piece, 1);
      }
    }

    /**
     * The two `update` calls of `getValidMoves` for one row direction: the
     * left scan, then the right one, from the row next to the piece over at
     * most two rows (`max(row - 3, -1)` upwards, `min(row + 3, ROWS)` downwards).
     */
    method AddDiagonalMoves(moves: MoveMap, piece: Piece, step: int) returns (moves': MoveMap)
      requires Valid() && 0 <= piece.row < ROWS && 0 <= piece.col < COLS && (step == 1 || step == -1)
      ensures moves' == AddDiagonals(moves, model.grid, piece.row, piece.col, piece.colour, step)
    {
      var left := piece.col - 1;
      var right := piece.col + 1;
      var row := piece.row;
      var stop := if step == -1 then Max(row - 3, -1) else Min(row + 3, ROWS);
      var leftMoves := MoveLeft(row + step, stop, step, piece.colour, left, []);
      var rightMoves := MoveRight(row + step, stop, step, piece.colour, right, []);
      moves' := Update(Update(moves, leftMoves), rightMoves);
    }
  }

  /** Square (r, c) holds `p`, which the model describes as `cell`. */
  ghost predicate SquareHolds(p: Piece?, r: int, c: int, cell: Cell)
    reads p
  {
    if p == null then cell == Empty
    else p.row == r && p.col == c && p.Valid() && cell == Occupied(p.colour, p.king)
  }

  /** The grid after `movePiece`'s swap: the piece goes to `to`, whose empty square goes to `from`. */
  function Swap(grid: seq<seq<Piece?>>, from: Square, to: Square): (g: seq<seq<Piece?>>)
    requires |grid| == ROWS && forall r :: 0 <= r < ROWS ==> |grid[r]| == COLS
    requires from.OnBoard() && to.OnBoard()
    ensures |g| == ROWS && forall r :: 0 <= r < ROWS ==> |g[r]| == COLS
    ensures g[from.row][from.col] == grid[to.row][to.col] && g[to.row][to.col] == grid[from.row][from.col]
    ensures forall r, c :: 0 <= r < ROWS && 0 <= c < COLS && Square(r, c) != from && Square(r, c) != to ==>
      g[r][c] == grid[r][c]
  {
    var first := grid[from.row := grid[from.row][from.col := grid[to.row][to.col]]];
    first[to.row := first[to.row][to.col := grid[from.row][from.col]]]
  }

  /** `r` has not moved back past `start` against the direction `step`. */
  predicate NotBehind(r: int, start: int, step: int) {
    if step == 1 then r >= start else r <= start
  }
}
