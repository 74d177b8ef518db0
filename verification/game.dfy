/**
 * The game of checkers/game.py: the board, the side to move, the selected
 * piece and that piece's moves, all updated in place by a click on a square
 * (`select`) and by the computer's move (`AImove`). Drawing is not part of
 * this model.
 */
module Games {
  import opened Constants
  import opened Options
  import opened Dicts
  import opened Rules
  import opened Pieces
  import opened Boards
  import MoveGenFacts
  import BoardFacts
  import Search

  class Game {
    /** The selected piece (`None` in the source when nothing is selected). */
    var selected: Piece?
    var turn: Colour
    /** The moves of the selected piece, as `getValidMoves` returned them. */
    var validMoves: MoveMap
    var board: Board

    /**
     * The board is valid and its counters agree with its grid, and while a
     * selected piece has moves, that piece stands on its own square, belongs
     * to the side to move, and the moves are the ones the rules give it there.
     */
    ghost predicate Valid()
      reads this, board, board.pieces, selected
    {
      board.Valid() && Consistent(board.model) && (selected != null && validMoves != [] ==> Selection())
    }

    ghost predicate Selection()
      requires board.Valid() && selected != null
      reads this, board, board.pieces, selected
    {
      Placed() && validMoves == ValidMoves(board.model.grid, selected.row, selected.col, selected.colour, selected.king)
    }

    /**
     * The selected piece stands on its square and belongs to the side to
     * move, and each of its moves jumps squares of the board other than the
     * destination.
     */
    ghost predicate Placed()
      requires board.Valid() && selected != null
      reads this, board, board.pieces, selected
    {
      && 0 <= selected.row < ROWS && 0 <= selected.col < COLS
      && board.grid[selected.row][selected.col] == selected
      && selected.colour == turn
      && forall e :: e in validMoves ==> AllOnBoard(e.1) && !Listed(e.1, e.0)
    }

    /** A click on (row, col) plays the selected piece: the square is empty and one of its destinations. */
    ghost predicate Plays(row: int, col: int)
      requires board.Valid() && 0 <= row < ROWS && 0 <= col < COLS
      reads this, board, board.pieces
    {
      selected != null && board.model.grid[row][col] == Empty && HasKey(validMoves, Square(row, col))
    }

    /** `__init__`, which runs `_init`: nothing selected, a fresh board, black to move, no moves. */
    constructor ()
      ensures Valid() && fresh(board) && fresh(board.pieces)
      ensures selected == null && turn == Black && validMoves == [] && board.model == InitialPosition()
    {
      selected := null;
      board := new Board();
      turn := Black;
      validMoves := [];
      BoardFacts.InitialPositionFacts();
    }

    /** `reset`, that is `_init` again. */
    method Reset()
      modifies this
      ensures Valid() && fresh(board) && fresh(board.pieces)
      ensures selected == null && turn == Black && validMoves == [] && board.model == InitialPosition()
    {
      selected := null;
      board := new Board();
      turn := Black;
      validMoves := [];
      BoardFacts.InitialPositionFacts();
    }

    /** `winner`: white once black has no piece left, else black once white has none. */
    function Winner(): (w: Option<Colour>)
      requires Valid()
      reads this, board, board.pieces, selected
      ensures w == Some(White) <==> board.model.blackLeft <= 0
      ensures w == Some(Black) <==> board.model.blackLeft > 0 && board.model.whiteLeft <= 0
      ensures w == None <==> board.model.blackLeft > 0 && board.model.whiteLeft > 0
    {
      board.Winner()
    }

    /** `getBoard`: the board of the game, which is always a valid one. */
    function GetBoard(): (b: Board)
      requires Valid()
      reads this, board, board.pieces, selected
      ensures b == board && b.Valid()
    {
      board
    }

    /** `changeTurn`: the moves are cleared and the other side is to move. */
    method ChangeTurn()
      modifies this
      ensures validMoves == [] && turn == Opponent(old(turn)) && Opponent(turn) == old(turn)
      ensures selected == old(selected) && board == old(board)
    {
      validMoves := [];
      if turn == Black {
        turn := White;
      } else {
        turn := Black;
      }
    }

    /**
     * `_move`: when the click plays the selected piece, the piece moves to
     * (row, col), the pieces it jumps are removed and the turn passes.
     * Otherwise nothing changes.
     */
    method Move(row: int, col: int) returns (result: bool)
      requires Valid() && 0 <= row < ROWS && 0 <= col < COLS
      modifies this, board, board.pieces
      ensures Valid() && board == old(board) && board.pieces == old(board.pieces) && selected == old(selected)
      ensures result <==> old(Plays(row, col))
      ensures result ==>
        && board.model == ApplyMove(old(board.model), old(Square(selected.row, selected.col)), Square(row, col),
                                    Get(old(validMoves), Square(row, col)))
        && board.model.grid[row][col].Occupied? && board.model.grid[row][col].colour == old(turn)
        && turn == Opponent(old(turn)) && validMoves == []
      ensures !result ==> unchanged(this, board) && unchanged(board.pieces)
    {
      var piece := board.GetPiece(row, col);
      if selected != null && piece == null && HasKey(validMoves, Square(row, col)) {
        var from := Square(selected.row, selected.col);
        assert SquareHolds(board.grid[from.row][from.col], from.row, from.col, board.model.grid[from.row][from.col]);
        PlayConsistent(board.model, from, validMoves, Square(row, col));
        Play(row, col);
        result := true;
      } else {
        result := false;
      }
    }

    /**
     * The move `_move` makes: the selected piece, which belongs to the side
     * to move, goes to (row, col) and now stands there, the pieces it jumps
     * are removed, and the turn passes.
     */
    method Play(row: int, col: int)
      requires board.Valid() && 0 <= row < ROWS && 0 <= col < COLS
      requires selected != null && Placed() && Plays(row, col)
      modifies this, board, board.pieces
      ensures board.Valid() && board == old(board) && board.pieces == old(board.pieces) && selected == old(selected)
      ensures board.model == ApplyMove(old(board.model), old(Square(selected.row, selected.col)), Square(row, col),
                                       Get(old(validMoves), Square(row, col)))
      ensures old(board.model.grid[selected.row][selected.col]) == Occupied(old(turn), old(selected.king))
      ensures board.model.grid[row][col].Occupied? && board.model.grid[row][col].colour == old(turn)
      ensures selected.row == row && selected.col == col
      ensures turn == Opponent(old(turn)) && validMoves == []
    {
      var from := Square(selected.row, selected.col);
      var to := Square(row, col);
      ghost var before := board.model;
      assert SquareHolds(board.grid[from.row][from.col], from.row, from.col, before.grid[from.row][from.col]);
      var skipped := Get(validMoves, to);
      board.MovePiece(selected, row, col);
      if skipped != [] {
        board.Remove(skipped);
      }
      Lands(before, from, to, skipped);
      ChangeTurn();
    }

    /**
     * `select`: with a piece selected, the click first tries to play it; a
     * click that does not play it drops the selection and is handled as a
     * fresh click (the recursive call). After a move the clicked square
     * holds the piece that moved, which is not of the side now to move, so
     * the click selects nothing and the moved piece stays the selected one.
     * Otherwise a click on a piece of the side to move selects it and
     * fetches its moves; a click elsewhere leaves nothing selected and the
     * old moves in place.
     */
    method Select(row: int, col: int) returns (result: bool)
      requires Valid() && 0 <= row < ROWS && 0 <= col < COLS
      modifies this, board, board.pieces
      ensures Valid() && board == old(board) && board.pieces == old(board.pieces)
      ensures old(Plays(row, col)) ==>
        && !result && selected == old(selected)
        && board.model == ApplyMove(old(board.model), old(Square(selected.row, selected.col)), Square(row, col),
                                    Get(old(validMoves), Square(row, col)))
        && turn == Opponent(old(turn)) && validMoves == []
      ensures !old(Plays(row, col)) ==>
        && unchanged(board) && unchanged(board.pieces) && turn == old(turn)
        && (result <==> board.model.grid[row][col].Occupied? && board.model.grid[row][col].colour == turn)
        && (result ==>
              && selected == board.grid[row][col]
              && validMoves == ValidMoves(board.model.grid, row, col, turn, board.model.grid[row][col].king))
        && (!result ==> selected == null && validMoves == old(validMoves))
      decreases if selected == null then 0 else 1
    {
      if selected != null {
        var moved := Move(row, col);
        if !moved {
          selected := null;
          var _ := Select(row, col);
        }
      }
      result := SelectPiece(row, col);
    }

    /**
     * The end of `select`: a click on a piece of the side to move selects it
     * and fetches its moves; any other click changes nothing.
     */
    method SelectPiece(row: int, col: int) returns (result: bool)
      requires Valid() && 0 <= row < ROWS && 0 <= col < COLS
      modifies this
      ensures Valid() && board == old(board) && turn == old(turn)
      ensures result <==> board.model.grid[row][col].Occupied? && board.model.grid[row][col].colour == turn
      ensures result ==>
        && selected == board.grid[row][col]
        && validMoves == ValidMoves(board.model.grid, row, col, turn, board.model.grid[row][col].king)
      ensures !result ==> selected == old(selected) && validMoves == old(validMoves)
    {
      var piece := board.GetPiece(row, col);
      if piece != null && piece.colour == turn {
        selected := piece;
        validMoves := board.GetValidMoves(piece);
        MovesPlayable(board.model.grid, row, col, piece.colour, piece.king);
        result := true;
      } else {
        result := false;
      }
    }

    /**
     * `AImove`: the board the computer chose replaces the game's board, and
     * the turn passes. The search only returns boards whose counters agree
     * with their grids (`Search.AllMovesLeft`).
     */
    method AIMove(newBoard: Board)
      requires newBoard.Valid() && Consistent(newBoard.model)
      modifies this
      ensures Valid() && board == newBoard && selected == old(selected)
      ensures turn == Opponent(old(turn)) && validMoves == []
    {
      board := newBoard;
      ChangeTurn();
    }
  }

  /**
   * Every capture list of getValidMoves names squares of the board, and none
   * of them is the destination it belongs to (that square is empty, the
   * captured ones are not).
   */
  lemma MovesPlayable(g: Grid, row: int, col: int, colour: Colour, king: bool)
    requires WellFormedGrid(g) && Square(row, col).OnBoard()
    ensures forall e :: e in ValidMoves(g, row, col, colour, king) ==> AllOnBoard(e.1) && !Listed(e.1, e.0)
  {
    MoveGenFacts.ValidMovesFacts(g, row, col, colour, king);
    forall e | e in ValidMoves(g, row, col, colour, king) ensures AllOnBoard(e.1) && !Listed(e.1, e.0) {
      assert MoveGenFacts.MoveEntry(g, row, col, colour, king, e);
    }
  }

  /** Playing one of the moves `getValidMoves` gives a piece keeps the counters equal to the grid. */
  lemma PlayConsistent(p: Position, from: Square, moves: MoveMap, to: Square)
    requires WellFormed(p) && Consistent(p) && from.OnBoard() && p.grid[from.row][from.col].Occupied?
    requires moves == ValidMoves(p.grid, from.row, from.col, p.grid[from.row][from.col].colour, p.grid[from.row][from.col].king)
    requires HasKey(moves, to)
    ensures to.OnBoard() && AllOnBoard(Get(moves, to))
    ensures Consistent(ApplyMove(p, from, to, Get(moves, to)))
  {
    Search.ApplyMoveConsistent(p, from, (to, Get(moves, to)));
  }

  /** A move leaves the mover on its destination when that square is not among the jumped ones. */
  lemma Lands(p: Position, from: Square, to: Square, skip: seq<Jumped>)
    requires WellFormed(p) && from.OnBoard() && to.OnBoard() && p.grid[from.row][from.col].Occupied?
    requires AllOnBoard(skip) && !Listed(skip, to)
    ensures ApplyMove(p, from, to, skip).grid[to.row][to.col].Occupied?
    ensures ApplyMove(p, from, to, skip).grid[to.row][to.col].colour == p.grid[from.row][from.col].colour
  {
    ApplyMoveFacts(p, from, to, skip);
  }
}
