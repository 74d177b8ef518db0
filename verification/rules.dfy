/**
 * The board of checkers/board.py as a value: the 8x8 grid of squares, each
 * empty or holding a piece of some colour (crowned or not), and the four
 * counters. Every operation of the board is defined here as a function on
 * such values; the class in board.dfy does the same work in place and is
 * proved to agree with these functions, and the search works on them directly.
 */
module Rules {
  import opened Constants
  import opened Options
  import opened Dicts

  datatype Square = Square(row: int, col: int) {
    predicate OnBoard() {
      0 <= row < ROWS && 0 <= col < COLS
    }
  }

  /** A captured piece, as `remove` sees it: its square and its colour. */
  datatype Jumped = Jumped(row: int, col: int, colour: Colour) {
    function At(): Square {
      Square(row, col)
    }
  }

  /** The content of a square: `0` in the source, or a piece. */
  datatype Cell = Empty | Occupied(colour: Colour, king: bool)

  type Grid = seq<seq<Cell>>

  /** The result of `getValidMoves`: destination to the pieces jumped on the way. */
  type MoveMap = Dict<Square, seq<Jumped>>

  datatype Position = Position(grid: Grid, whiteLeft: int, blackLeft: int, whiteKings: int, blackKings: int)

  predicate WellFormedGrid(g: Grid) {
    |g| == ROWS && forall r :: 0 <= r < ROWS ==> |g[r]| == COLS
  }

  predicate WellFormed(p: Position) {
    WellFormedGrid(p.grid)
  }

  function Max(a: int, b: int): int { if a < b then b else a }
  function Min(a: int, b: int): int { if a < b then a else b }

  /** Assignment to one square; every other square keeps its content. */
  function SetCell(g: Grid, s: Square, v: Cell): (g': Grid)
    requires WellFormedGrid(g) && s.OnBoard()
    ensures WellFormedGrid(g')
    ensures g'[s.row][s.col] == v
    ensures forall r, c :: 0 <= r < ROWS && 0 <= c < COLS && (r != s.row || c != s.col) ==> g'[r][c] == g[r][c]
  {
    g[s.row := g[s.row][s.col := v]]
  }

  // ---------------------------------------------------------------------------
  // Initial set-up (createBoard and the counters of __init__)

  /** The squares with `col % 2 == (row + 1) % 2` hold white pieces in rows 0 to 2 and black ones in rows 5 to 7. */
  function InitialCell(row: int, col: int): Cell {
    if col % 2 == (row + 1) % 2 then
      if row < 3 then Occupied(White, false)
      else if row > 4 then Occupied(Black, false)
      else Empty
    else Empty
  }

  function InitialPosition(): Position {
    Position(seq(ROWS, r => seq(COLS, c => InitialCell(r, c))), 12, 12, 0, 0)
  }

  // ---------------------------------------------------------------------------
  // movePiece, remove, winner

  /**
   * movePiece: the piece on `from` and the content of `to` change places; a
   * piece landing on row 0 or row 7 is crowned and its colour's king counter
   * goes up by one, whether or not it was a king already.
   */
  function MovePiece(p: Position, from: Square, to: Square): (q: Position)
    requires WellFormed(p) && from.OnBoard() && to.OnBoard()
    requires p.grid[from.row][from.col].Occupied?
    ensures WellFormed(q)
    ensures var m := p.grid[from.row][from.col];
      q.grid[to.row][to.col] == Occupied(m.colour, m.king || to.row == 0 || to.row == ROWS - 1)
    ensures from != to ==> q.grid[from.row][from.col] == p.grid[to.row][to.col]
    ensures forall r, c :: 0 <= r < ROWS && 0 <= c < COLS && Square(r, c) != from && Square(r, c) != to ==>
      q.grid[r][c] == p.grid[r][c]
    ensures q.whiteLeft == p.whiteLeft && q.blackLeft == p.blackLeft
    ensures var crowned := to.row == 0 || to.row == ROWS - 1;
      var m := p.grid[from.row][from.col];
      && q.whiteKings == p.whiteKings + (if crowned && m.colour == White then 1 else 0)
      && q.blackKings == p.blackKings + (if crowned && m.colour == Black then 1 else 0)
  {
    var mover := p.grid[from.row][from.col];
    var swapped := SetCell(SetCell(p.grid, from, p.grid[to.row][to.col]), to, mover);
    if to.row == ROWS - 1 || to.row == 0 then
      var crowned := SetCell(swapped, to, Occupied(mover.colour, true));
      if mover.colour == White then p.(grid := crowned, whiteKings := p.whiteKings + 1)
      else p.(grid := crowned, blackKings := p.blackKings + 1)
    else
      p.(grid := swapped)
  }

  /** One step of `remove`: empty the square and decrement the counter of the listed colour. */
  function RemoveOne(p: Position, j: Jumped): (q: Position)
    requires WellFormed(p) && j.At().OnBoard()
    ensures WellFormed(q)
  {
    var g := SetCell(p.grid, j.At(), Empty);
    var black := if j.colour == Black then p.blackLeft - 1 else p.blackLeft;
    var white := if j.colour == White then p.whiteLeft - 1 else p.whiteLeft;
    p.(grid := g, blackLeft := black, whiteLeft := white)
  }

  predicate AllOnBoard(js: seq<Jumped>) {
    forall i :: 0 <= i < |js| ==> js[i].At().OnBoard()
  }

  predicate Listed(js: seq<Jumped>, s: Square) {
    exists i :: 0 <= i < |js| && js[i].At() == s
  }

  /** How many entries of `js` have colour `c`. */
  function Tally(js: seq<Jumped>, c: Colour): nat {
    if js == [] then 0 else Tally(js[..|js| - 1], c) + (if js[|js| - 1].colour == c then 1 else 0)
  }

  /**
   * remove: every listed square becomes empty, every other square keeps its
   * content, and each counter drops by the number of entries of its colour.
   */
  function Remove(p: Position, js: seq<Jumped>): (q: Position)
    requires WellFormed(p) && AllOnBoard(js)
    ensures WellFormed(q)
    ensures forall r, c :: 0 <= r < ROWS && 0 <= c < COLS ==>
      q.grid[r][c] == if Listed(js, Square(r, c)) then Empty else p.grid[r][c]
    ensures q.whiteLeft == p.whiteLeft - Tally(js, White) && q.blackLeft == p.blackLeft - Tally(js, Black)
    ensures q.whiteKings == p.whiteKings && q.blackKings == p.blackKings
  {
    if js == [] then p
    else
      var front := js[..|js| - 1];
      assert AllOnBoard(front) by {
        forall i | 0 <= i < |front| ensures front[i].At().OnBoard() { assert front[i] == js[i]; }
      }
      var q := RemoveOne(Remove(p, front), js[|js| - 1]);
      assert forall r, c :: 0 <= r < ROWS && 0 <= c < COLS ==>
        (Listed(js, Square(r, c)) <==> Listed(front, Square(r, c)) || js[|js| - 1].At() == Square(r, c)) by {
        forall r, c | 0 <= r < ROWS && 0 <= c < COLS
          ensures Listed(js, Square(r, c)) <==> Listed(front, Square(r, c)) || js[|js| - 1].At() == Square(r, c)
        {
          if Listed(front, Square(r, c)) {
            var i :| 0 <= i < |front| && front[i].At() == Square(r, c);
            assert js[i] == front[i];
          }
          if Listed(js, Square(r, c)) {
            var i :| 0 <= i < |js| && js[i].At() == Square(r, c);
            if i < |js| - 1 { assert front[i] == js[i]; }
          }
        }
      }
      q
  }

  /**
   * simulateMove, and the body of a successful _move: the piece on `from`
   * moves to `to`, then the listed pieces are removed, but only when the list
   * is not empty.
   */
  function ApplyMove(p: Position, from: Square, to: Square, skip: seq<Jumped>): (q: Position)
    requires WellFormed(p) && from.OnBoard() && to.OnBoard() && p.grid[from.row][from.col].Occupied?
    requires AllOnBoard(skip)
    ensures WellFormed(q)
  {
    var moved := MovePiece(p, from, to);
    if skip == [] then moved else Remove(moved, skip)
  }

  /**
   * After ApplyMove the destination holds the mover (crowned on row 0 or 7)
   * unless it is listed, the origin holds what the destination held, listed
   * squares are empty and every other square is unchanged; each `*Left`
   * counter drops by the entries of its colour, and the mover's king counter
   * goes up by one on a crowning row.
   */
  lemma ApplyMoveFacts(p: Position, from: Square, to: Square, skip: seq<Jumped>)
    requires WellFormed(p) && from.OnBoard() && to.OnBoard() && p.grid[from.row][from.col].Occupied?
    requires AllOnBoard(skip)
    ensures var q := ApplyMove(p, from, to, skip);
      var m := p.grid[from.row][from.col];
      && (!Listed(skip, to) ==> q.grid[to.row][to.col] == Occupied(m.colour, m.king || to.row == 0 || to.row == ROWS - 1))
      && (from != to && !Listed(skip, from) ==> q.grid[from.row][from.col] == p.grid[to.row][to.col])
      && (forall r, c :: 0 <= r < ROWS && 0 <= c < COLS && Listed(skip, Square(r, c)) ==> q.grid[r][c] == Empty)
      && (forall r, c ::
            0 <= r < ROWS && 0 <= c < COLS && Square(r, c) != from && Square(r, c) != to && !Listed(skip, Square(r, c)) ==>
            q.grid[r][c] == p.grid[r][c])
      && q.whiteLeft == p.whiteLeft - Tally(skip, White) && q.blackLeft == p.blackLeft - Tally(skip, Black)
      && var crowned := to.row == 0 || to.row == ROWS - 1;
         && q.whiteKings == p.whiteKings + (if crowned && m.colour == White then 1 else 0)
         && q.blackKings == p.blackKings + (if crowned && m.colour == Black then 1 else 0)
  {
    var moved := MovePiece(p, from, to);
    if skip != [] {
      var q := Remove(moved, skip);
    }
  }

  /** winner: WHITE when no black piece is left (checked first), BLACK when no white one is, otherwise None. */
  function WinnerOf(whiteLeft: int, blackLeft: int): (w: Option<Colour>)
    ensures w == Some(White) <==> blackLeft <= 0
    ensures w == Some(Black) <==> blackLeft > 0 && whiteLeft <= 0
    ensures w == None <==> blackLeft > 0 && whiteLeft > 0
  {
    if blackLeft <= 0 then Some(White)
    else if whiteLeft <= 0 then Some(Black)
    else None
  }

  function Winner(p: Position): Option<Colour> {
    WinnerOf(p.whiteLeft, p.blackLeft)
  }

  // ---------------------------------------------------------------------------
  // Move generation: _moveLeft / _moveRight and getValidMoves

  /** `range(r, stop, step)` still has `r` in it. */
  predicate InRange(r: int, stop: int, step: int) {
    if step == 1 then r < stop else r > stop
  }

  /** What every call of the scanners satisfies: the rows of the range lie on the board and the column starts at most one square off it. */
  predicate ScanArgs(g: Grid, r: int, stop: int, step: int, col: int, dc: int) {
    && WellFormedGrid(g)
    && (step == 1 || step == -1)
    && (dc == 1 || dc == -1)
    && (step == 1 ==> 0 <= r && stop <= ROWS)
    && (step == -1 ==> r < ROWS && -1 <= stop)
    && (dc == -1 ==> col < COLS)
    && (dc == 1 ==> 0 <= col)
  }

  /** The column has left the board on the side the scan is heading to (`left < 0` or `right >= COLS`). */
  predicate OffBoard(col: int, dc: int) {
    if dc == -1 then col < 0 else col >= COLS
  }

  /**
   * One of the two scanners (`dc == -1` is _moveLeft, `dc == 1` is _moveRight)
   * from the state of its loop: the row `r` about to be visited, the end of
   * the range, the column cursor, the pieces jumped before this scan started
   * (`skipped`) and the piece jumped on this line (`last`). A scan started by
   * the source has `r == start` and `last == []`.
   */
  function Scan(g: Grid, r: int, stop: int, step: int, colour: Colour, col: int, dc: int,
                skipped: seq<Jumped>, last: seq<Jumped>): MoveMap
    requires ScanArgs(g, r, stop, step, col, dc)
    decreases if step == 1 then ROWS - r else r + 1
  {
    if !InRange(r, stop, step) || OffBoard(col, dc) then []
    else
      var current := g[r][col];
      if current.Empty? then
        if skipped != [] && last == [] then []
        else
          var moves := Put([], Square(r, col), if skipped != [] then last + skipped else last);
          if last != [] then
            var row := if step == -1 then Max(r - 3, 0) else Min(r + 3, ROWS);
            var moves' := Update(moves, Scan(g, r + step, row, step, colour, col - 1, -1, last, []));
            Update(moves', Scan(g, r + step, row, step, colour, col + 1, 1, last, []))
          else moves
      else if current.colour == colour then []
      else Scan(g, r + step, stop, step, colour, col + dc, dc, skipped, [Jumped(r, col, current.colour)])
  }

  /** The two scanners of one row direction, started from a piece on (row, col), merged into `moves`. */
  function AddDiagonals(moves: MoveMap, g: Grid, row: int, col: int, colour: Colour, step: int): MoveMap
    requires WellFormedGrid(g) && Square(row, col).OnBoard() && (step == 1 || step == -1)
  {
    var stop := if step == -1 then Max(row - 3, -1) else Min(row + 3, ROWS);
    var moves' := Update(moves, Scan(g, row + step, stop, step, colour, col - 1, -1, [], []));
    Update(moves', Scan(g, row + step, stop, step, colour, col + 1, 1, [], []))
  }

  /** getValidMoves: black pieces and kings scan upwards (step -1), white pieces and kings downwards. */
  function ValidMoves(g: Grid, row: int, col: int, colour: Colour, king: bool): MoveMap
    requires WellFormedGrid(g) && Square(row, col).OnBoard()
  {
    var up := if colour == Black || king then AddDiagonals([], g, row, col, colour, -1) else [];
    if colour == White || king then AddDiagonals(up, g, row, col, colour, 1) else up
  }

  // ---------------------------------------------------------------------------
  // Piece counts on the grid

  function Holds(cell: Cell, c: Colour): nat {
    if cell.Occupied? && cell.colour == c then 1 else 0
  }

  function CountRow(s: seq<Cell>, c: Colour): nat {
    if s == [] then 0 else CountRow(s[..|s| - 1], c) + Holds(s[|s| - 1], c)
  }

  /** The number of pieces of colour `c` on the grid. */
  function Count(g: Grid, c: Colour): nat {
    if g == [] then 0 else Count(g[..|g| - 1], c) + CountRow(g[|g| - 1], c)
  }

  /** The `*Left` counters agree with the grid. */
  predicate Consistent(p: Position) {
    p.whiteLeft == Count(p.grid, White) && p.blackLeft == Count(p.grid, Black)
  }
}
