/**
 * What createBoard, movePiece and remove promise about the pieces on the
 * grid and the `*Left` counters (checkers/board.py).
 */
module BoardFacts {
  import opened Constants
  import opened Rules

  // ---------------------------------------------------------------------------
  // Counting

  lemma {:induction false} CountRowUpdate(s: seq<Cell>, i: int, v: Cell, c: Colour)
    requires 0 <= i < |s|
    ensures CountRow(s[i := v], c) == CountRow(s, c) - Holds(s[i], c) + Holds(v, c)
  {
    var n := |s| - 1;
    assert s[i := v][..n] == if i == n then s[..n] else s[..n][i := v];
    if i < n {
      CountRowUpdate(s[..n], i, v, c);
    }
  }

  lemma {:induction false} CountUpdate(g: Grid, row: int, col: int, v: Cell, c: Colour)
    requires 0 <= row < |g| && 0 <= col < |g[row]|
    ensures Count(g[row := g[row][col := v]], c) == Count(g, c) - Holds(g[row][col], c) + Holds(v, c)
  {
    var n := |g| - 1;
    var g' := g[row := g[row][col := v]];
    assert g'[..n] == if row == n then g[..n] else g[..n][row := g[..n][row][col := v]];
    if row == n {
      CountRowUpdate(g[n], col, v, c);
    } else {
      CountUpdate(g[..n], row, col, v, c);
    }
  }

  /** Setting one square changes the count of a colour by what leaves and what arrives there. */
  lemma SetCellCount(g: Grid, s: Square, v: Cell, c: Colour)
    requires WellFormedGrid(g) && s.OnBoard()
    ensures Count(SetCell(g, s, v), c) == Count(g, c) - Holds(g[s.row][s.col], c) + Holds(v, c)
  {
    CountUpdate(g, s.row, s.col, v, c);
  }

  lemma CountRowStep(s: seq<Cell>, k: int, c: Colour)
    requires 0 <= k < |s|
    ensures CountRow(s[..k + 1], c) == CountRow(s[..k], c) + Holds(s[k], c)
  {
    assert s[..k + 1][..k] == s[..k];
  }

  lemma CountRowOfEight(s: seq<Cell>, c: Colour)
    requires |s| == 8
    ensures CountRow(s, c) == Holds(s[0], c) + Holds(s[1], c) + Holds(s[2], c) + Holds(s[3], c)
                            + Holds(s[4], c) + Holds(s[5], c) + Holds(s[6], c) + Holds(s[7], c)
  {
    assert s[..0] == [];
    CountRowStep(s, 0, c); CountRowStep(s, 1, c); CountRowStep(s, 2, c); CountRowStep(s, 3, c);
    CountRowStep(s, 4, c); CountRowStep(s, 5, c); CountRowStep(s, 6, c); CountRowStep(s, 7, c);
    assert s[..8] == s;
  }

  lemma CountStep(g: Grid, k: int, c: Colour)
    requires 0 <= k < |g|
    ensures Count(g[..k + 1], c) == Count(g[..k], c) + CountRow(g[k], c)
  {
    assert g[..k + 1][..k] == g[..k];
  }

  lemma CountOfEight(g: Grid, c: Colour)
    requires |g| == 8
    ensures Count(g, c) == CountRow(g[0], c) + CountRow(g[1], c) + CountRow(g[2], c) + CountRow(g[3], c)
                         + CountRow(g[4], c) + CountRow(g[5], c) + CountRow(g[6], c) + CountRow(g[7], c)
  {
    assert g[..0] == [];
    CountStep(g, 0, c); CountStep(g, 1, c); CountStep(g, 2, c); CountStep(g, 3, c);
    CountStep(g, 4, c); CountStep(g, 5, c); CountStep(g, 6, c); CountStep(g, 7, c);
    assert g[..8] == g;
  }

  lemma InitialRowCount(r: int, c: Colour)
    requires 0 <= r < ROWS
    ensures CountRow(InitialPosition().grid[r], c) ==
      if (c == White && r < 3) || (c == Black && r > 4) then 4 else 0
  {
    var s := InitialPosition().grid[r];
    CountRowOfEight(s, c);
    assert s[0] == InitialCell(r, 0) && s[1] == InitialCell(r, 1) && s[2] == InitialCell(r, 2) && s[3] == InitialCell(r, 3);
    assert s[4] == InitialCell(r, 4) && s[5] == InitialCell(r, 5) && s[6] == InitialCell(r, 6) && s[7] == InitialCell(r, 7);
    if r % 2 == 0 {
      assert (r + 1) % 2 == 1;
    } else {
      assert (r + 1) % 2 == 0;
    }
  }

  /**
   * The initial board: white men on the squares with col % 2 == (row + 1) % 2
   * of rows 0 to 2, black men on those of rows 5 to 7, rows 3 and 4 empty,
   * twelve pieces a side, no kings, and the counters agree with the grid.
   */
  lemma InitialPositionFacts()
    ensures var p := InitialPosition();
      && WellFormed(p)
      && (forall r, c :: 0 <= r < ROWS && 0 <= c < COLS ==>
            (p.grid[r][c].Occupied? <==> c % 2 == (r + 1) % 2 && (r < 3 || r > 4)))
      && (forall r, c :: 0 <= r < ROWS && 0 <= c < COLS && p.grid[r][c].Occupied? ==>
            !p.grid[r][c].king && (p.grid[r][c].colour == White <==> r < 3))
      && Count(p.grid, White) == 12 && Count(p.grid, Black) == 12
      && p.whiteLeft == 12 && p.blackLeft == 12 && p.whiteKings == 0 && p.blackKings == 0
      && Consistent(p)
  {
    var g := InitialPosition().grid;
    forall c: Colour ensures Count(g, c) == 12 {
      CountOfEight(g, c);
      InitialRowCount(0, c); InitialRowCount(1, c); InitialRowCount(2, c); InitialRowCount(3, c);
      InitialRowCount(4, c); InitialRowCount(5, c); InitialRowCount(6, c); InitialRowCount(7, c);
    }
  }

  // ---------------------------------------------------------------------------
  // movePiece and remove against the counters

  /** Moving a piece, crowned or not, never changes how many pieces of each colour the grid holds. */
  lemma MovePieceKeepsCounts(p: Position, from: Square, to: Square, c: Colour)
    requires WellFormed(p) && from.OnBoard() && to.OnBoard() && p.grid[from.row][from.col].Occupied?
    ensures Count(MovePiece(p, from, to).grid, c) == Count(p.grid, c)
  {
    var g := p.grid;
    var mover := g[from.row][from.col];
    var g1 := SetCell(g, from, g[to.row][to.col]);
    SetCellCount(g, from, g[to.row][to.col], c);
    assert g1[to.row][to.col] == g[to.row][to.col];
    var g2 := SetCell(g1, to, mover);
    SetCellCount(g1, to, mover, c);
    assert Count(g2, c) == Count(g, c);
    if to.row == ROWS - 1 || to.row == 0 {
      var g3 := SetCell(g2, to, Occupied(mover.colour, true));
      SetCellCount(g2, to, Occupied(mover.colour, true), c);
      assert Holds(Occupied(mover.colour, true), c) == Holds(mover, c);
      assert MovePiece(p, from, to).grid == g3;
    } else {
      assert MovePiece(p, from, to).grid == g2;
    }
  }

  lemma MovePieceConsistent(p: Position, from: Square, to: Square)
    requires WellFormed(p) && from.OnBoard() && to.OnBoard() && p.grid[from.row][from.col].Occupied?
    requires Consistent(p)
    ensures Consistent(MovePiece(p, from, to))
  {
    MovePieceKeepsCounts(p, from, to, White);
    MovePieceKeepsCounts(p, from, to, Black);
  }

  /** The listed squares are pairwise different. */
  predicate DistinctSquares(js: seq<Jumped>) {
    forall i, j :: 0 <= i < j < |js| ==> js[i].At() != js[j].At()
  }

  /** Each entry names a piece that is on the grid with the listed colour. */
  predicate PiecesOnGrid(g: Grid, js: seq<Jumped>)
    requires WellFormedGrid(g)
  {
    forall i :: 0 <= i < |js| ==>
      js[i].At().OnBoard() && g[js[i].row][js[i].col] != Empty && g[js[i].row][js[i].col].colour == js[i].colour
  }

  /**
   * remove on distinct pieces that are on the grid keeps each `*Left`
   * counter equal to the number of pieces of its colour.
   */
  lemma {:induction false} RemoveConsistent(p: Position, js: seq<Jumped>)
    requires WellFormed(p) && Consistent(p)
    requires PiecesOnGrid(p.grid, js) && DistinctSquares(js)
    ensures AllOnBoard(js) && Consistent(Remove(p, js))
  {
    if js != [] {
      var n := |js| - 1;
      var front := js[..n];
      assert PiecesOnGrid(p.grid, front) && DistinctSquares(front) by {
        forall i | 0 <= i < n ensures front[i] == js[i] { }
      }
      RemoveConsistent(p, front);
      var q := Remove(p, front);
      var j := js[n];
      assert !Listed(front, j.At()) by {
        forall i | 0 <= i < n ensures front[i].At() != j.At() { assert front[i] == js[i]; }
      }
      assert q.grid[j.row][j.col] == p.grid[j.row][j.col];
      SetCellCount(q.grid, j.At(), Empty, White);
      SetCellCount(q.grid, j.At(), Empty, Black);
    }
  }

  lemma {:induction false} TallyTotal(js: seq<Jumped>)
    ensures Tally(js, White) + Tally(js, Black) == |js|
  {
    if js != [] {
      TallyTotal(js[..|js| - 1]);
    }
  }

  /** remove lowers the sum of the two `*Left` counters by exactly the length of the list. */
  lemma RemoveTotal(p: Position, js: seq<Jumped>)
    requires WellFormed(p) && AllOnBoard(js)
    ensures Remove(p, js).whiteLeft + Remove(p, js).blackLeft == p.whiteLeft + p.blackLeft - |js|
  {
    TallyTotal(js);
  }
}
