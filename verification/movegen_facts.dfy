/**
 * Properties of the scanners _moveLeft/_moveRight and of getValidMoves
 * (checkers/board.py:110-245), stated about `Rules.Scan` and `Rules.ValidMoves`.
 */
module MoveGenFacts {
  import opened Constants
  import opened Dicts
  import opened Rules

  /** `row` lies at least `k` rows past `base` in the direction `step`. */
  predicate Beyond(row: int, base: int, step: int, k: int) {
    if step == 1 then row >= base + k else row <= base - k
  }

  /** A recorded jump names a piece of the other colour that stands on that square. */
  predicate Opposing(g: Grid, colour: Colour, j: Jumped)
    requires WellFormedGrid(g)
  {
    j.At().OnBoard() && g[j.row][j.col].Occupied? && g[j.row][j.col].colour == j.colour && j.colour != colour
  }

  /** What holds of every entry a scan returns, relative to the loop state it started from. */
  predicate ScanEntry(g: Grid, r: int, stop: int, step: int, colour: Colour, col: int,
                      skipped: seq<Jumped>, last: seq<Jumped>, e: (Square, seq<Jumped>))
    requires WellFormedGrid(g)
  {
    var (d, caps) := e;
    && d.OnBoard() && g[d.row][d.col] == Empty
    && Beyond(d.row, r, step, 0)
    && |caps| <= 2
    && (forall i :: 0 <= i < |caps| ==> Opposing(g, colour, caps[i]))
    && (|caps| == 2 ==> caps[0].row != caps[1].row)
    && (caps == [] ==> d == Square(r, col) && skipped == [] && last == [])
    && (skipped != [] ==> |caps| == 2)
    && (last == [] && caps != [] ==> Beyond(d.row, r, step, 1))
    && (step == -1 && stop >= 0 ==> d.row >= 1)
    && (step == -1 && |caps| == 2 ==> d.row >= 1)
  }

  /** `ScanEntry` for every entry of `res`. */
  predicate ScanEntries(g: Grid, r: int, stop: int, step: int, colour: Colour, col: int,
                        skipped: seq<Jumped>, last: seq<Jumped>, res: MoveMap)
    requires WellFormedGrid(g)
  {
    forall e :: e in res ==> ScanEntry(g, r, stop, step, colour, col, skipped, last, e)
  }

  /** The loop state a scan can be in: what was jumped before it started and on this line. */
  predicate ScanState(g: Grid, r: int, stop: int, step: int, colour: Colour, skipped: seq<Jumped>, last: seq<Jumped>)
    requires WellFormedGrid(g)
  {
    && |skipped| <= 1 && |last| <= 1
    && (forall i :: 0 <= i < |skipped| ==> Opposing(g, colour, skipped[i]) && Beyond(r, skipped[i].row, step, 2))
    && (forall i :: 0 <= i < |last| ==> Opposing(g, colour, last[i]) && last[i].row == r - step)
    && (skipped != [] && step == -1 ==> stop >= 0)
  }

  /** The capture list a landing on the scan's current square records. */
  function LandingCaps(skipped: seq<Jumped>, last: seq<Jumped>): seq<Jumped> {
    if skipped != [] then last + skipped else last
  }

  /** The landing on the square the scan is looking at satisfies `ScanEntry`. */
  lemma LandingEntry(g: Grid, r: int, stop: int, step: int, colour: Colour, col: int, dc: int,
                     skipped: seq<Jumped>, last: seq<Jumped>)
    requires ScanArgs(g, r, stop, step, col, dc)
    requires ScanState(g, r, stop, step, colour, skipped, last)
    requires InRange(r, stop, step) && !OffBoard(col, dc) && g[r][col].Empty?
    requires !(skipped != [] && last == [])
    ensures ScanEntry(g, r, stop, step, colour, col, skipped, last, (Square(r, col), LandingCaps(skipped, last)))
  {
    var caps := LandingCaps(skipped, last);
    if skipped != [] {
      assert caps == [last[0], skipped[0]];
      assert Beyond(r, skipped[0].row, step, 2);
    }
  }

  /** An entry of a chained scan started after the landing on row r satisfies `ScanEntry` for row r. */
  lemma ChainEntry(g: Grid, r: int, stop: int, step: int, colour: Colour, col: int, col': int,
                   skipped: seq<Jumped>, last: seq<Jumped>, e: (Square, seq<Jumped>))
    requires WellFormedGrid(g) && (step == 1 || step == -1) && last != []
    requires ScanEntry(g, r + step, if step == -1 then Max(r - 3, 0) else Min(r + 3, ROWS), step, colour, col', last, [], e)
    ensures ScanEntry(g, r, stop, step, colour, col, skipped, last, e)
  {
  }

  /** The landing followed by the entries of the two chained scans, merged as `update` merges them. */
  lemma ChainedEntries(g: Grid, r: int, stop: int, step: int, colour: Colour, col: int,
                       skipped: seq<Jumped>, last: seq<Jumped>, landing: (Square, seq<Jumped>), left: MoveMap, right: MoveMap)
    requires WellFormedGrid(g) && (step == 1 || step == -1) && last != []
    requires ScanEntry(g, r, stop, step, colour, col, skipped, last, landing)
    requires var row := if step == -1 then Max(r - 3, 0) else Min(r + 3, ROWS);
      && ScanOk(g, r + step, row, step, colour, col - 1, last, [], left)
      && ScanOk(g, r + step, row, step, colour, col + 1, last, [], right)
    ensures ScanOk(g, r, stop, step, colour, col, skipped, last, Update(Update([landing], left), right))
  {
    var moves := [landing];
    var moves' := Update(moves, left);
    UpdateMembers(moves, left);
    UpdateMembers(moves', right);
    UpdateKeepsDistinct(moves, left);
    UpdateKeepsDistinct(moves', right);
    forall e | e in Update(moves', right) ensures ScanEntry(g, r, stop, step, colour, col, skipped, last, e) {
      if e in left {
        ChainEntry(g, r, stop, step, colour, col, col - 1, skipped, last, e);
      } else if e in right {
        ChainEntry(g, r, stop, step, colour, col, col + 1, skipped, last, e);
      }
    }
  }

  /** An entry of the scan continued past a jumped piece on row r satisfies `ScanEntry` for row r. */
  lemma JumpEntry(g: Grid, r: int, stop: int, step: int, colour: Colour, col: int, col': int,
                  skipped: seq<Jumped>, last: seq<Jumped>, j: Jumped, e: (Square, seq<Jumped>))
    requires WellFormedGrid(g) && (step == 1 || step == -1)
    requires ScanEntry(g, r + step, stop, step, colour, col', skipped, [j], e)
    ensures ScanEntry(g, r, stop, step, colour, col, skipped, last, e)
  {
  }

  /** After a landing with something jumped, the chained scans start in a valid loop state. */
  lemma ChainState(g: Grid, r: int, stop: int, step: int, colour: Colour, skipped: seq<Jumped>, last: seq<Jumped>)
    requires WellFormedGrid(g) && (step == 1 || step == -1)
    requires ScanState(g, r, stop, step, colour, skipped, last)
    ensures ScanState(g, r + step, if step == -1 then Max(r - 3, 0) else Min(r + 3, ROWS), step, colour, last, [])
  {
  }

  /** After an opposing piece on (r, col), the scan goes on in a valid loop state. */
  lemma JumpState(g: Grid, r: int, stop: int, step: int, colour: Colour, col: int, skipped: seq<Jumped>, last: seq<Jumped>)
    requires WellFormedGrid(g) && (step == 1 || step == -1) && 0 <= r < ROWS && 0 <= col < COLS
    requires ScanState(g, r, stop, step, colour, skipped, last)
    requires g[r][col].Occupied? && g[r][col].colour != colour
    ensures ScanState(g, r + step, stop, step, colour, skipped, [Jumped(r, col, g[r][col].colour)])
  {
  }

  /** The entries found past a jumped piece satisfy `ScanEntry` for the row of that piece. */
  lemma JumpEntries(g: Grid, r: int, stop: int, step: int, colour: Colour, col: int, col': int,
                    skipped: seq<Jumped>, last: seq<Jumped>, j: Jumped, sub: MoveMap)
    requires WellFormedGrid(g) && (step == 1 || step == -1)
    requires ScanEntries(g, r + step, stop, step, colour, col', skipped, [j], sub)
    ensures ScanEntries(g, r, stop, step, colour, col, skipped, last, sub)
  {
    forall e | e in sub ensures ScanEntry(g, r, stop, step, colour, col, skipped, last, e) {
      JumpEntry(g, r, stop, step, colour, col, col', skipped, last, j, e);
    }
  }

  /** The scan's result has distinct keys and each of its entries satisfies `ScanEntry`. */
  predicate ScanOk(g: Grid, r: int, stop: int, step: int, colour: Colour, col: int,
                   skipped: seq<Jumped>, last: seq<Jumped>, res: MoveMap)
    requires WellFormedGrid(g)
  {
    DistinctKeys(res) && ScanEntries(g, r, stop, step, colour, col, skipped, last, res)
  }

  /**
   * Every destination is an empty square on the board in the scan's row
   * direction; a capture list holds one or two opposing pieces on different
   * rows; only a first-level scan that has jumped nothing records a plain move,
   * and only on the square it is looking at; a chained scan records two
   * captures (the new piece and the one jumped just before); an upward scan
   * whose range stops at row 0 or above, and every upward chain, never lands
   * on row 0. The keys are distinct.
   */
  lemma {:induction false} ScanFacts(g: Grid, r: int, stop: int, step: int, colour: Colour, col: int, dc: int,
                                     skipped: seq<Jumped>, last: seq<Jumped>)
    requires ScanArgs(g, r, stop, step, col, dc)
    requires ScanState(g, r, stop, step, colour, skipped, last)
    ensures ScanOk(g, r, stop, step, colour, col, skipped, last, Scan(g, r, stop, step, colour, col, dc, skipped, last))
    decreases if step == 1 then ROWS - r else r + 1, 1
  {
    var res := Scan(g, r, stop, step, colour, col, dc, skipped, last);
    if !InRange(r, stop, step) || OffBoard(col, dc) {
      assert res == [];
    } else if g[r][col].Empty? {
      if skipped != [] && last == [] {
        assert res == [];
      } else {
        if last == [] {
          LandingCase(g, r, stop, step, colour, col, dc, skipped, last);
        } else {
          ChainCase(g, r, stop, step, colour, col, dc, skipped, last);
        }
      }
    } else if g[r][col].colour == colour {
      assert res == [];
    } else {
      JumpCase(g, r, stop, step, colour, col, dc, skipped, last);
    }
  }

  /** `ScanFacts` when the scan lands on the square it is looking at having jumped nothing on this line. */
  lemma LandingCase(g: Grid, r: int, stop: int, step: int, colour: Colour, col: int, dc: int,
                    skipped: seq<Jumped>, last: seq<Jumped>)
    requires ScanArgs(g, r, stop, step, col, dc)
    requires ScanState(g, r, stop, step, colour, skipped, last)
    requires InRange(r, stop, step) && !OffBoard(col, dc) && g[r][col].Empty? && skipped == [] && last == []
    ensures ScanOk(g, r, stop, step, colour, col, skipped, last, Scan(g, r, stop, step, colour, col, dc, skipped, last))
  {
    var landing := (Square(r, col), LandingCaps(skipped, last));
    assert Put([], Square(r, col), []) == [landing];
    LandingEntry(g, r, stop, step, colour, col, dc, skipped, last);
    assert Scan(g, r, stop, step, colour, col, dc, skipped, last) == [landing];
  }

  /** `ScanFacts` when the scan lands after a jump and chains two further scans. */
  lemma {:induction false} ChainCase(g: Grid, r: int, stop: int, step: int, colour: Colour, col: int, dc: int,
                                     skipped: seq<Jumped>, last: seq<Jumped>)
    requires ScanArgs(g, r, stop, step, col, dc)
    requires ScanState(g, r, stop, step, colour, skipped, last)
    requires InRange(r, stop, step) && !OffBoard(col, dc) && g[r][col].Empty? && last != []
    ensures ScanOk(g, r, stop, step, colour, col, skipped, last, Scan(g, r, stop, step, colour, col, dc, skipped, last))
    decreases if step == 1 then ROWS - r else r + 1, 0
  {
    var landing := (Square(r, col), LandingCaps(skipped, last));
    LandingEntry(g, r, stop, step, colour, col, dc, skipped, last);
    var row := if step == -1 then Max(r - 3, 0) else Min(r + 3, ROWS);
    ChainState(g, r, stop, step, colour, skipped, last);
    ScanFacts(g, r + step, row, step, colour, col - 1, -1, last, []);
    ScanFacts(g, r + step, row, step, colour, col + 1, 1, last, []);
    var left := Scan(g, r + step, row, step, colour, col - 1, -1, last, []);
    var right := Scan(g, r + step, row, step, colour, col + 1, 1, last, []);
    ChainedEntries(g, r, stop, step, colour, col, skipped, last, landing, left, right);
    ChainUnfold(g, r, stop, step, colour, col, dc, skipped, last);
  }

  /** One step of `Scan` in the chaining case. */
  lemma ChainUnfold(g: Grid, r: int, stop: int, step: int, colour: Colour, col: int, dc: int,
                    skipped: seq<Jumped>, last: seq<Jumped>)
    requires ScanArgs(g, r, stop, step, col, dc)
    requires InRange(r, stop, step) && !OffBoard(col, dc) && g[r][col].Empty? && last != []
    ensures var row := if step == -1 then Max(r - 3, 0) else Min(r + 3, ROWS);
      Scan(g, r, stop, step, colour, col, dc, skipped, last)
      == Update(Update([(Square(r, col), LandingCaps(skipped, last))],
                       Scan(g, r + step, row, step, colour, col - 1, -1, last, [])),
                Scan(g, r + step, row, step, colour, col + 1, 1, last, []))
  {
    assert Put([], Square(r, col), LandingCaps(skipped, last)) == [(Square(r, col), LandingCaps(skipped, last))];
  }

  /** One step of a scan that passes an opposing piece: it goes on diagonally with that piece as `last`. */
  lemma JumpUnfold(g: Grid, r: int, stop: int, step: int, colour: Colour, col: int, dc: int,
                   skipped: seq<Jumped>, last: seq<Jumped>)
    requires ScanArgs(g, r, stop, step, col, dc)
    requires InRange(r, stop, step) && !OffBoard(col, dc) && g[r][col].Occupied? && g[r][col].colour != colour
    ensures Scan(g, r, stop, step, colour, col, dc, skipped, last)
      == Scan(g, r + step, stop, step, colour, col + dc, dc, skipped, [Jumped(r, col, g[r][col].colour)])
  {
  }

  /** `ScanFacts` when the scan passes an opposing piece. */
  lemma {:induction false} JumpCase(g: Grid, r: int, stop: int, step: int, colour: Colour, col: int, dc: int,
                                    skipped: seq<Jumped>, last: seq<Jumped>)
    requires ScanArgs(g, r, stop, step, col, dc)
    requires ScanState(g, r, stop, step, colour, skipped, last)
    requires InRange(r, stop, step) && !OffBoard(col, dc) && g[r][col].Occupied? && g[r][col].colour != colour
    ensures ScanOk(g, r, stop, step, colour, col, skipped, last, Scan(g, r, stop, step, colour, col, dc, skipped, last))
    decreases if step == 1 then ROWS - r else r + 1, 0
  {
    var res := Scan(g, r, stop, step, colour, col, dc, skipped, last);
    var j := Jumped(r, col, g[r][col].colour);
    JumpState(g, r, stop, step, colour, col, skipped, last);
    ScanFacts(g, r + step, stop, step, colour, col + dc, dc, skipped, [j]);
    assert res == Scan(g, r + step, stop, step, colour, col + dc, dc, skipped, [j]);
    JumpEntries(g, r, stop, step, colour, col, col + dc, skipped, last, j, res);
  }

  /**
   * The first destination a scan records lies inside the scan's own `range`:
   * scans cover two rows (start, start + step), so a scan and each chained
   * scan after a landing look at most two rows further.
   */
  lemma {:induction false} ScanFirstLanding(g: Grid, r: int, stop: int, step: int, colour: Colour, col: int, dc: int,
                                            skipped: seq<Jumped>, last: seq<Jumped>)
    requires ScanArgs(g, r, stop, step, col, dc)
    ensures var res := Scan(g, r, stop, step, colour, col, dc, skipped, last);
      res != [] ==> InRange(res[0].0.row, stop, step) && Beyond(res[0].0.row, r, step, 0)
    decreases if step == 1 then ROWS - r else r + 1
  {
    if InRange(r, stop, step) && !OffBoard(col, dc) {
      var current := g[r][col];
      if current.Empty? {
        if !(skipped != [] && last == []) && last != [] {
          var caps := if skipped != [] then last + skipped else last;
          var moves := Put([], Square(r, col), caps);
          var row := if step == -1 then Max(r - 3, 0) else Min(r + 3, ROWS);
          var left := Scan(g, r + step, row, step, colour, col - 1, -1, last, []);
          UpdateKeepsFirst(moves, left);
          UpdateKeepsFirst(Update(moves, left), Scan(g, r + step, row, step, colour, col + 1, 1, last, []));
        }
      } else if current.colour != colour {
        ScanFirstLanding(g, r + step, stop, step, colour, col + dc, dc, skipped, [Jumped(r, col, current.colour)]);
      }
    }
  }

  /** An upward scan whose range stops at row 0 or above (every upward chain) never reads row 0. */
  lemma {:induction false} UpwardScanIgnoresRowZero(g: Grid, g': Grid, r: int, stop: int, colour: Colour, col: int, dc: int,
                                                    skipped: seq<Jumped>, last: seq<Jumped>)
    requires ScanArgs(g, r, stop, -1, col, dc) && WellFormedGrid(g') && stop >= 0
    requires forall row, c :: 1 <= row < ROWS && 0 <= c < COLS ==> g'[row][c] == g[row][c]
    ensures Scan(g, r, stop, -1, colour, col, dc, skipped, last) == Scan(g', r, stop, -1, colour, col, dc, skipped, last)
    decreases r + 1, 1
  {
    if InRange(r, stop, -1) && !OffBoard(col, dc) {
      assert g'[r][col] == g[r][col];
      if g[r][col].Empty? && last != [] {
        UpwardChainIgnoresRowZero(g, g', r, stop, colour, col, dc, skipped, last);
      } else if g[r][col].Occupied? && g[r][col].colour != colour {
        UpwardJumpIgnoresRowZero(g, g', r, stop, colour, col, dc, skipped, last);
      }
    }
  }

  /** `UpwardScanIgnoresRowZero` for a landing after a jump, which starts the chained scans. */
  lemma {:induction false} UpwardChainIgnoresRowZero(g: Grid, g': Grid, r: int, stop: int, colour: Colour, col: int, dc: int,
                                                     skipped: seq<Jumped>, last: seq<Jumped>)
    requires ScanArgs(g, r, stop, -1, col, dc) && WellFormedGrid(g') && stop >= 0
    requires forall row, c :: 1 <= row < ROWS && 0 <= c < COLS ==> g'[row][c] == g[row][c]
    requires InRange(r, stop, -1) && !OffBoard(col, dc) && g[r][col].Empty? && g'[r][col].Empty? && last != []
    ensures Scan(g, r, stop, -1, colour, col, dc, skipped, last) == Scan(g', r, stop, -1, colour, col, dc, skipped, last)
    decreases r + 1, 0
  {
    var row := Max(r - 3, 0);
    UpwardScanIgnoresRowZero(g, g', r - 1, row, colour, col - 1, -1, last, []);
    UpwardScanIgnoresRowZero(g, g', r - 1, row, colour, col + 1, 1, last, []);
  }

  /** `UpwardScanIgnoresRowZero` when the scan passes an opposing piece. */
  lemma {:induction false} UpwardJumpIgnoresRowZero(g: Grid, g': Grid, r: int, stop: int, colour: Colour, col: int, dc: int,
                                                    skipped: seq<Jumped>, last: seq<Jumped>)
    requires ScanArgs(g, r, stop, -1, col, dc) && WellFormedGrid(g') && stop >= 0
    requires forall row, c :: 1 <= row < ROWS && 0 <= c < COLS ==> g'[row][c] == g[row][c]
    requires InRange(r, stop, -1) && !OffBoard(col, dc) && g[r][col].Occupied? && g[r][col].colour != colour
    requires g'[r][col] == g[r][col]
    ensures Scan(g, r, stop, -1, colour, col, dc, skipped, last) == Scan(g', r, stop, -1, colour, col, dc, skipped, last)
    decreases r + 1, 0
  {
    var j := Jumped(r, col, g[r][col].colour);
    UpwardScanIgnoresRowZero(g, g', r - 1, stop, colour, col + dc, dc, skipped, [j]);
    JumpUnfold(g, r, stop, -1, colour, col, dc, skipped, last);
    JumpUnfold(g', r, stop, -1, colour, col, dc, skipped, last);
  }

  /**
   * A downward chain does reach row 7: the chain started after a landing on
   * row 5 jumps an opposing piece on row 6 and records the landing on row 7.
   */
  lemma DownwardChainReachesLastRow(g: Grid, colour: Colour, col: int, dc: int, s: Jumped)
    requires WellFormedGrid(g) && (dc == 1 || dc == -1) && 0 <= col < COLS && 0 <= col + dc < COLS
    requires g[6][col].Occupied? && g[6][col].colour != colour && g[7][col + dc] == Empty
    ensures var res := Scan(g, 6, Min(5 + 3, ROWS), 1, colour, col, dc, [s], []);
      res == [(Square(7, col + dc), [Jumped(6, col, g[6][col].colour), s])]
  {
    var j := Jumped(6, col, g[6][col].colour);
    var landing := [(Square(7, col + dc), [j, s])];
    assert [j] + [s] == [j, s];
    assert Put([], Square(7, col + dc), [j] + [s]) == landing;
    assert Scan(g, 8, 8, 1, colour, col + dc - 1, -1, [j], []) == [];
    assert Scan(g, 8, 8, 1, colour, col + dc + 1, 1, [j], []) == [];
    assert Update(landing, []) == landing;
    assert Scan(g, 7, 8, 1, colour, col + dc, dc, [s], [j]) == landing;
  }

  // ---------------------------------------------------------------------------
  // getValidMoves

  /** What holds of an entry found by the two scanners of row direction `step`. */
  predicate DirEntry(g: Grid, row: int, col: int, colour: Colour, step: int, e: (Square, seq<Jumped>))
    requires WellFormedGrid(g)
  {
    var (d, caps) := e;
    && d.OnBoard() && g[d.row][d.col] == Empty
    && Beyond(d.row, row, step, 1)
    && (caps == [] <==> d.row == row + step)
    && (caps == [] ==> d.col == col - 1 || d.col == col + 1)
    && |caps| <= 2
    && (forall i :: 0 <= i < |caps| ==> Opposing(g, colour, caps[i]))
    && (|caps| == 2 ==> caps[0].At() != caps[1].At())
    && (step == -1 && |caps| == 2 ==> d.row >= 1)
  }

  /** `DirEntry` for every entry of `m`. */
  predicate DirEntries(g: Grid, row: int, col: int, colour: Colour, step: int, m: MoveMap)
    requires WellFormedGrid(g)
  {
    forall e :: e in m ==> DirEntry(g, row, col, colour, step, e)
  }

  /** An entry of a first-level scan from the piece on (row, col) satisfies `DirEntry`. */
  lemma FirstScanEntry(g: Grid, row: int, col: int, colour: Colour, step: int, stop: int, col': int,
                       e: (Square, seq<Jumped>))
    requires WellFormedGrid(g) && (step == 1 || step == -1) && (col' == col - 1 || col' == col + 1)
    requires ScanEntry(g, row + step, stop, step, colour, col', [], [], e)
    ensures DirEntry(g, row, col, colour, step, e)
  {
  }

  /** The entries of both first-level scans of one row direction satisfy `DirEntry`. */
  lemma FirstScans(g: Grid, row: int, col: int, colour: Colour, step: int)
    requires WellFormedGrid(g) && Square(row, col).OnBoard() && (step == 1 || step == -1)
    ensures var stop := if step == -1 then Max(row - 3, -1) else Min(row + 3, ROWS);
      var left := Scan(g, row + step, stop, step, colour, col - 1, -1, [], []);
      var right := Scan(g, row + step, stop, step, colour, col + 1, 1, [], []);
      && DistinctKeys(left) && DirEntries(g, row, col, colour, step, left)
      && DistinctKeys(right) && DirEntries(g, row, col, colour, step, right)
  {
    var stop := if step == -1 then Max(row - 3, -1) else Min(row + 3, ROWS);
    var left := Scan(g, row + step, stop, step, colour, col - 1, -1, [], []);
    var right := Scan(g, row + step, stop, step, colour, col + 1, 1, [], []);
    ScanFacts(g, row + step, stop, step, colour, col - 1, -1, [], []);
    ScanFacts(g, row + step, stop, step, colour, col + 1, 1, [], []);
    forall e | e in left ensures DirEntry(g, row, col, colour, step, e) {
      FirstScanEntry(g, row, col, colour, step, stop, col - 1, e);
    }
    forall e | e in right ensures DirEntry(g, row, col, colour, step, e) {
      FirstScanEntry(g, row, col, colour, step, stop, col + 1, e);
    }
  }

  /** Merging two scan results into `moves` as `update` does. */
  lemma MergeFacts(moves: MoveMap, g: Grid, row: int, col: int, colour: Colour, step: int, left: MoveMap, right: MoveMap)
    requires WellFormedGrid(g)
    requires DistinctKeys(left) && DirEntries(g, row, col, colour, step, left)
    requires DistinctKeys(right) && DirEntries(g, row, col, colour, step, right)
    ensures var res := Update(Update(moves, left), right);
      && (DistinctKeys(moves) ==> DistinctKeys(res))
      && (forall e :: e in res ==> e in moves || DirEntry(g, row, col, colour, step, e))
      && (forall s :: HasKey(res, s) <==> HasKey(moves, s) || HasKey(Update(Update([], left), right), s))
  {
    UpdateMembers(moves, left);
    UpdateMembers(Update(moves, left), right);
    if DistinctKeys(moves) {
      UpdateKeepsDistinct(moves, left);
      UpdateKeepsDistinct(Update(moves, left), right);
    }
    UpdateKeys(moves, left);
    UpdateKeys(Update(moves, left), right);
    UpdateKeys([], left);
    UpdateKeys(Update([], left), right);
  }

  lemma AddDiagonalsFacts(moves: MoveMap, g: Grid, row: int, col: int, colour: Colour, step: int)
    requires WellFormedGrid(g) && Square(row, col).OnBoard() && (step == 1 || step == -1)
    ensures var res := AddDiagonals(moves, g, row, col, colour, step);
      && (DistinctKeys(moves) ==> DistinctKeys(res))
      && (forall e :: e in res ==> e in moves || DirEntry(g, row, col, colour, step, e))
      && (forall s :: HasKey(res, s) <==> HasKey(moves, s) || HasKey(AddDiagonals([], g, row, col, colour, step), s))
  {
    var stop := if step == -1 then Max(row - 3, -1) else Min(row + 3, ROWS);
    var left := Scan(g, row + step, stop, step, colour, col - 1, -1, [], []);
    var right := Scan(g, row + step, stop, step, colour, col + 1, 1, [], []);
    FirstScans(g, row, col, colour, step);
    MergeFacts(moves, g, row, col, colour, step, left, right);
  }

  /** What holds of every entry of getValidMoves for a piece on (row, col). */
  predicate MoveEntry(g: Grid, row: int, col: int, colour: Colour, king: bool, e: (Square, seq<Jumped>))
    requires WellFormedGrid(g)
  {
    var (d, caps) := e;
    && d.OnBoard() && g[d.row][d.col] == Empty
    && d.row != row
    && (!king && colour == Black ==> d.row < row)
    && (!king && colour == White ==> d.row > row)
    && (caps == [] <==> d.row == row - 1 || d.row == row + 1)
    && (caps == [] ==> d.col == col - 1 || d.col == col + 1)
    && |caps| <= 2
    && (forall i :: 0 <= i < |caps| ==> Opposing(g, colour, caps[i]))
    && (|caps| == 2 ==> caps[0].At() != caps[1].At())
    && (d.row < row && |caps| == 2 ==> d.row >= 1)
  }

  /**
   * getValidMoves: each destination is an empty square of the board; men
   * move only forwards (black to smaller rows, white to larger); exactly the
   * destinations one row away carry no captures, and those are a diagonal
   * step away; captures are one or two distinct opposing pieces on the grid;
   * no chained landing is on row 0; the destinations are distinct; and a
   * king's destinations are those of both row directions.
   */
  lemma ValidMovesFacts(g: Grid, row: int, col: int, colour: Colour, king: bool)
    requires WellFormedGrid(g) && Square(row, col).OnBoard()
    ensures var moves := ValidMoves(g, row, col, colour, king);
      && DistinctKeys(moves)
      && (forall e :: e in moves ==> MoveEntry(g, row, col, colour, king, e))
      && (king ==> forall s :: HasKey(moves, s) <==>
            HasKey(AddDiagonals([], g, row, col, colour, -1), s) || HasKey(AddDiagonals([], g, row, col, colour, 1), s))
  {
    var up := if colour == Black || king then AddDiagonals([], g, row, col, colour, -1) else [];
    AddDiagonalsFacts([], g, row, col, colour, -1);
    AddDiagonalsFacts(up, g, row, col, colour, 1);
    var moves := ValidMoves(g, row, col, colour, king);
    forall e | e in moves ensures MoveEntry(g, row, col, colour, king, e) {
      if e in up {
        assert DirEntry(g, row, col, colour, -1, e);
      } else {
        assert DirEntry(g, row, col, colour, 1, e);
      }
    }
  }

  // ---------------------------------------------------------------------------
  // What getValidMoves finds

  /** The piece may move in row direction `step`: black men upwards, white men downwards, kings both ways. */
  predicate Heads(colour: Colour, king: bool, step: int) {
    (step == -1 && (colour == Black || king)) || (step == 1 && (colour == White || king))
  }

  /** The first-level scan of row direction `step` heading `dc` that getValidMoves starts for a piece on (row, col). */
  function FirstScan(g: Grid, row: int, col: int, colour: Colour, step: int, dc: int): MoveMap
    requires WellFormedGrid(g) && Square(row, col).OnBoard() && (step == 1 || step == -1) && (dc == 1 || dc == -1)
  {
    var stop := if step == -1 then Max(row - 3, -1) else Min(row + 3, ROWS);
    Scan(g, row + step, stop, step, colour, col + dc, dc, [], [])
  }

  /** Every key of a scan lies on or past the row the scan starts from. */
  lemma KeysBeyond(g: Grid, r: int, stop: int, step: int, colour: Colour, col: int,
                   skipped: seq<Jumped>, last: seq<Jumped>, res: MoveMap)
    requires WellFormedGrid(g) && ScanEntries(g, r, stop, step, colour, col, skipped, last, res)
    ensures forall k :: HasKey(res, k) ==> Beyond(k.row, r, step, 0)
  {
    forall k | HasKey(res, k) ensures Beyond(k.row, r, step, 0) {
      var v := Get(res, k);
      assert ScanEntry(g, r, stop, step, colour, col, skipped, last, (k, v));
    }
  }

  /** The keys of a scan are distinct and lie on or past its starting row. */
  lemma ScanKeys(g: Grid, r: int, stop: int, step: int, colour: Colour, col: int, dc: int,
                 skipped: seq<Jumped>, last: seq<Jumped>)
    requires ScanArgs(g, r, stop, step, col, dc) && ScanState(g, r, stop, step, colour, skipped, last)
    ensures var sc := Scan(g, r, stop, step, colour, col, dc, skipped, last);
      DistinctKeys(sc) && forall k :: HasKey(sc, k) ==> Beyond(k.row, r, step, 0)
  {
    ScanFacts(g, r, stop, step, colour, col, dc, skipped, last);
    KeysBeyond(g, r, stop, step, colour, col, skipped, last, Scan(g, r, stop, step, colour, col, dc, skipped, last));
  }

  /** A map whose keys all avoid `k` leaves the value under `k` alone when merged in. */
  lemma UpdateMissKeeps(d: MoveMap, e: MoveMap, k: Square)
    requires DistinctKeys(e) && HasKey(d, k) && !HasKey(e, k)
    ensures HasKey(Update(d, e), k) && Get(Update(d, e), k) == Get(d, k)
  {
    UpdateGet(d, e, k);
  }

  /**
   * Merging two maps whose keys lie at least one row past `r` into a map
   * holding only (r, col) keeps that key and its value.
   */
  lemma LandingMerge(r: int, step: int, col: int, v: seq<Jumped>, left: MoveMap, right: MoveMap)
    requires step == 1 || step == -1
    requires DistinctKeys(left) && DistinctKeys(right)
    requires forall k :: HasKey(left, k) ==> Beyond(k.row, r + step, step, 0)
    requires forall k :: HasKey(right, k) ==> Beyond(k.row, r + step, step, 0)
    ensures var m := Update(Update([(Square(r, col), v)], left), right);
      && HasKey(m, Square(r, col)) && Get(m, Square(r, col)) == v
      && forall k :: HasKey(m, k) ==> k == Square(r, col) || Beyond(k.row, r, step, 1)
  {
    var s := Square(r, col);
    var landing := [(s, v)];
    assert HasKey(landing, s) && Get(landing, s) == v;
    assert !HasKey(left, s) && !HasKey(right, s);
    UpdateMissKeeps(landing, left, s);
    UpdateMissKeeps(Update(landing, left), right, s);
    var m := Update(Update(landing, left), right);
    forall k | HasKey(m, k) ensures k == s || Beyond(k.row, r, step, 1) {
      UpdateKeys(landing, left);
      UpdateKeys(Update(landing, left), right);
    }
  }

  /** The two scans chained from a landing after a jump have distinct keys past the landing row. */
  lemma ChainedKeys(g: Grid, r: int, stop: int, step: int, colour: Colour, col: int, dc: int, j: Jumped)
    requires ScanArgs(g, r, stop, step, col, dc) && InRange(r, stop, step) && !OffBoard(col, dc)
    requires ScanState(g, r, stop, step, colour, [], [j])
    ensures var row := if step == -1 then Max(r - 3, 0) else Min(r + 3, ROWS);
      var left := Scan(g, r + step, row, step, colour, col - 1, -1, [j], []);
      var right := Scan(g, r + step, row, step, colour, col + 1, 1, [j], []);
      && DistinctKeys(left) && (forall k :: HasKey(left, k) ==> Beyond(k.row, r + step, step, 0))
      && DistinctKeys(right) && (forall k :: HasKey(right, k) ==> Beyond(k.row, r + step, step, 0))
  {
    var row := if step == -1 then Max(r - 3, 0) else Min(r + 3, ROWS);
    ChainState(g, r, stop, step, colour, [], [j]);
    ScanKeys(g, r + step, row, step, colour, col - 1, -1, [j], []);
    ScanKeys(g, r + step, row, step, colour, col + 1, 1, [j], []);
  }

  /**
   * A scan that has just jumped a piece and lands on the empty square
   * (r, col) records that square with the jumped piece as its capture; the
   * chained scans add only squares further on, so they do not overwrite it.
   */
  lemma ChainLanding(g: Grid, r: int, stop: int, step: int, colour: Colour, col: int, dc: int, j: Jumped)
    requires ScanArgs(g, r, stop, step, col, dc) && InRange(r, stop, step) && !OffBoard(col, dc) && g[r][col].Empty?
    requires ScanState(g, r, stop, step, colour, [], [j])
    ensures var sc := Scan(g, r, stop, step, colour, col, dc, [], [j]);
      && HasKey(sc, Square(r, col)) && Get(sc, Square(r, col)) == [j]
      && forall k :: HasKey(sc, k) ==> k == Square(r, col) || Beyond(k.row, r, step, 1)
  {
    var row := if step == -1 then Max(r - 3, 0) else Min(r + 3, ROWS);
    var left := Scan(g, r + step, row, step, colour, col - 1, -1, [j], []);
    var right := Scan(g, r + step, row, step, colour, col + 1, 1, [j], []);
    ChainUnfold(g, r, stop, step, colour, col, dc, [], [j]);
    ChainedKeys(g, r, stop, step, colour, col, dc, j);
    LandingMerge(r, step, col, LandingCaps([], [j]), left, right);
    assert LandingCaps([], [j]) == [j];
  }

  /**
   * A scan that has just jumped a piece and whose range ends after the
   * square it is looking at records at most that square and squares of the
   * chained scans, which lie further on.
   */
  lemma JumpedScanKeys(g: Grid, r: int, stop: int, step: int, colour: Colour, col: int, dc: int, j: Jumped)
    requires ScanArgs(g, r, stop, step, col, dc) && !InRange(r + step, stop, step)
    requires ScanState(g, r, stop, step, colour, [], [j])
    ensures var sc := Scan(g, r, stop, step, colour, col, dc, [], [j]);
      && DistinctKeys(sc)
      && forall k :: HasKey(sc, k) ==> k == Square(r, col) || Beyond(k.row, r, step, 1)
  {
    ScanKeys(g, r, stop, step, colour, col, dc, [], [j]);
    if InRange(r, stop, step) && !OffBoard(col, dc) && g[r][col].Empty? {
      ChainLanding(g, r, stop, step, colour, col, dc, j);
    } else if InRange(r, stop, step) && !OffBoard(col, dc) && g[r][col].colour != colour {
      JumpUnfold(g, r, stop, step, colour, col, dc, [], [j]);
    }
  }

  /**
   * A first-level scan whose diagonal neighbour is an opposing piece goes on
   * to the square behind it, having jumped that piece and with the range
   * ending after that square.
   */
  lemma FirstJumpUnfold(g: Grid, row: int, col: int, colour: Colour, step: int, dc: int)
    requires WellFormedGrid(g) && Square(row, col).OnBoard() && (step == 1 || step == -1) && (dc == 1 || dc == -1)
    requires Square(row + step, col + dc).OnBoard() && g[row + step][col + dc].Occupied?
    requires g[row + step][col + dc].colour != colour
    ensures var stop := if step == -1 then Max(row - 3, -1) else Min(row + 3, ROWS);
      var j := Jumped(row + step, col + dc, g[row + step][col + dc].colour);
      && ScanArgs(g, row + 2 * step, stop, step, col + 2 * dc, dc)
      && !InRange(row + 3 * step, stop, step)
      && ScanState(g, row + 2 * step, stop, step, colour, [], [j])
      && FirstScan(g, row, col, colour, step, dc) == Scan(g, row + 2 * step, stop, step, colour, col + 2 * dc, dc, [], [j])
  {
    var stop := if step == -1 then Max(row - 3, -1) else Min(row + 3, ROWS);
    JumpUnfold(g, row + step, stop, step, colour, col + dc, dc, [], []);
    JumpState(g, row + step, stop, step, colour, col + dc, [], []);
  }

  /** `FirstScanKeys` when the diagonal neighbour is an opposing piece. */
  lemma FirstJumpKeys(g: Grid, row: int, col: int, colour: Colour, step: int, dc: int)
    requires WellFormedGrid(g) && Square(row, col).OnBoard() && (step == 1 || step == -1) && (dc == 1 || dc == -1)
    requires Square(row + step, col + dc).OnBoard() && g[row + step][col + dc].Occupied?
    requires g[row + step][col + dc].colour != colour
    ensures var sc := FirstScan(g, row, col, colour, step, dc);
      && DistinctKeys(sc)
      && forall k :: HasKey(sc, k) ==> k == Square(row + 2 * step, col + 2 * dc) || Beyond(k.row, row, step, 3)
  {
    var stop := if step == -1 then Max(row - 3, -1) else Min(row + 3, ROWS);
    var j := Jumped(row + step, col + dc, g[row + step][col + dc].colour);
    FirstJumpUnfold(g, row, col, colour, step, dc);
    var sc := Scan(g, row + 2 * step, stop, step, colour, col + 2 * dc, dc, [], [j]);
    JumpedScanKeys(g, row + 2 * step, stop, step, colour, col + 2 * dc, dc, j);
    forall k | HasKey(sc, k) ensures k == Square(row + 2 * step, col + 2 * dc) || Beyond(k.row, row, step, 3) {
      assert k == Square(row + 2 * step, col + 2 * dc) || Beyond(k.row, row + 2 * step, step, 1);
    }
  }

  /**
   * A first-level scan records the diagonal neighbour, the square behind it
   * on the same diagonal (a single jump), or squares at least three rows out
   * (chained jumps). Its keys are distinct.
   */
  lemma FirstScanKeys(g: Grid, row: int, col: int, colour: Colour, step: int, dc: int)
    requires WellFormedGrid(g) && Square(row, col).OnBoard() && (step == 1 || step == -1) && (dc == 1 || dc == -1)
    ensures var sc := FirstScan(g, row, col, colour, step, dc);
      && DistinctKeys(sc)
      && forall k :: HasKey(sc, k) ==>
           k == Square(row + step, col + dc) || k == Square(row + 2 * step, col + 2 * dc) || Beyond(k.row, row, step, 3)
  {
    if Square(row + step, col + dc).OnBoard() {
      match g[row + step][col + dc]
      case Empty => PlainScan(g, row, col, colour, step, dc);
      case Occupied(c, _) =>
        if c != colour { FirstJumpKeys(g, row, col, colour, step, dc); }
    }
  }

  /** A first-level scan whose diagonal neighbour is empty records exactly that step, with no capture. */
  lemma PlainScan(g: Grid, row: int, col: int, colour: Colour, step: int, dc: int)
    requires WellFormedGrid(g) && Square(row, col).OnBoard() && (step == 1 || step == -1) && (dc == 1 || dc == -1)
    requires Square(row + step, col + dc).OnBoard() && g[row + step][col + dc] == Empty
    ensures FirstScan(g, row, col, colour, step, dc) == [(Square(row + step, col + dc), [])]
  {
    var none: seq<Jumped> := [];
    assert Put([], Square(row + step, col + dc), none) == [(Square(row + step, col + dc), none)];
  }

  /**
   * A first-level scan whose diagonal neighbour is an opposing piece with an
   * empty square behind it records that square with the neighbour as its
   * capture; the chained scans do not overwrite it.
   */
  lemma JumpScan(g: Grid, row: int, col: int, colour: Colour, step: int, dc: int)
    requires WellFormedGrid(g) && Square(row, col).OnBoard() && (step == 1 || step == -1) && (dc == 1 || dc == -1)
    requires Square(row + 2 * step, col + 2 * dc).OnBoard() && g[row + 2 * step][col + 2 * dc] == Empty
    requires g[row + step][col + dc].Occupied? && g[row + step][col + dc].colour != colour
    ensures var sc := FirstScan(g, row, col, colour, step, dc);
      var s := Square(row + 2 * step, col + 2 * dc);
      HasKey(sc, s) && Get(sc, s) == [Jumped(row + step, col + dc, g[row + step][col + dc].colour)]
  {
    var stop := if step == -1 then Max(row - 3, -1) else Min(row + 3, ROWS);
    var j := Jumped(row + step, col + dc, g[row + step][col + dc].colour);
    FirstJumpUnfold(g, row, col, colour, step, dc);
    ChainLanding(g, row + 2 * step, stop, step, colour, col + 2 * dc, dc, j);
  }

  /** A key one first-level scan records and the other does not keeps that scan's value in the row direction. */
  lemma DiagonalsGet(g: Grid, row: int, col: int, colour: Colour, step: int, dc: int, s: Square)
    requires WellFormedGrid(g) && Square(row, col).OnBoard() && (step == 1 || step == -1) && (dc == 1 || dc == -1)
    requires HasKey(FirstScan(g, row, col, colour, step, dc), s) && !HasKey(FirstScan(g, row, col, colour, step, -dc), s)
    ensures var d := AddDiagonals([], g, row, col, colour, step);
      HasKey(d, s) && Get(d, s) == Get(FirstScan(g, row, col, colour, step, dc), s)
  {
    var left := FirstScan(g, row, col, colour, step, -1);
    var right := FirstScan(g, row, col, colour, step, 1);
    FirstScanKeys(g, row, col, colour, step, -1);
    FirstScanKeys(g, row, col, colour, step, 1);
    assert AddDiagonals([], g, row, col, colour, step) == Update(Update([], left), right);
    if dc == -1 {
      UpdateGet([], left, s);
    }
    UpdateGet(Update([], left), right, s);
  }

  /** The keys of entries found in row direction `step` lie at least one row that way. */
  lemma DirKeysBeyond(g: Grid, row: int, col: int, colour: Colour, step: int, m: MoveMap)
    requires WellFormedGrid(g) && DirEntries(g, row, col, colour, step, m)
    ensures forall k :: HasKey(m, k) ==> Beyond(k.row, row, step, 1)
  {
    forall k | HasKey(m, k) ensures Beyond(k.row, row, step, 1) {
      assert DirEntry(g, row, col, colour, step, (k, Get(m, k)));
    }
  }

  /** Merging one row direction into `moves` keeps any key of `moves` that lies on the other side of the piece. */
  lemma AddDiagonalsMiss(moves: MoveMap, g: Grid, row: int, col: int, colour: Colour, step: int, s: Square)
    requires WellFormedGrid(g) && Square(row, col).OnBoard() && (step == 1 || step == -1)
    requires HasKey(moves, s) && !Beyond(s.row, row, step, 1)
    ensures var d := AddDiagonals(moves, g, row, col, colour, step);
      HasKey(d, s) && Get(d, s) == Get(moves, s)
  {
    var left := FirstScan(g, row, col, colour, step, -1);
    var right := FirstScan(g, row, col, colour, step, 1);
    FirstScans(g, row, col, colour, step);
    DirKeysBeyond(g, row, col, colour, step, left);
    DirKeysBeyond(g, row, col, colour, step, right);
    UpdateGet(moves, left, s);
    UpdateGet(Update(moves, left), right, s);
  }

  /** Merging one row direction into `moves` gives its own keys the values the direction alone gives them. */
  lemma AddDiagonalsOver(moves: MoveMap, g: Grid, row: int, col: int, colour: Colour, step: int, s: Square)
    requires WellFormedGrid(g) && Square(row, col).OnBoard() && (step == 1 || step == -1)
    requires HasKey(AddDiagonals([], g, row, col, colour, step), s)
    ensures var d := AddDiagonals(moves, g, row, col, colour, step);
      HasKey(d, s) && Get(d, s) == Get(AddDiagonals([], g, row, col, colour, step), s)
  {
    var left := FirstScan(g, row, col, colour, step, -1);
    var right := FirstScan(g, row, col, colour, step, 1);
    FirstScanKeys(g, row, col, colour, step, -1);
    FirstScanKeys(g, row, col, colour, step, 1);
    UpdateKeys([], left);
    UpdateKeys(Update([], left), right);
    if !HasKey(right, s) {
      UpdateGet(moves, left, s);
      UpdateGet([], left, s);
    }
    UpdateGet(Update(moves, left), right, s);
    UpdateGet(Update([], left), right, s);
  }

  /** A destination of a row direction the piece may move in is a destination of getValidMoves, with the same captures. */
  lemma DirectionFound(g: Grid, row: int, col: int, colour: Colour, king: bool, step: int, s: Square)
    requires WellFormedGrid(g) && Square(row, col).OnBoard() && (step == 1 || step == -1) && Heads(colour, king, step)
    requires HasKey(AddDiagonals([], g, row, col, colour, step), s)
    ensures var moves := ValidMoves(g, row, col, colour, king);
      HasKey(moves, s) && Get(moves, s) == Get(AddDiagonals([], g, row, col, colour, step), s)
  {
    var up := if colour == Black || king then AddDiagonals([], g, row, col, colour, -1) else [];
    if step == -1 {
      if colour == White || king {
        AddDiagonalsFacts([], g, row, col, colour, -1);
        assert DirEntry(g, row, col, colour, -1, (s, Get(up, s)));
        AddDiagonalsMiss(up, g, row, col, colour, 1, s);
      }
    } else {
      AddDiagonalsOver(up, g, row, col, colour, 1, s);
    }
  }

  /**
   * getValidMoves offers every diagonal step onto an empty square in a row
   * direction the piece may move in, with nothing to capture.
   */
  lemma PlainStepFound(g: Grid, row: int, col: int, colour: Colour, king: bool, step: int, dc: int)
    requires WellFormedGrid(g) && Square(row, col).OnBoard() && (step == 1 || step == -1) && (dc == 1 || dc == -1)
    requires Heads(colour, king, step)
    requires Square(row + step, col + dc).OnBoard() && g[row + step][col + dc] == Empty
    ensures var moves := ValidMoves(g, row, col, colour, king);
      HasKey(moves, Square(row + step, col + dc)) && Get(moves, Square(row + step, col + dc)) == []
  {
    var s := Square(row + step, col + dc);
    PlainScan(g, row, col, colour, step, dc);
    FirstScanKeys(g, row, col, colour, step, -dc);
    DiagonalsGet(g, row, col, colour, step, dc, s);
    DirectionFound(g, row, col, colour, king, step, s);
  }

  /**
   * getValidMoves offers every single jump over an opposing diagonal
   * neighbour onto the empty square behind it, in a row direction the piece
   * may move in, with that neighbour as the capture.
   */
  lemma SingleJumpFound(g: Grid, row: int, col: int, colour: Colour, king: bool, step: int, dc: int)
    requires WellFormedGrid(g) && Square(row, col).OnBoard() && (step == 1 || step == -1) && (dc == 1 || dc == -1)
    requires Heads(colour, king, step)
    requires Square(row + 2 * step, col + 2 * dc).OnBoard() && g[row + 2 * step][col + 2 * dc] == Empty
    requires g[row + step][col + dc].Occupied? && g[row + step][col + dc].colour != colour
    ensures var moves := ValidMoves(g, row, col, colour, king);
      var s := Square(row + 2 * step, col + 2 * dc);
      HasKey(moves, s) && Get(moves, s) == [Jumped(row + step, col + dc, g[row + step][col + dc].colour)]
  {
    var s := Square(row + 2 * step, col + 2 * dc);
    JumpScan(g, row, col, colour, step, dc);
    FirstScanKeys(g, row, col, colour, step, -dc);
    DiagonalsGet(g, row, col, colour, step, dc, s);
    DirectionFound(g, row, col, colour, king, step, s);
  }
}

/** Move-generation examples on concrete boards. */
module MoveGenExamples {
  import opened Constants
  import Dicts
  import opened Rules
  import MoveGenFacts

  /** Merging the results of the left and the right scan when no destination repeats. */
  lemma MergeInOrder(left: MoveMap, right: MoveMap)
    requires Dicts.DistinctKeys(left + right)
    ensures Dicts.Update(Dicts.Update([], left), right) == left + right
  {
    assert [] + left == left;
    forall i, j | 0 <= i < j < |left| ensures left[i].0 != left[j].0 {
      assert (left + right)[i] == left[i] && (left + right)[j] == left[j];
    }
    Dicts.UpdateNew([], left);
    Dicts.UpdateNew(left, right);
  }

  /**
   * The squares the scans from a black man on (5, 4) read: a white man on
   * (4, 3), and (3, 2), (2, 1), (2, 3) and (4, 5) empty.
   */
  predicate CaptureCells(g: Grid)
    requires WellFormedGrid(g)
  {
    && g[4][3].Occupied? && g[4][3].colour == White
    && g[3][2] == Empty && g[2][1] == Empty && g[2][3] == Empty && g[4][5] == Empty
  }

  /** The black man may jump the white man to (3, 2) or step to (4, 5), in that order. */
  lemma SingleCapture(g: Grid)
    requires WellFormedGrid(g) && CaptureCells(g)
    ensures ValidMoves(g, 5, 4, Black, false) == [(Square(3, 2), [Jumped(4, 3, White)]), (Square(4, 5), [])]
  {
    var w := Jumped(4, 3, White);
    var jump := [(Square(3, 2), [w])];
    assert Scan(g, 2, 0, -1, Black, 1, -1, [w], []) == [];
    assert Scan(g, 2, 0, -1, Black, 3, 1, [w], []) == [];
    MoveGenFacts.ChainUnfold(g, 3, 2, -1, Black, 2, -1, [], [w]);
    assert MoveGenFacts.LandingCaps([], [w]) == [w];
    assert Dicts.Update(Dicts.Update(jump, []), []) == jump;
    MoveGenFacts.JumpUnfold(g, 4, 2, -1, Black, 3, -1, [], []);
    assert Scan(g, 4, 2, -1, Black, 5, 1, [], []) == [(Square(4, 5), [])];
    MergeInOrder(jump, [(Square(4, 5), [])]);
  }

  /** A black man on (5, 4) and a white man on (4, 3); every other square empty. */
  function CaptureBoard(): (g: Grid)
    ensures WellFormedGrid(g) && CaptureCells(g)
  {
    seq(ROWS, r => seq(COLS, c =>
      if r == 5 && c == 4 then Occupied(Black, false)
      else if r == 4 && c == 3 then Occupied(White, false)
      else Empty))
  }

  /**
   * The squares the scans from a black man on (7, 2) read: white men on
   * (6, 3) and (4, 5), and (6, 1), (5, 4), (4, 3), (3, 6), (2, 5) and (2, 7)
   * empty.
   */
  predicate DoubleJumpCells(g: Grid)
    requires WellFormedGrid(g)
  {
    && g[6][3].Occupied? && g[6][3].colour == White
    && g[4][5].Occupied? && g[4][5].colour == White
    && g[6][1] == Empty && g[5][4] == Empty && g[4][3] == Empty
    && g[3][6] == Empty && g[2][5] == Empty && g[2][7] == Empty
  }

  /** From the landing on (5, 4) the chained scans find only the jump over (4, 5) to (3, 6). */
  lemma DoubleJumpChain(g: Grid)
    requires WellFormedGrid(g) && DoubleJumpCells(g)
    ensures Scan(g, 4, 2, -1, Black, 5, 1, [Jumped(6, 3, White)], [])
         == [(Square(3, 6), [Jumped(4, 5, White), Jumped(6, 3, White)])]
    ensures Scan(g, 4, 2, -1, Black, 3, -1, [Jumped(6, 3, White)], []) == []
  {
    var w63 := Jumped(6, 3, White);
    var w45 := Jumped(4, 5, White);
    var twice := [(Square(3, 6), [w45, w63])];
    assert Scan(g, 2, 0, -1, Black, 5, -1, [w45], []) == [];
    assert Scan(g, 2, 0, -1, Black, 7, 1, [w45], []) == [];
    MoveGenFacts.ChainUnfold(g, 3, 2, -1, Black, 6, 1, [w63], [w45]);
    assert MoveGenFacts.LandingCaps([w63], [w45]) == [w45, w63];
    assert Dicts.Update(Dicts.Update(twice, []), []) == twice;
    MoveGenFacts.JumpUnfold(g, 4, 2, -1, Black, 5, 1, [w63], []);
  }

  /** The chained scans after the landing on (5, 4) add the double jump after the single one. */
  lemma DoubleJumpLandingMerge()
    ensures var w63 := Jumped(6, 3, White);
      Dicts.Update(Dicts.Update([(Square(5, 4), [w63])], []), [(Square(3, 6), [Jumped(4, 5, White), w63])])
        == [(Square(5, 4), [w63]), (Square(3, 6), [Jumped(4, 5, White), w63])]
  {
    var w63 := Jumped(6, 3, White);
    var jump := [(Square(5, 4), [w63])];
    var twice := [(Square(3, 6), [Jumped(4, 5, White), w63])];
    assert Dicts.Update(jump, []) == jump;
    Dicts.UpdateNew(jump, twice);
    assert jump + twice == [jump[0], twice[0]];
  }

  /** The landing on (5, 4) after the jump over (6, 3) records it and chains on to (3, 6). */
  lemma DoubleJumpLanding(g: Grid)
    requires WellFormedGrid(g) && DoubleJumpCells(g)
    ensures Scan(g, 5, 4, -1, Black, 4, 1, [], [Jumped(6, 3, White)])
         == [(Square(5, 4), [Jumped(6, 3, White)]), (Square(3, 6), [Jumped(4, 5, White), Jumped(6, 3, White)])]
  {
    var w63 := Jumped(6, 3, White);
    DoubleJumpChain(g);
    MoveGenFacts.ChainUnfold(g, 5, 4, -1, Black, 4, 1, [], [w63]);
    assert MoveGenFacts.LandingCaps([], [w63]) == [w63];
    DoubleJumpLandingMerge();
  }

  /** The right-hand scan from (7, 2) jumps (6, 3) to (5, 4) and chains on to (3, 6). */
  lemma DoubleJumpRight(g: Grid)
    requires WellFormedGrid(g) && DoubleJumpCells(g)
    ensures Scan(g, 6, 4, -1, Black, 3, 1, [], [])
         == [(Square(5, 4), [Jumped(6, 3, White)]), (Square(3, 6), [Jumped(4, 5, White), Jumped(6, 3, White)])]
  {
    MoveGenFacts.JumpUnfold(g, 6, 4, -1, Black, 3, 1, [], []);
    DoubleJumpLanding(g);
  }

  /** The left-hand scan from (7, 2) finds the step to (6, 1). */
  lemma DoubleJumpLeft(g: Grid)
    requires WellFormedGrid(g) && DoubleJumpCells(g)
    ensures Scan(g, 6, 4, -1, Black, 1, -1, [], []) == [(Square(6, 1), [])]
  {
    var none: seq<Jumped> := [];
    assert Dicts.Put([], Square(6, 1), none) == [(Square(6, 1), none)];
  }

  /** The three destinations of the double-jump board are distinct, so `update` keeps them in order. */
  lemma DoubleJumpMerge()
    ensures var left := [(Square(6, 1), [])];
      var right := [(Square(5, 4), [Jumped(6, 3, White)]), (Square(3, 6), [Jumped(4, 5, White), Jumped(6, 3, White)])];
      Dicts.Update(Dicts.Update([], left), right)
        == [(Square(6, 1), []), (Square(5, 4), [Jumped(6, 3, White)]),
            (Square(3, 6), [Jumped(4, 5, White), Jumped(6, 3, White)])]
  {
    var left := [(Square(6, 1), [])];
    var right := [(Square(5, 4), [Jumped(6, 3, White)]), (Square(3, 6), [Jumped(4, 5, White), Jumped(6, 3, White)])];
    assert Dicts.DistinctKeys(left + right);
    MergeInOrder(left, right);
    assert left + right == [left[0], right[0], right[1]];
  }

  /**
   * The black man on (7, 2) may step to (6, 1), jump to (5, 4), or jump
   * twice to (3, 6), capturing both white men; the double jump lists the
   * later capture first.
   */
  lemma DoubleJump(g: Grid)
    requires WellFormedGrid(g) && DoubleJumpCells(g)
    ensures ValidMoves(g, 7, 2, Black, false)
         == [(Square(6, 1), []), (Square(5, 4), [Jumped(6, 3, White)]),
             (Square(3, 6), [Jumped(4, 5, White), Jumped(6, 3, White)])]
  {
    DoubleJumpLeft(g);
    DoubleJumpRight(g);
    DoubleJumpMerge();
  }

  /** A black man on (7, 2) and white men on (6, 3) and (4, 5); every other square empty. */
  function DoubleJumpBoard(): (g: Grid)
    ensures WellFormedGrid(g) && DoubleJumpCells(g)
  {
    seq(ROWS, r => seq(COLS, c =>
      if r == 7 && c == 2 then Occupied(Black, false)
      else if (r == 6 && c == 3) || (r == 4 && c == 5) then Occupied(White, false)
      else Empty))
  }
}
