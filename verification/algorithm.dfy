/**
 * The fixed-depth search of minimax/algorithm.py. Every branch of the search
 * works on its own copy of the board, so the search runs over board values
 * (`Rules.Position`) and `deepcopy` is the copying of a value. The board's
 * evaluation and the order in which it lists a side's pieces are not part of
 * this model; both are parameters. So is the board's move generator
 * (`getValidMoves`): the search is stated for any generator whose maps can be
 * played, and `CheckersMoves`, the generator of the rules, is one of them.
 */
module Search {
  import opened Constants
  import opened Options
  import opened Rules
  import opened Pieces
  import opened Boards
  import BoardFacts
  import MoveGenFacts

  // ---------------------------------------------------------------------------
  // simulateMove

  /**
   * `simulateMove` on the board it is given: the piece moves, and the skipped
   * pieces are removed when there are any.
   */
  method SimulateMove(piece: Piece, move: Square, board: Board, skip: seq<Jumped>) returns (result: Board)
    requires board.Valid()
    requires 0 <= piece.row < ROWS && 0 <= piece.col < COLS && board.grid[piece.row][piece.col] == piece
    requires move.OnBoard() && board.model.grid[move.row][move.col] == Empty
    requires AllOnBoard(skip)
    modifies board, piece
    ensures result == board && board.Valid() && board.pieces == old(board.pieces)
    ensures board.model == ApplyMove(old(board.model), Square(old(piece.row), old(piece.col)), move, skip)
    ensures piece.row == move.row && piece.col == move.col
  {
    assert board.GetPiece(move.row, move.col) == null;
    board.MovePiece(piece, move.row, move.col);
    if skip != [] {
      board.Remove(skip);
    }
    result := board;
  }

  /** A move never changes how many pieces stand on the board, and each skipped piece takes one away. */
  lemma ApplyMoveTotal(p: Position, from: Square, to: Square, skip: seq<Jumped>)
    requires WellFormed(p) && from.OnBoard() && to.OnBoard() && p.grid[from.row][from.col].Occupied?
    requires AllOnBoard(skip)
    ensures var q := ApplyMove(p, from, to, skip);
      q.whiteLeft + q.blackLeft == p.whiteLeft + p.blackLeft - |skip|
  {
    ApplyMoveFacts(p, from, to, skip);
    BoardFacts.TallyTotal(skip);
  }

  // ---------------------------------------------------------------------------
  // getAllMoves

  /** Every square holds a piece. */
  predicate Occupants(p: Position, pieces: seq<Square>)
    requires WellFormed(p)
  {
    forall i :: 0 <= i < |pieces| ==> pieces[i].OnBoard() && p.grid[pieces[i].row][pieces[i].col].Occupied?
  }

  /** The squares hold pieces of colour `colour`: what `getAllPieces(colour)` returns. */
  predicate PiecesOf(p: Position, colour: Colour, pieces: seq<Square>)
    requires WellFormed(p)
  {
    && Occupants(p, pieces)
    && forall i :: 0 <= i < |pieces| ==> p.grid[pieces[i].row][pieces[i].col].colour == colour
  }

  /** Every entry of the map can be played: its destination and its captures are on the board. */
  predicate Playable(moves: MoveMap) {
    forall i :: 0 <= i < |moves| ==> PlayableEntry(moves[i])
  }

  predicate PlayableEntry(e: (Square, seq<Jumped>)) {
    e.0.OnBoard() && AllOnBoard(e.1)
  }

  /** `board.getValidMoves(piece)` for the piece on square `s`. */
  function PieceMoves(p: Position, s: Square): (moves: MoveMap)
    requires WellFormed(p) && s.OnBoard() && p.grid[s.row][s.col].Occupied?
    ensures Playable(moves)
    ensures forall e :: e in moves ==> e.0.OnBoard() && p.grid[e.0.row][e.0.col] == Empty
  {
    var cell := p.grid[s.row][s.col];
    MoveGenFacts.ValidMovesFacts(p.grid, s.row, s.col, cell.colour, cell.king);
    var moves := ValidMoves(p.grid, s.row, s.col, cell.colour, cell.king);
    assert Playable(moves) by {
      forall i | 0 <= i < |moves| ensures PlayableEntry(moves[i]) {
        assert MoveGenFacts.MoveEntry(p.grid, s.row, s.col, cell.colour, cell.king, moves[i]);
      }
    }
    assert forall e :: e in moves ==> e.0.OnBoard() && p.grid[e.0.row][e.0.col] == Empty by {
      forall e | e in moves ensures e.0.OnBoard() && p.grid[e.0.row][e.0.col] == Empty {
        assert MoveGenFacts.MoveEntry(p.grid, s.row, s.col, cell.colour, cell.king, e);
      }
    }
    moves
  }

  /** A move generator: the map `board.getValidMoves(piece)` for the piece standing on a square of a board. */
  type MoveGen = (Position, Square) -> MoveMap

  /** Every map the generator gives for a piece on the board can be played. */
  ghost predicate Sound(gen: MoveGen) {
    forall p: Position, s: Square {:trigger gen(p, s)} :: WellFormed(p) && s.OnBoard() && p.grid[s.row][s.col].Occupied? ==> Playable(gen(p, s))
  }

  /** The generator is that of the rules, for every piece on every board. */
  ghost predicate Generates(gen: MoveGen) {
    forall p: Position, s: Square {:trigger gen(p, s)} :: WellFormed(p) && s.OnBoard() && p.grid[s.row][s.col].Occupied? ==> gen(p, s) == PieceMoves(p, s)
  }

  /**
   * `getValidMoves` on board values: the rules' map for the piece on `s`,
   * nothing where no piece stands. Every destination it offers is an empty
   * square of the board and every capture a square of the board.
   */
  function CheckersMoves(p: Position, s: Square): (moves: MoveMap)
    ensures Playable(moves)
    ensures forall e :: e in moves ==> WellFormed(p) && e.0.OnBoard() && p.grid[e.0.row][e.0.col] == Empty
    ensures !(WellFormed(p) && s.OnBoard() && p.grid[s.row][s.col].Occupied?) ==> moves == []
  {
    if WellFormed(p) && s.OnBoard() && p.grid[s.row][s.col].Occupied? then PieceMoves(p, s) else []
  }

  /** The rules' generator is sound. */
  lemma CheckersMovesSound()
    ensures Generates(CheckersMoves) && Sound(CheckersMoves)
  {
    forall p: Position, s: Square | WellFormed(p) && s.OnBoard() && p.grid[s.row][s.col].Occupied?
      ensures Playable(CheckersMoves(p, s))
    {
      assert CheckersMoves(p, s) == PieceMoves(p, s);
    }
  }

  /** Any generator of the rules' maps is sound. */
  lemma GeneratesSound(gen: MoveGen)
    requires Generates(gen)
    ensures Sound(gen)
  {
    forall p: Position, s: Square | WellFormed(p) && s.OnBoard() && p.grid[s.row][s.col].Occupied?
      ensures Playable(gen(p, s))
    {
      assert gen(p, s) == PieceMoves(p, s);
    }
  }

  /** Boards all of whose cells exist. */
  predicate AllWellFormed(children: seq<Position>) {
    forall k :: 0 <= k < |children| ==> WellFormed(children[k])
  }

  /** The boards of the inner loop of `getAllMoves`: one copy per entry of the map, played on it, in map order. */
  function Children(p: Position, s: Square, moves: MoveMap): (cs: seq<Position>)
    requires WellFormed(p) && s.OnBoard() && p.grid[s.row][s.col].Occupied? && Playable(moves)
    ensures |cs| == |moves| && AllWellFormed(cs)
    decreases |moves|
  {
    if moves == [] then []
    else
      var n := |moves| - 1;
      assert Playable(moves[..n]) by {
        forall i | 0 <= i < n ensures moves[..n][i] == moves[i] { }
      }
      Children(p, s, moves[..n]) + [ApplyMove(p, s, moves[n].0, moves[n].1)]
  }

  /** Board `j` of the inner loop is the board with the map's entry `j` played on it. */
  lemma {:induction false} ChildrenAt(p: Position, s: Square, moves: MoveMap, j: int)
    requires WellFormed(p) && s.OnBoard() && p.grid[s.row][s.col].Occupied? && Playable(moves)
    requires 0 <= j < |moves|
    ensures PlayableEntry(moves[j])
    ensures Children(p, s, moves)[j] == ApplyMove(p, s, moves[j].0, moves[j].1)
    decreases |moves|
  {
    var n := |moves| - 1;
    if j < n {
      var front := moves[..n];
      assert front[j] == moves[j];
      ChildrenAt(p, s, front, j);
    }
  }

  /** `getAllMoves` for the pieces listed in `pieces`: their children in piece order, then map order. */
  function AllMoves(p: Position, pieces: seq<Square>, gen: MoveGen): (cs: seq<Position>)
    requires WellFormed(p) && Occupants(p, pieces) && Sound(gen)
    ensures AllWellFormed(cs)
    decreases |pieces|
  {
    if pieces == [] then []
    else
      var n := |pieces| - 1;
      assert Occupants(p, pieces[..n]) by {
        forall i | 0 <= i < n ensures pieces[..n][i] == pieces[i] { }
      }
      AllMoves(p, pieces[..n], gen) + Children(p, pieces[n], gen(p, pieces[n]))
  }

  /**
   * The inner loop of `getAllMoves`: a copy of the board per entry of the map,
   * with that move played on it. `ApplyMove` is what `simulateMove` does to the
   * copied board (`minimax/algorithm.py:83-87`), as the `ensures` of
   * `SimulateMove` states for the board object.
   */
  method PlayEach(board: Position, piece: Square, validMoves: MoveMap) returns (moves: seq<Position>)
    requires WellFormed(board) && piece.OnBoard() && board.grid[piece.row][piece.col].Occupied? && Playable(validMoves)
    ensures moves == Children(board, piece, validMoves)
  {
    moves := [];
    for j := 0 to |validMoves|
      invariant moves == Children(board, piece, validMoves[..j])
    {
      var (move, skip) := validMoves[j];
      var tempBoard := board;
      var newBoard := ApplyMove(tempBoard, piece, move, skip);
      assert validMoves[..j + 1][..j] == validMoves[..j];
      moves := moves + [newBoard];
    }
    assert validMoves[..|validMoves|] == validMoves;
  }

  /** `getAllMoves`: a fresh copy of the board for every (piece, destination) pair, with that move played on it. */
  method GetAllMoves(board: Position, colour: Colour, pieces: seq<Square>, gen: MoveGen) returns (moves: seq<Position>)
    requires WellFormed(board) && PiecesOf(board, colour, pieces) && Sound(gen)
    ensures moves == AllMoves(board, pieces, gen)
  {
    moves := [];
    for i := 0 to |pieces|
      invariant moves == AllMoves(board, pieces[..i], gen)
    {
      var piece := pieces[i];
      var validMoves := gen(board, piece);
      var boards := PlayEach(board, piece, validMoves);
      assert pieces[..i + 1][..i] == pieces[..i];
      moves := moves + boards;
    }
    assert pieces[..|pieces|] == pieces;
  }

  /** The children of a list of pieces, split anywhere, are those of the two parts one after the other. */
  lemma {:induction false} AllMovesAppend(p: Position, a: seq<Square>, b: seq<Square>, gen: MoveGen)
    requires WellFormed(p) && Occupants(p, a) && Occupants(p, b) && Sound(gen)
    ensures Occupants(p, a + b)
    ensures AllMoves(p, a + b, gen) == AllMoves(p, a, gen) + AllMoves(p, b, gen)
    decreases |b|
  {
    assert forall i :: 0 <= i < |a + b| ==> (a + b)[i] == if i < |a| then a[i] else b[i - |a|];
    if b == [] {
      assert a + b == a;
    } else {
      var n := |b| - 1;
      assert Occupants(p, b[..n]) by {
        forall i | 0 <= i < n ensures b[..n][i] == b[i] { }
      }
      assert (a + b)[..|a + b| - 1] == a + b[..n];
      assert (a + b)[|a + b| - 1] == b[n];
      AllMovesAppend(p, a, b[..n], gen);
    }
  }

  /** Cutting a list of pieces around entry `i`. */
  lemma OccupantsSplit(p: Position, pieces: seq<Square>, i: int)
    requires WellFormed(p) && Occupants(p, pieces) && 0 <= i < |pieces|
    ensures Occupants(p, pieces[..i]) && Occupants(p, pieces[..i + 1]) && Occupants(p, pieces[i + 1..])
    ensures pieces == pieces[..i + 1] + pieces[i + 1..]
    ensures pieces[..i + 1][..i] == pieces[..i] && pieces[..i + 1][i] == pieces[i]
  {
    var head, tail := pieces[..i + 1], pieces[i + 1..];
    forall k | 0 <= k < i + 1 ensures head[k] == pieces[k] { }
    forall k | 0 <= k < |tail| ensures tail[k] == pieces[i + 1 + k] { }
    assert pieces == head + tail;
  }

  /** The last piece's boards come after those of the others. */
  lemma AllMovesSnoc(p: Position, pieces: seq<Square>, gen: MoveGen)
    requires WellFormed(p) && Occupants(p, pieces) && pieces != [] && Sound(gen)
    ensures Occupants(p, pieces[..|pieces| - 1])
    ensures var n := |pieces| - 1;
      AllMoves(p, pieces, gen) == AllMoves(p, pieces[..n], gen) + Children(p, pieces[n], gen(p, pieces[n]))
  {
    var n := |pieces| - 1;
    forall k | 0 <= k < n ensures pieces[..n][k] == pieces[k] { }
  }

  /**
   * `getAllMoves` returns exactly one board per (piece, destination) pair,
   * in piece order and then move order: the boards of piece `i`, one per
   * entry of its map, come right after those of the pieces before it.
   */
  lemma AllMovesLayout(p: Position, pieces: seq<Square>, i: int, gen: MoveGen)
    requires WellFormed(p) && Occupants(p, pieces) && Sound(gen)
    requires 0 <= i < |pieces|
    ensures Occupants(p, pieces[..i]) && Occupants(p, pieces[i + 1..])
    ensures AllMoves(p, pieces, gen)
      == AllMoves(p, pieces[..i], gen) + Children(p, pieces[i], gen(p, pieces[i])) + AllMoves(p, pieces[i + 1..], gen)
  {
    OccupantsSplit(p, pieces, i);
    var head := pieces[..i + 1];
    var tail := pieces[i + 1..];
    AllMovesAppend(p, head, tail, gen);
    AllMovesSnoc(p, head, gen);
  }

  function Left(p: Position, c: Colour): int {
    if c == White then p.whiteLeft else p.blackLeft
  }

  /** Captured pieces all belong to the other side: none is the mover's, all count against the opponent. */
  lemma {:induction false} TallyOpposing(js: seq<Jumped>, colour: Colour)
    requires forall i :: 0 <= i < |js| ==> js[i].colour != colour
    ensures Tally(js, colour) == 0 && Tally(js, Opponent(colour)) == |js|
  {
    if js != [] {
      TallyOpposing(js[..|js| - 1], colour);
    }
  }

  /**
   * Playing one of a piece's valid moves keeps each `*Left` counter equal to
   * the number of pieces of its colour on the grid: the captured pieces are
   * opposing pieces on squares other than the origin and the destination,
   * and at most two, on different squares.
   */
  lemma ApplyMoveConsistent(p: Position, s: Square, e: (Square, seq<Jumped>))
    requires WellFormed(p) && Consistent(p) && s.OnBoard() && p.grid[s.row][s.col].Occupied?
    requires e in PieceMoves(p, s)
    ensures e.0.OnBoard() && AllOnBoard(e.1) && Consistent(ApplyMove(p, s, e.0, e.1))
  {
    var cell := p.grid[s.row][s.col];
    MoveGenFacts.ValidMovesFacts(p.grid, s.row, s.col, cell.colour, cell.king);
    assert MoveGenFacts.MoveEntry(p.grid, s.row, s.col, cell.colour, cell.king, e);
    EntryConsistent(p, s, cell.king, e);
  }

  /** The counting behind `ApplyMoveConsistent`, for any entry with the properties of a valid move. */
  lemma EntryConsistent(p: Position, s: Square, king: bool, e: (Square, seq<Jumped>))
    requires WellFormed(p) && Consistent(p) && s.OnBoard() && p.grid[s.row][s.col].Occupied?
    requires MoveGenFacts.MoveEntry(p.grid, s.row, s.col, p.grid[s.row][s.col].colour, king, e)
    ensures AllOnBoard(e.1) && Consistent(ApplyMove(p, s, e.0, e.1))
  {
    var (to, caps) := e;
    BoardFacts.MovePieceConsistent(p, s, to);
    if caps != [] {
      CapturesSurvive(p, s, to, caps);
      assert BoardFacts.DistinctSquares(caps);
      BoardFacts.RemoveConsistent(MovePiece(p, s, to), caps);
    }
  }

  /** Moving a piece onto an empty square leaves every opposing piece where it stood. */
  lemma CapturesSurvive(p: Position, s: Square, to: Square, caps: seq<Jumped>)
    requires WellFormed(p) && s.OnBoard() && to.OnBoard() && p.grid[s.row][s.col].Occupied? && p.grid[to.row][to.col] == Empty
    requires forall i :: 0 <= i < |caps| ==> MoveGenFacts.Opposing(p.grid, p.grid[s.row][s.col].colour, caps[i])
    ensures BoardFacts.PiecesOnGrid(MovePiece(p, s, to).grid, caps)
  {
    var moved := MovePiece(p, s, to);
    forall i | 0 <= i < |caps|
      ensures caps[i].At().OnBoard() && moved.grid[caps[i].row][caps[i].col] != Empty
      ensures moved.grid[caps[i].row][caps[i].col].colour == caps[i].colour
    {
      assert MoveGenFacts.Opposing(p.grid, p.grid[s.row][s.col].colour, caps[i]);
      assert caps[i].At() != s && caps[i].At() != to;
    }
  }

  /**
   * Playing one of a piece's valid moves costs its own side nothing and the
   * other side exactly the captured pieces, at most two; the counters stay
   * equal to the pieces on the grid.
   */
  lemma ChildLeft(p: Position, s: Square, e: (Square, seq<Jumped>))
    requires WellFormed(p) && s.OnBoard() && p.grid[s.row][s.col].Occupied?
    requires e in PieceMoves(p, s)
    ensures var c := p.grid[s.row][s.col].colour;
      var q := ApplyMove(p, s, e.0, e.1);
      && Left(q, c) == Left(p, c) && Left(q, Opponent(c)) == Left(p, Opponent(c)) - |e.1| && |e.1| <= 2
      && (Consistent(p) ==> Consistent(q))
  {
    var cell := p.grid[s.row][s.col];
    MoveGenFacts.ValidMovesFacts(p.grid, s.row, s.col, cell.colour, cell.king);
    assert MoveGenFacts.MoveEntry(p.grid, s.row, s.col, cell.colour, cell.king, e);
    TallyOpposing(e.1, cell.colour);
    ApplyMoveFacts(p, s, e.0, e.1);
    if Consistent(p) {
      ApplyMoveConsistent(p, s, e);
    }
  }

  /**
   * No board of `getAllMoves(colour)` has fewer pieces of `colour`, each has
   * at most two fewer of the other side, and each keeps the counters equal
   * to the pieces on the grid when the board it came from did.
   */
  lemma {:induction false} AllMovesLeft(p: Position, colour: Colour, pieces: seq<Square>, gen: MoveGen)
    requires WellFormed(p) && PiecesOf(p, colour, pieces) && Generates(gen) && Sound(gen)
    ensures forall k :: 0 <= k < |AllMoves(p, pieces, gen)| ==>
      var q := AllMoves(p, pieces, gen)[k];
      && Left(q, colour) == Left(p, colour) && Left(p, Opponent(colour)) - 2 <= Left(q, Opponent(colour)) <= Left(p, Opponent(colour))
      && (Consistent(p) ==> Consistent(q))
    decreases |pieces|
  {
    if pieces != [] {
      var n := |pieces| - 1;
      assert PiecesOf(p, colour, pieces[..n]) by {
        forall i | 0 <= i < n ensures pieces[..n][i] == pieces[i] { }
      }
      AllMovesLeft(p, colour, pieces[..n], gen);
      var front := AllMoves(p, pieces[..n], gen);
      var moves := gen(p, pieces[n]);
      assert moves == PieceMoves(p, pieces[n]);
      var mine := Children(p, pieces[n], moves);
      forall k | 0 <= k < |AllMoves(p, pieces, gen)|
        ensures var q := AllMoves(p, pieces, gen)[k];
          && Left(q, colour) == Left(p, colour) && Left(p, Opponent(colour)) - 2 <= Left(q, Opponent(colour)) <= Left(p, Opponent(colour))
          && (Consistent(p) ==> Consistent(q))
      {
        if k < |front| {
          assert AllMoves(p, pieces, gen)[k] == front[k];
        } else {
          var j := k - |front|;
          assert AllMoves(p, pieces, gen)[k] == mine[j];
          ChildrenAt(p, pieces[n], moves, j);
          assert moves[j] in moves;
          ChildLeft(p, pieces[n], moves[j]);
        }
      }
    }
  }

  // ---------------------------------------------------------------------------
  // minimax

  /** An evaluation, or one of the infinite sentinels the search starts from. */
  datatype Score = NegInf | Finite(value: int) | PosInf

  /** `a <= b` on scores. */
  predicate AtMost(a: Score, b: Score) {
    a.NegInf? || b.PosInf? || (a.Finite? && b.Finite? && a.value <= b.value)
  }

  /** Python's `max(a, b)`: `b` only when it is strictly larger. */
  function MaxScore(a: Score, b: Score): (m: Score)
    ensures AtMost(a, m) && AtMost(b, m)
    ensures m == a || m == b
  {
    if AtMost(b, a) then a else b
  }

  /** Python's `min(a, b)`: `b` only when it is strictly smaller. */
  function MinScore(a: Score, b: Score): (m: Score)
    ensures AtMost(m, a) && AtMost(m, b)
    ensures m == a || m == b
  {
    if AtMost(a, b) then a else b
  }

  /** The order of `getAllPieces`: for every board and colour, squares holding pieces of that colour. */
  ghost predicate ListsPieces(order: (Position, Colour) -> seq<Square>) {
    forall p, c :: WellFormed(p) ==> PiecesOf(p, c, order(p, c))
  }

  /** The side to move: WHITE maximises, BLACK minimises. */
  function Side(maxPlayer: bool): Colour {
    if maxPlayer then White else Black
  }

  /**
   * What `minimax(position, depth, maxPlayer)` returns: at a leaf (depth 0 or
   * a decided game) the evaluation and the position itself, otherwise the
   * loop over the side's children, each scored by the other side's search
   * one level down.
   */
  function Outcome(p: Position, depth: nat, maxPlayer: bool, evaluate: Position -> int,
                   order: (Position, Colour) -> seq<Square>, gen: MoveGen): (r: (Score, Option<Position>))
    requires WellFormed(p) && ListsPieces(order) && Sound(gen)
    ensures depth == 0 || Winner(p) != None ==> r == (Finite(evaluate(p)), Some(p))
    decreases depth, 1
  {
    if depth == 0 || Winner(p) != None then (Finite(evaluate(p)), Some(p))
    else
      assert PiecesOf(p, Side(maxPlayer), order(p, Side(maxPlayer)));
      var children := AllMoves(p, order(p, Side(maxPlayer)), gen);
      Pick(children, Scores(children, depth, !maxPlayer, evaluate, order, gen), maxPlayer)
  }

  /** The score of each child: the search one level below `depth` of the side to move there. */
  function Scores(children: seq<Position>, depth: nat, maxPlayer: bool, evaluate: Position -> int,
                  order: (Position, Colour) -> seq<Square>, gen: MoveGen): (scores: seq<Score>)
    requires AllWellFormed(children) && ListsPieces(order) && Sound(gen) && depth > 0
    ensures |scores| == |children|
    decreases depth, 0
  {
    seq(|children|, k requires 0 <= k < |children| => Outcome(children[k], depth - 1, maxPlayer, evaluate, order, gen).0)
  }

  /**
   * The loop of `minimax` over `children`, visited in order with their
   * scores: the running extreme starts at the sentinel (-inf for WHITE, +inf
   * for BLACK), and the best board is replaced whenever the running extreme
   * equals the child's score.
   */
  function Pick<T>(children: seq<T>, scores: seq<Score>, maxPlayer: bool): (r: (Score, Option<T>))
    requires |scores| == |children|
  {
    if children == [] then (if maxPlayer then NegInf else PosInf, None)
    else
      var n := |children| - 1;
      var acc := Pick(children[..n], scores[..n], maxPlayer);
      var m := if maxPlayer then MaxScore(acc.0, scores[n]) else MinScore(acc.0, scores[n]);
      (m, if m == scores[n] then Some(children[n]) else acc.1)
  }

  /** One more child: the state of the loop after child `i` from the state before it. */
  lemma PickStep<T>(children: seq<T>, scores: seq<Score>, maxPlayer: bool, i: int)
    requires |scores| == |children| && 0 <= i < |children|
    ensures var acc := Pick(children[..i], scores[..i], maxPlayer);
      var m := if maxPlayer then MaxScore(acc.0, scores[i]) else MinScore(acc.0, scores[i]);
      Pick(children[..i + 1], scores[..i + 1], maxPlayer) == (m, if m == scores[i] then Some(children[i]) else acc.1)
  {
    assert children[..i + 1][..i] == children[..i] && scores[..i + 1][..i] == scores[..i];
  }

  /** `a` is at least as good as `b` for the side to move. */
  predicate NoWorse(a: Score, b: Score, maxPlayer: bool) {
    if maxPlayer then AtMost(b, a) else AtMost(a, b)
  }

  /** With no children the score stays at the sentinel and there is no best board. */
  lemma PickEmpty<T>(maxPlayer: bool)
    ensures Pick<T>([], [], maxPlayer) == (if maxPlayer then NegInf else PosInf, None)
  {
  }

  /** The score of the loop is the maximum (WHITE) or minimum (BLACK) of the children's scores. */
  lemma {:induction false} PickBound<T>(children: seq<T>, scores: seq<Score>, maxPlayer: bool)
    requires |scores| == |children|
    ensures forall k :: 0 <= k < |children| ==> NoWorse(Pick(children, scores, maxPlayer).0, scores[k], maxPlayer)
    decreases |children|
  {
    if children != [] {
      var n := |children| - 1;
      PickBound(children[..n], scores[..n], maxPlayer);
      assert forall k :: 0 <= k < n ==> scores[..n][k] == scores[k];
    }
  }

  /** Child `k` scores `score` and no later child does. */
  predicate LastAt(scores: seq<Score>, k: int, score: Score)
    requires 0 <= k < |scores|
  {
    scores[k] == score && forall j :: k < j < |scores| ==> scores[j] != score
  }

  /**
   * With at least one child, the best board is the last child whose score
   * equals the returned extreme: later equal scores replace earlier ones.
   */
  lemma {:induction false} PickLast<T>(children: seq<T>, scores: seq<Score>, maxPlayer: bool)
    requires |scores| == |children| && children != []
    ensures var r := Pick(children, scores, maxPlayer);
      exists k :: 0 <= k < |children| && r.1 == Some(children[k]) && LastAt(scores, k, r.0)
    decreases |children|
  {
    var n := |children| - 1;
    var r := Pick(children, scores, maxPlayer);
    if n == 0 {
      PickStep(children, scores, maxPlayer, 0);
      assert children[..0] == [] && scores[..0] == [];
      assert children[..1] == children && scores[..1] == scores;
      assert LastAt(scores, 0, r.0);
    } else if r.0 == scores[n] {
      assert LastAt(scores, n, r.0);
    } else {
      PickLast(children[..n], scores[..n], maxPlayer);
      var k :| 0 <= k < n && r.1 == Some(children[..n][k]) && LastAt(scores[..n], k, r.0);
      assert forall j :: k <= j < n ==> scores[..n][j] == scores[j];
      assert LastAt(scores, k, r.0);
    }
  }

  /** Away from the leaves, WHITE's search runs over WHITE's moves and BLACK's over BLACK's. */
  lemma OutcomeInner(p: Position, depth: nat, maxPlayer: bool, evaluate: Position -> int,
                     order: (Position, Colour) -> seq<Square>, gen: MoveGen, children: seq<Position>)
    requires WellFormed(p) && ListsPieces(order) && Sound(gen)
    requires depth > 0 && Winner(p) == None
    requires PiecesOf(p, Side(maxPlayer), order(p, Side(maxPlayer)))
    requires children == AllMoves(p, order(p, Side(maxPlayer)), gen)
    ensures AllWellFormed(children)
    ensures Outcome(p, depth, maxPlayer, evaluate, order, gen) == Pick(children, Scores(children, depth, !maxPlayer, evaluate, order, gen), maxPlayer)
  {
  }

  /** Child `k` scores what the search of the other side, one level down, returns for it. */
  lemma ScoreAt(children: seq<Position>, depth: nat, below: nat, maxPlayer: bool, evaluate: Position -> int,
                order: (Position, Colour) -> seq<Square>, gen: MoveGen, k: int)
    requires AllWellFormed(children) && ListsPieces(order) && Sound(gen) && depth > 0 && below == depth - 1
    requires 0 <= k < |children|
    ensures Scores(children, depth, maxPlayer, evaluate, order, gen)[k] == Outcome(children[k], below, maxPlayer, evaluate, order, gen).0
  {
  }

  /** Ties go to the later child: of two children with equal scores, the second is chosen. */
  lemma TieGoesToLast<T>(a: T, b: T, score: Score, maxPlayer: bool)
    ensures Pick([a, b], [score, score], maxPlayer) == (score, Some(b))
  {
    PickStep([a, b], [score, score], maxPlayer, 0);
    PickStep([a, b], [score, score], maxPlayer, 1);
    assert [a, b][..2] == [a, b] && [score, score][..2] == [score, score];
  }

  /** `minimax`: the evaluation at a leaf, the loop over the side's children elsewhere. */
  method Minimax(position: Position, depth: nat, maxPlayer: bool, evaluate: Position -> int,
                 order: (Position, Colour) -> seq<Square>, gen: MoveGen) returns (score: Score, bestMove: Option<Position>)
    requires WellFormed(position) && ListsPieces(order) && Sound(gen)
    ensures (score, bestMove) == Outcome(position, depth, maxPlayer, evaluate, order, gen)
    decreases depth, 1
  {
    if depth == 0 || Winner(position) != None {
      score, bestMove := Finite(evaluate(position)), Some(position);
    } else {
      var colour := Side(maxPlayer);
      assert PiecesOf(position, colour, order(position, colour));
      var moves := GetAllMoves(position, colour, order(position, colour), gen);
      OutcomeInner(position, depth, maxPlayer, evaluate, order, gen, moves);
      score, bestMove := BestMove(moves, depth, maxPlayer, evaluate, order, gen);
    }
  }

  /** The search of a checkers game: `minimax` with the rules' move generator. */
  method CheckersMinimax(position: Position, depth: nat, maxPlayer: bool, evaluate: Position -> int,
                         order: (Position, Colour) -> seq<Square>) returns (score: Score, bestMove: Option<Position>)
    requires WellFormed(position) && ListsPieces(order)
    ensures (score, bestMove) == Outcome(position, depth, maxPlayer, evaluate, order, CheckersMoves)
  {
    CheckersMovesSound();
    score, bestMove := Minimax(position, depth, maxPlayer, evaluate, order, CheckersMoves);
  }

  /**
   * The loop of `minimax` over the children: each child is searched for the
   * other side one level down, the running extreme starts at the sentinel,
   * and the best board is replaced whenever the extreme equals the child's score.
   */
  method BestMove(moves: seq<Position>, depth: nat, maxPlayer: bool, evaluate: Position -> int,
                  order: (Position, Colour) -> seq<Square>, gen: MoveGen) returns (score: Score, bestMove: Option<Position>)
    requires AllWellFormed(moves) && ListsPieces(order) && Sound(gen) && depth > 0
    ensures (score, bestMove) == Pick(moves, Scores(moves, depth, !maxPlayer, evaluate, order, gen), maxPlayer)
    decreases depth, 0
  {
    ghost var scores := Scores(moves, depth, !maxPlayer, evaluate, order, gen);
    var below := depth - 1;
    score := if maxPlayer then NegInf else PosInf;
    bestMove := None;
    for i := 0 to |moves|
      invariant (score, bestMove) == Pick(moves[..i], scores[..i], maxPlayer)
    {
      var move := moves[i];
      var evaluation, _ := Minimax(move, below, !maxPlayer, evaluate, order, gen);
      ScoreAt(moves, depth, below, !maxPlayer, evaluate, order, gen, i);
      PickStep(moves, scores, maxPlayer, i);
      score := if maxPlayer then MaxScore(score, evaluation) else MinScore(score, evaluation);
      if score == evaluation {
        bestMove := Some(move);
      }
    }
    assert moves[..|moves|] == moves && scores[..|scores|] == scores;
  }
}
