# Checkers with a minimax opponent, in Dafny

This project models the rules engine and the search of a Python checkers game:
- the board (`checkers/board.py`): an 8×8 grid of pieces with four counters, the set-up, moving, capturing, the winner test and the move generator with its two diagonal scanners;
- the pieces (`checkers/piece.py`);
- the click-driven game state (`checkers/game.py`);
- the fixed-depth minimax search (`minimax/algorithm.py`);
- the pixel-to-square conversion of `main.py`.

Two layers describe the board:
- Module `Rules` describes a board as a value. `Position` holds a grid of `Cell`s and the four counters. Every board operation is a function on positions there.
- Class `Boards.Board` is the board as the program keeps it. It is a grid of `Piece` objects (or nothing), updated in place, with the same counters. Its ghost field `model` is the position it stands for. Each method is proved to change `model` exactly as the corresponding `Rules` function does, and to keep the objects, counters and model in agreement.

The search works on positions. Every branch of the Python search owns a `deepcopy` of the board, so a value copy is faithful. The game (`Games.Game`) and the pieces (`Pieces.Piece`) are classes whose methods update their fields.

Python dictionaries (`Dicts.Dict`) are insertion-ordered sequences of pairs:
- assigning to a present key keeps its place;
- a new key is appended;
- `update` assigns left to right, so later values win.

The order matters because the search breaks ties by enumeration order.

Modules:
- `Constants`: sizes and colours;
- `Options`: Python's `None`;
- `Dicts`;
- `Rules`;
- `BoardFacts`: counting lemmas;
- `MoveGenFacts` and `MoveGenExamples`: the move generator;
- `Pieces`;
- `Boards`;
- `Search`;
- `Games`;
- `Mouse`.

### Behaviour of the source worth knowing

The model reproduces each of these as the code has it.
- **Scan window.** The comment at `checkers/board.py:122` speaks of "three rows above". The scan's `range(row - 1, max(row - 3, -1), -1)` and its downward twin visit two rows: the neighbouring diagonal square and the one behind it. A chained scan likewise looks at most two rows past its landing (`MoveGenFacts.ScanFirstLanding`).
- **Stacked opponents.** Two opposing pieces one behind the other do not stop a scan (`checkers/board.py:183-185`). The second overwrites `last` and the loop goes on, but the two-row range is then used up, so the scan ends without a landing. In standard checkers such a pair cannot be jumped either, so the result agrees.
- **Chained captures.** A chained scan is given only the piece jumped just before (`skipped = last`, `checkers/board.py:174-175`), and it records `last + skipped`. A capture list therefore never has more than two entries (`MoveGenFacts.ScanFacts`, `MoveGenExamples.DoubleJump`). In a longer chain, `remove` would leave the earlier jumped pieces on the board, whereas standard checkers removes every piece jumped.
- **Tie-break.** After `maxEval = max(maxEval, evaluation)`, the test `if maxEval == evaluation` also holds when a later child only equals the best so far (`minimax/algorithm.py:33-37`, and `min` at `52-56`). Of equally good children the last one is chosen (`Search.PickLast`, `Search.TieGoesToLast`).
- **Row 0 and row 7.** After a jump, an upward chain stops at `max(r - 3, 0)`, which excludes row 0. A downward chain stops at `min(r + 3, ROWS)`, which includes row 7 (`checkers/board.py:165-171`). So no piece moving up can end a chained jump on row 0, while a piece moving down can end one on row 7 (`MoveGenFacts.UpwardScanIgnoresRowZero`, `MoveGenFacts.DownwardChainReachesLastRow`). Standard checkers treats both sides alike.

## Model

| member | source | states |
|---|---|---|
| Constants.Opponent | checkers/game.py:96-99 | the other side is never the same side |
| Dicts.Get | checkers/game.py:72 | `d[k]` is a value stored under `k` in the dictionary |
| Dicts.Put | checkers/board.py:157-160 | `d[k] = v`: the key list is unchanged when `k` was present, otherwise `k` is appended; `k` then maps to `v`; no other pair appears |
| Dicts.PutOtherKey | checkers/board.py:157-160 | assigning one key leaves the presence and value of every other key unchanged |
| Dicts.PutKeepsDistinct | checkers/board.py:157-160 | assignment keeps the keys distinct |
| Dicts.PutNew | checkers/board.py:157-160 | assigning a key that is not present appends the pair at the end |
| Dicts.UpdateMembers | checkers/board.py:123-131 | every pair of `d.update(e)` comes from `d` or from `e` |
| Dicts.UpdateKeys | checkers/board.py:123-131 | the keys of `d.update(e)` are exactly those of `d` and of `e` |
| Dicts.UpdateKeepsFirst | checkers/board.py:174-175 | `update` keeps the first key in first place |
| Dicts.UpdateKeepsDistinct | checkers/board.py:123-131 | `update` keeps the keys distinct |
| Dicts.UpdateGet | checkers/board.py:123-131 | later wins: after `d.update(e)` a key of `e` has `e`'s value and any other key keeps `d`'s |
| Dicts.UpdateNew | checkers/board.py:123-131 | updating with new, distinct keys appends the pairs in order |
| Rules.SetCell | checkers/board.py:31 | assigning one square changes that square only |
| Rules.MovePiece | checkers/board.py:29-42 | `movePiece`: the mover and the destination's content change places; landing on row 0 or 7 crowns the mover and adds one to its colour's king counter even when it was a king already; the `*Left` counters and every other square are unchanged |
| Rules.Remove | checkers/board.py:81-95 | `remove`: listed squares become empty, others keep their content, each `*Left` counter drops by the number of entries of its colour, and the king counters are unchanged |
| Rules.ApplyMoveFacts | minimax/algorithm.py:61-68 | after a move, the destination holds the (possibly crowned) mover unless it is listed, listed squares are empty, every other square is unchanged, the counters drop by each colour's entries, and the mover's king counter rises on rows 0 and 7 |
| Rules.WinnerOf | checkers/board.py:97-107 | `winner` is WHITE iff `blackLeft <= 0` (checked first), BLACK iff `blackLeft > 0` and `whiteLeft <= 0`, and None iff both are positive |
| BoardFacts.InitialPositionFacts | checkers/board.py:48-67 | the initial board has white men exactly on the squares with `col % 2 == (row + 1) % 2` of rows 0-2, black men on those of rows 5-7, rows 3-4 empty, 12 pieces a side, no kings, and counters that agree with the grid |
| BoardFacts.MovePieceKeepsCounts | checkers/board.py:29-42 | moving a piece, crowned or not, never changes how many pieces of each colour the grid holds |
| BoardFacts.MovePieceConsistent | checkers/board.py:29-42 | `movePiece` keeps each `*Left` counter equal to the number of pieces of its colour on the grid |
| BoardFacts.RemoveConsistent | checkers/board.py:81-95 | `remove` on distinct pieces that stand on the grid keeps each `*Left` counter equal to the count on the grid |
| BoardFacts.TallyTotal | checkers/board.py:85-95 | every listed piece is counted against exactly one colour |
| BoardFacts.RemoveTotal | checkers/board.py:81-95 | `remove` lowers the sum of the two `*Left` counters by exactly the length of the list |
| BoardFacts.SetCellCount | checkers/board.py:31 | setting one square changes a colour's count by what leaves and what arrives there |
| Boards.Board.constructor | checkers/board.py:7-15 | `__init__`: twelve pieces a side, no kings, the grid of `createBoard`, and a valid board standing for the initial position |
| Boards.Board.CreateBoard | checkers/board.py:48-67 | the nested append loops build exactly the initial grid out of fresh pieces |
| Boards.Board.GetPiece | checkers/board.py:44-45 | `getPiece` is `0` exactly on empty squares; otherwise it returns the board's piece standing there, whose colour and crown the model shows |
| Boards.Board.MovePiece | checkers/board.py:29-42 | the in-place swap, `piece.move` and crowning change the board exactly as `Rules.MovePiece`, and leave the piece on the destination |
| Boards.Board.Remove | checkers/board.py:81-95 | the loop of `remove` changes the board exactly as `Rules.Remove` |
| Boards.Board.RemovePiece | checkers/board.py:85-95 | one iteration of `remove` |
| Boards.Board.Winner | checkers/board.py:97-107 | `winner` read off the counters is the model's winner |
| Boards.Board.MoveLeft | checkers/board.py:137-190 | the `_moveLeft` loop with its column cursor and `last` returns `Rules.Scan` heading left; every grid read is in bounds |
| Boards.Board.MoveRight | checkers/board.py:192-245 | the `_moveRight` loop returns `Rules.Scan` heading right; every grid read is in bounds |
| Boards.Board.Landing | checkers/board.py:150-176 | the empty-square branch of either scanner: record the landing and, after a jump, merge the two chained scans |
| Boards.Board.GetValidMoves | checkers/board.py:110-133 | `getValidMoves` returns `Rules.ValidMoves` of the piece's square, colour and crown, and changes nothing |
| Boards.Board.AddDiagonalMoves | checkers/board.py:121-131 | one row direction of `getValidMoves`: both scanners merged into the map |
| Boards.Swap | checkers/board.py:31 | the tuple assignment exchanges two squares and leaves all others |
| MoveGenFacts.ScanFacts | checkers/board.py:137-245 | every destination of a scan is an empty square of the board in the scan's direction; capture lists hold one or two opposing pieces on different rows; only a first-level scan that jumped nothing records a plain move, on the square it looks at; a chained scan records two captures; upward chains never land on row 0; keys are distinct |
| MoveGenFacts.ScanFirstLanding | checkers/board.py:143-176 | a scan's first destination lies within its own range of two rows, so each chained scan looks at most two rows further in the same direction |
| MoveGenFacts.UpwardScanIgnoresRowZero | checkers/board.py:165-167 | an upward scan whose range stops at row 0 or above, which includes every upward chain, gives the same result whatever row 0 holds |
| MoveGenFacts.UpwardChainIgnoresRowZero | checkers/board.py:163-175 | the landing case of the same fact |
| MoveGenFacts.UpwardJumpIgnoresRowZero | checkers/board.py:183-185 | the jump case of the same fact |
| MoveGenFacts.DownwardChainReachesLastRow | checkers/board.py:169-175 | a downward chain after a landing on row 5 does jump to row 7 |
| MoveGenFacts.FirstScans | checkers/board.py:121-131 | the entries of both first-level scans of a row direction go that way; plain moves are one diagonal step |
| MoveGenFacts.MergeFacts | checkers/board.py:123-131 | merging the two scans keeps those facts and distinct keys |
| MoveGenFacts.AddDiagonalsFacts | checkers/board.py:121-131 | one row direction of `getValidMoves` satisfies them |
| MoveGenFacts.ValidMovesFacts | checkers/board.py:110-133 | every destination of `getValidMoves` is empty and on the board; a black man moves only to smaller rows and a white man only to larger; exactly the destinations one row away carry no captures, and those are a diagonal step away; captures are one or two distinct opposing pieces; keys are distinct; a king's destinations are those of both directions (soundness; `PlainStepFound` and `SingleJumpFound` give completeness) |
| MoveGenFacts.FirstScanKeys | checkers/board.py:137-190 | a first-level scan records only its diagonal neighbour, the square behind that on the same diagonal, or squares at least three rows out; its keys are distinct |
| MoveGenFacts.PlainScan | checkers/board.py:143-160 | a first-level scan whose diagonal neighbour is empty records exactly that square, with no captures |
| MoveGenFacts.JumpScan | checkers/board.py:143-185 | a first-level scan whose neighbour is an opposing piece with an empty square behind it records that square with the neighbour as its only capture; the chained scans do not overwrite it |
| MoveGenFacts.ChainLanding | checkers/board.py:150-176 | a landing after a jump records the jumped piece, and the chained scans add only squares further on |
| MoveGenFacts.DirectionFound | checkers/board.py:119-133 | what one row direction the piece may move in finds is in `getValidMoves` with the same captures; the other direction does not overwrite it |
| MoveGenFacts.PlainStepFound | checkers/board.py:110-133 | completeness for plain moves: every diagonal step onto an empty square in a row direction the piece may move in is a destination of `getValidMoves`, with no captures |
| MoveGenFacts.SingleJumpFound | checkers/board.py:110-133 | completeness for single jumps: every opposing diagonal neighbour with an empty square behind it, in a row direction the piece may move in, makes that square a destination whose captures are exactly that neighbour |
| MoveGenExamples.MergeInOrder | checkers/board.py:123-125 | merging two scans with no common destination concatenates them |
| MoveGenExamples.SingleCapture | checkers/board.py:110-133 | a black man on (5, 4) facing a white man on (4, 3) may jump to (3, 2) or step to (4, 5), in that order |
| MoveGenExamples.DoubleJump | checkers/board.py:137-245 | a black man on (7, 2) with white men on (6, 3) and (4, 5) may step to (6, 1), jump to (5, 4), or jump twice to (3, 6); the double jump lists the later capture first |
| MoveGenExamples.DoubleJumpMerge | checkers/board.py:174-175 | the three destinations of that board are kept in order by `update` |
| Pieces.Piece.constructor | checkers/piece.py:10-20 | a new piece stands on the given square with the given colour, is not a king, and its centre is (100·col + 50, 100·row + 50) |
| Pieces.Piece.CalculatePosition | checkers/piece.py:23-26 | the pixel centre matches the square; nothing else changes |
| Pieces.Piece.MakeKing | checkers/piece.py:28-29 | the piece is a king; nothing else changes |
| Pieces.Piece.Move | checkers/piece.py:44-47 | the piece is on the new square with a matching centre; colour and crown are unchanged |
| Search.SimulateMove | minimax/algorithm.py:61-68 | `simulateMove` changes the board it is given as `ApplyMove`, removing only when the list is non-empty, and leaves the piece on the destination |
| Search.ApplyMoveTotal | minimax/algorithm.py:61-68 | the child's total piece count is the parent's minus the length of the capture list |
| Search.PieceMoves | minimax/algorithm.py:78 | every move of a piece can be played: destination and captures are on the board, and the destination is empty |
| Search.CheckersMoves | minimax/algorithm.py:78 | the generator of the rules offers only playable moves onto empty squares of the board, and nothing for a square that holds no piece |
| Search.CheckersMovesSound | minimax/algorithm.py:78 | the generator of the rules is `getValidMoves` for every piece on every board, so the search's results hold for it |
| Search.GeneratesSound | minimax/algorithm.py:78 | a generator that agrees with `getValidMoves` yields playable moves |
| Search.Children | minimax/algorithm.py:81-89 | one board per entry of a piece's map |
| Search.ChildrenAt | minimax/algorithm.py:81-89 | board `j` of the inner loop is the board with entry `j` of the map played on it |
| Search.PlayEach | minimax/algorithm.py:81-89 | the inner loop appends exactly `Children` |
| Search.GetAllMoves | minimax/algorithm.py:71-91 | the loops of `getAllMoves` return exactly `AllMoves` |
| Search.AllMovesAppend | minimax/algorithm.py:76-89 | the boards of a list of pieces split anywhere are those of the two parts one after the other |
| Search.AllMovesSnoc | minimax/algorithm.py:76-89 | the last piece's boards come after those of the others |
| Search.AllMovesLayout | minimax/algorithm.py:76-89 | exactly one board per (piece, destination) pair, in piece order and then map order |
| Search.TallyOpposing | checkers/board.py:179-185 | captured pieces all count against the other side |
| Search.ApplyMoveConsistent | minimax/algorithm.py:61-68 | playing any valid move of a piece keeps both `*Left` counters equal to the pieces of their colour on the grid |
| Search.EntryConsistent | checkers/board.py:29-42 | a move along an entry with the properties of a valid move, followed by `remove` of its captures, keeps the counters equal to the grid |
| Search.CapturesSurvive | checkers/board.py:29-42 | moving a piece onto an empty square leaves every opposing piece where it stood, so the captures `remove` is given are still on the grid |
| Search.ChildLeft | minimax/algorithm.py:78-87 | a move costs the mover's side nothing and the other side exactly the captured pieces, at most two; counters that agreed with the grid still do |
| Search.AllMovesLeft | minimax/algorithm.py:71-91 | every board `getAllMoves` returns has as many pieces of the mover's side, at most two fewer of the other side, and counters that agree with the grid when the parent's did |
| Search.MaxScore | minimax/algorithm.py:33 | Python's `max` is an upper bound of both arguments and is one of them |
| Search.MinScore | minimax/algorithm.py:52 | Python's `min` is a lower bound of both arguments and is one of them |
| Search.Outcome | minimax/algorithm.py:12-58 | at depth 0 or with a winner the result is (evaluation, the position itself) |
| Search.PickEmpty | minimax/algorithm.py:24-26 | with no children the score stays at the sentinel (-inf for WHITE, +inf for BLACK) and the best board is None |
| Search.PickBound | minimax/algorithm.py:33 | the returned score is the maximum (WHITE) or minimum (BLACK) of the children's scores |
| Search.PickLast | minimax/algorithm.py:33-37 | the best board is the last child whose score equals the returned extreme |
| Search.TieGoesToLast | minimax/algorithm.py:35-37 | of two children with equal scores the second is chosen |
| Search.Minimax | minimax/algorithm.py:12-58 | `minimax` returns `Outcome`: the leaf evaluation, or the last best child of the side to move, scored by the recursive search with `depth - 1` and the flag flipped |
| Search.CheckersMinimax | minimax/algorithm.py:12-58 | the same for the rules' own move generator |
| Search.BestMove | minimax/algorithm.py:28-39 | the loop over the children computes `Pick` of the children's recursive scores |
| Games.Game.constructor | checkers/game.py:21-29 | `_init`: nothing selected, a fresh initial board, BLACK to move, no moves |
| Games.Game.Reset | checkers/game.py:35-36 | `reset` re-runs `_init` |
| Games.Game.Winner | checkers/game.py:31-32 | the game's winner is WHITE iff black has no piece left, else BLACK iff white has none, else None |
| Games.Game.GetBoard | checkers/game.py:102-103 | the game's board, which is valid |
| Games.Game.ChangeTurn | checkers/game.py:93-99 | clears the moves and flips the turn; flipping twice restores it |
| Games.Game.Move | checkers/game.py:64-82 | `_move` succeeds iff a piece is selected, the target is empty and a key of the moves; it then plays that entry as `ApplyMove`, leaving the mover of the old side on the target, and passes the turn, with the counters still agreeing with the grid; otherwise nothing changes |
| Games.Game.Play | checkers/game.py:68-78 | the successful branch of `_move`: move, remove the entry's captures, change the turn |
| Games.Game.Select | checkers/game.py:39-61 | a click that plays the selected piece returns False, keeps the moved piece selected and passes the turn; any other click drops the selection and returns True iff the square holds a piece of the side to move, which then becomes selected with its `getValidMoves`; otherwise nothing is selected and the old moves remain |
| Games.Game.SelectPiece | checkers/game.py:52-61 | the end of `select`: True iff the square holds a piece of the side to move, which becomes selected with its moves |
| Games.Game.AIMove | checkers/game.py:106-110 | `AImove` installs the given board, flips the turn and empties the moves; a board whose counters agree with its grid keeps the invariant |
| Games.MovesPlayable | checkers/game.py:70-76 | each capture list of a piece's moves is on the board and does not contain its destination |
| Games.PlayConsistent | checkers/game.py:68-78 | playing a move `getValidMoves` gave the selected piece keeps `whiteLeft` and `blackLeft` equal to the pieces on the grid |
| Games.Lands | checkers/game.py:52-54 | after a move the destination holds a piece of the mover's colour |
| Mouse.RowColFromMouse | main.py:11-17 | the result is the square whose pixels contain (x, y); in the 800×800 window it is on the board |
| Mouse.PixelsOfSquare | main.py:15-16 | every pixel of square (row, col) maps to that square |
| Mouse.CentreOfPiece | checkers/piece.py:23-26 | clicking a piece's drawn centre picks the piece's own square |

The functions that define the rules carry no contract of their own. Their meaning is stated by the lemmas about them:
- `Rules.Scan` models `_moveLeft` and `_moveRight` (`checkers/board.py:137-245`). `Boards.Board.MoveLeft` and `Boards.Board.MoveRight` are proved equal to it, and `MoveGenFacts.ScanFacts` characterises its entries.
- `Rules.AddDiagonals` (`checkers/board.py:121-131`) and `Rules.ValidMoves` (`checkers/board.py:110-133`) model `getValidMoves`. `MoveGenFacts.AddDiagonalsFacts` and `MoveGenFacts.ValidMovesFacts` state what they return, and `MoveGenFacts.PlainStepFound` and `MoveGenFacts.SingleJumpFound` state that the plain steps and single jumps are all there.
- `Rules.ApplyMove` models `simulateMove` (`minimax/algorithm.py:61-68`). `Rules.ApplyMoveFacts` gives its whole result and `Search.ApplyMoveConsistent` its counters.
- `Rules.RemoveOne` is one iteration of `remove` (`checkers/board.py:85-95`). `Rules.Remove` states the effect of the whole loop.
- `Rules.InitialCell` and `Rules.InitialPosition` are the board `createBoard` builds (`checkers/board.py:48-67`). `BoardFacts.InitialPositionFacts` describes it.
- `Rules.Winner` is `winner` on a position (`checkers/board.py:97-107`), through `Rules.WinnerOf`.
- `Search.AllMoves` models `getAllMoves` (`minimax/algorithm.py:71-91`). `Search.AllMovesLayout` and `Search.AllMovesLeft` say what it returns, and `Search.GetAllMoves` is proved equal to it.
- `Search.Scores` and `Search.Pick` are the loop of `minimax` (`minimax/algorithm.py:22-58`). `Search.PickBound`, `Search.PickLast` and `Search.PickEmpty` state what the loop computes. `Search.ScoreAt`, `Search.PickStep` and `Search.OutcomeInner` are one-step unfoldings of `Scores`, `Pick` and `Outcome` that those lemmas and `Search.Minimax` use.

`Games.Game.Valid` is the game's invariant, and every method of `Game` keeps it. The board is valid, its `whiteLeft` and `blackLeft` counters agree with the pieces on its grid (`Rules.Consistent`), and while a selected piece has moves, that piece stands on its own square, belongs to the side to move, and its moves are `Rules.ValidMoves` of that square. When `_move` fails, `select` sets `selected` to None and handles the click afresh (`checkers/game.py:45-61`). If that click selects nothing, `validMoves` keeps the moves of the piece that is no longer selected. The model does the same, so `Games.Game.Valid` demands nothing of the moves while no piece is selected.

## Left out

- Drawing, the window and the event loop are not modelled: `drawCheckerboard`, `draw`, `drawPiece` with `PADDING` and `OUTLINE`, `Game.update`, `drawValidMoves`, the `win` field, the crown image, `print`, `input` and the `main` loop. They are presentation with no state the rules read.
- `evaluateBoard` and `getAllPieces` are not defined in `checkers/board.py`, so they are parameters of the search:
  - `evaluate` maps a position to an integer;
  - `order` lists, for a position and a colour, squares holding pieces of that colour (`Search.ListsPieces`).
- The search's move generator (`board.getValidMoves`) is a parameter `gen`. Its maps must be playable. `Search.CheckersMoves` is the generator of the rules, and `Search.CheckersMinimax` runs the search with it.
- `deepcopy` becomes a value copy of the position. As a result, "`getAllMoves` leaves its board unchanged" holds by construction and is not a separate lemma. `tempBoard.getPiece(piece.row, piece.col)` becomes the piece's square.
- The `game` argument of `minimax`, `simulateMove` and `getAllMoves` is dropped: it is never used.
- The float sentinels `float('-inf')` and `float('inf')` become the `Score` values `NegInf` and `PosInf`. A side with no moves returns its sentinel, and the parent's `max`/`min` compares it like a float.
- Capture lists hold `Piece` references in the source, but `remove` reads only row, col and colour, so they are `Jumped(row, col, colour)`. The `if piece != 0` test in `remove` is always true for such entries.
- Games.Game.AIMove: takes a board object, while `Search.Minimax` returns a position value. Building a `Board` object for a position is not modelled. The board must have counters that agree with its grid, which every board `getAllMoves` builds from a consistent one has (`Search.AllMovesLeft`).
- Games.Game.Select: requires 0 ≤ row, col < 8. Python would wrap negative indices or fail on larger ones, but `Mouse.RowColFromMouse` never produces such squares inside the window.
- `Rules.AddDiagonals` computes both scans of a direction before merging them, whereas the source merges each one as it returns. The scans only read the grid, so the result is the same.
- `Search.Outcome` and `Search.Minimax` take `depth` as a natural number. For a negative depth the test `depth == 0` (`minimax/algorithm.py:13`) never fires, and the Python recursion would end only at a winner or at a side with no moves. No caller passes a negative depth.
- MoveGenFacts.ValidMovesFacts: its converse is proved for plain steps and single jumps (`MoveGenFacts.PlainStepFound`, `MoveGenFacts.SingleJumpFound`) but not for chained jumps. Which chains are found depends on the two-row windows described above, so no simple rule states it; `MoveGenExamples.DoubleJump` shows one on a concrete board.
