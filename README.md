# Board of a 10x10 disc-flipping game, verified in Dafny

This project models the `Board` class of `othello.py`. The class keeps a
10x10 board as a flat list of 100 cells. Cell (x, y) is `state[x + y * 10]`.
It holds 1 or -1 (the two players) or 0 (empty). The class offers these
operations:

- the starting layout (`__init__`);
- the disc differential (`evaluate`);
- a deep copy (`copy`);
- bounds-checked cell access (`index`, which returns -2 off the grid);
- the legality test (`can_place`);
- playing a move with its flips (`place`);
- the list of legal moves (`valid_moves`);
- the end-of-game test (`end`).

The project has four modules:

- `Rules` (rules.dfy) states the rules as pure functions on the cell list:
  - `RunEnd` is the scan along one of the eight directions, in the code's order;
  - `Captures` is a capture in one direction;
  - `Legal` is legality;
  - `Play` is the board after a move, with all flips applied at once;
  - `FlipRun` and `FlipDirs` are the code's own one-direction-at-a-time order.

  Its lemmas tie these readings together.
- `Counting` (counting.dfy) defines disc counts, the score, and how a move
  changes them.
- `Othello` (board.dfy) holds the class `Board` over an `array<int>`. Every
  method and loop is proved against the `Rules` functions. It also holds
  `FlipWalk`, the in-place flip loop, and the order in which `valid_moves`
  lists moves.
- `Opening` (opening.dfy) computes the first player's moves on the starting
  board.

Player ids are 1 and -1, as the comment on `can_place` requires (see "Left
out").

## Model

| member | source | states |
|---|---|---|
| Othello.Initial | othello.py:8-13 | the starting board is well formed: 100 cells, each in {1, -1, 0} |
| Othello.Board.constructor | othello.py:8-13 | a fresh array of 100 cells holding the starting board: 1 at 44 and 55, -1 at 45 and 54, 0 elsewhere |
| Opening.InitialCell | othello.py:8-13 | on the starting board, (4,4) and (5,5) hold 1, (5,4) and (4,5) hold -1, every other cell on the grid is empty, and positions off the grid read -2 |
| Othello.Board.Evaluate | othello.py:17-24 | the returned value is the number of 1s minus the number of -1s, and it lies in [-100, 100] |
| Counting.ScoreBounds | othello.py:17-24 | the disc differential of any 100-cell board lies in [-100, 100] |
| Counting.CountBoth | othello.py:17-24 | cells holding 1 and cells holding -1 together number at most the cells counted |
| Othello.Board.Copy | othello.py:28-32 | the result is a new board with a new cell array (no aliasing) holding the same 100 cells |
| Othello.Board.Index | othello.py:35-40 | returns the cell at (x, y) when 0 <= x, y < 10, and -2 exactly when (x, y) is off the grid |
| Othello.Board.CanPlace | othello.py:43-73 | true iff (x, y) is on the grid and empty and some direction captures (Legal); a true answer implies the cell is empty |
| Othello.Board.ScanFrom | othello.py:59-71 | one direction of the test: true iff the neighbour holds the opponent's disc and the opponent's run ends on id's own disc |
| Othello.Board.SkipRun | othello.py:66-68 | the walk over the opponent's discs stops at the first position that does not hold one (RunEnd), which may be off the grid |
| Rules.RunEnd | othello.py:66-68 | the scan over the opponent's run ends on a position that does not hold the opponent's disc |
| Rules.Dir | othello.py:48-57 | each of the eight scanning directions, in the code's order, is a unit step other than (0, 0) |
| Rules.CapturesIff | othello.py:59-71 | a direction captures iff some n >= 1 opponent discs follow (x, y) and id's disc comes next (reference reading by step count) |
| Rules.CapturesBracket | othello.py:59-71 | a capture found by the scan gives such a bracketed run of n >= 1 opponent discs |
| Rules.BracketCaptures | othello.py:59-71 | a bracketed run of n >= 1 opponent discs is found by the scan |
| Othello.Board.Place | othello.py:77-109 | the new board is Play of the old one: an illegal move changes nothing; a legal one writes id at (x, y) and on every flipped disc; the board stays well formed |
| Othello.Board.CaptureAlong | othello.py:94-109 | one pass of the direction loop: the board becomes FlipRun of the board it saw (the run flips only if that direction captures) and stays well formed |
| Othello.FlipWalk | othello.py:105-109 | the loop that walks back from the neighbour to the closing disc sets every visited cell to id and changes nothing else (Walk) |
| Rules.WalkIsFlipRun | othello.py:105-109 | for a capturing direction, that walk flips exactly the opponent's run and nothing else |
| Rules.PlaceStepsArePlay | othello.py:77-109 | writing (x, y) and then running the eight passes in order, each on the current board, gives the board where all flips happen at once |
| Rules.OriginWriteKeepsScans | othello.py:82-104 | writing the played cell first changes no direction's capture or run |
| Rules.FlipKeepsOtherScans | othello.py:94-109 | flipping one direction's run changes no other direction's capture or run: the eight rays share no cell |
| Rules.CapturesAgree | othello.py:94-104 | boards that agree on the sector of a direction agree on whether that direction captures |
| Rules.InRunAgrees | othello.py:94-104 | boards that agree on the sector of a direction have the same run in it |
| Rules.PlayChanges | othello.py:77-109 | a legal move writes id on the empty cell (x, y), turns only opponent discs into id, and turns at least one |
| Rules.FlippedWasOpponent | othello.py:104-109 | every flipped cell is on the grid and held the opponent's disc |
| Rules.PlayFlipsSome | othello.py:104-109 | a legal move flips at least one opponent disc |
| Rules.PlayWf | othello.py:77-109 | a move keeps every cell in {1, -1, 0} |
| Counting.PlayCounts | othello.py:77-109 | a legal move flipping f discs has f >= 1; empty cells drop by 1, the mover gains 1 + f, the opponent loses f, and the score moves by 1 + 2f towards the mover |
| Othello.Board.ValidMoves | othello.py:112-118 | returns LegalMoves: the legal cells in the order of the x-then-y double loop |
| Othello.LegalMovesSpec | othello.py:112-118 | that list holds exactly the legal cells on the grid, each empty, in strictly increasing x*10+y order, so without repetition |
| Othello.ListedMembers | othello.py:114-117 | after the loops reach (x, y), the list holds exactly the passing cells that come before (x, y) |
| Othello.ListedSorted | othello.py:114-117 | the list the loops build is in strictly increasing x*10+y order |
| Othello.Board.End | othello.py:136-137 | true iff no cell holds 0; a true answer implies that neither player has a legal move |
| Counting.CountZero | othello.py:136-137 | no cell holds v exactly when the count of v is zero |
| Othello.FullBoardHasNoMoves | othello.py:136-137 | on a board with no empty cell, valid_moves is empty for both players |
| Opening.OpeningCapture | othello.py:43-73 | on the starting board, a direction that captures for player 1 starts from (3,5), (4,6), (5,3) or (6,4) |
| Opening.OpeningLegal | othello.py:43-73 | on the starting board, player 1 may place exactly at (3,5), (4,6), (5,3) and (6,4) |
| Opening.OpeningValidMoves | othello.py:112-118 | on the starting board, valid_moves(1) is [(3,5), (4,6), (5,3), (6,4)] in this order |
| Othello.PlayOnCopy | othello.py:156-158 | playing on a copy gives the copy the board after the move and leaves the original's cells unchanged |

## Left out

- `game()` is not modelled: it is the random driver, with console input and printing. Only its copy-then-place step is modelled, as `PlayOnCopy`.
- `print_board` is not modelled: it only prints text.
- Player ids are restricted to 1 and -1 by a precondition, as the comment on `can_place` asks. With id 2 the source's scan would loop forever off the grid, because off-grid cells read -2.
- `Othello.Board.End` follows the code. The game ends when the board is full, not when neither player can move. On a board with empty cells but no legal moves, `game()` keeps passing the turn.
- `Othello.Board.ValidMoves` states its result as `LegalMoves`. Membership, order and emptiness of the listed cells are stated by `Othello.LegalMovesSpec` about that function.
- Python list semantics beyond what the class uses (negative indices, growth) are not modelled. The cell list is a fixed array of 100 integers.
- Integers are unbounded in both Python and Dafny, so no overflow arises.
