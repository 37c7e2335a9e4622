# EnhancedChessGame: rules core and computer opponent in Dafny

This project models the playing core of EnhancedChessGame, a two-player chess
game with a computer opponent, and proves properties of that model. It covers
four parts:

- **Move rules.** `Pieces` holds the per-kind destination generators
  (`possible_moves` of pawn, knight, bishop, rook, queen and king) and
  `Piece.move`.
- **Move enumeration.** `Moves` holds the whole-move enumeration of one colour
  (`_get_all_moves`) and the board after a move (`_simulate`).
- **Computer opponent.** `Evaluation` holds the static evaluation
  (`evaluate_board`) and the check test (`_king_in_check`). `Search` holds
  depth-limited minimax with alpha-beta pruning (`_minimax`, `compute_move`).
- **Board and game.** `Boards` holds the board object (`initialize_board`,
  `get_board_pos`). `Games` holds the click-driven turn protocol
  (`Game.__init__`, `start_game`, `process_input`). `Opening` counts white's
  moves in the opening position.

Code that updates state step by step keeps that form. Every generator, the
search, the evaluation, the board set-up and `process_input` are methods over
the live 8x8 array (`array2<Option<Piece>>`). The `AIPlayer`, `Board` and
`Game` classes keep their source fields. Each method is proved against a
function on an immutable snapshot of the board (`Grid`, linked to the array
by `Cells`), and the properties of the game are proved about those functions.

Main results:

- **Alpha-beta soundness.** `Search.AIPlayer.ComputeMove` reports exactly the
  score and move of `RootChoice`, the root loop fed with unpruned minimax
  values. `Search.RootIsMinimax` shows what that choice is:
  - no move exactly when the player has no pseudo-legal move;
  - otherwise the minimax value of the position;
  - and the first move in enumeration order that reaches it.

  Inside the search, `Search.AIPlayer.Minimax` is fail-soft against plain
  minimax (`Value`). A result inside the window is exact; one at or beyond a
  bound is a bound on the true value.
- **The human and the computer use one move generator.** From a consistent
  selection, the second click is accepted exactly when (origin, destination)
  is one of the moves `_get_all_moves` lists for the side to move. The board
  after it is the one `_simulate` produces.

The model follows the code rather than an idealised chess engine. Neither
player has a legality filter, so moves that leave the own king attacked are
generated, and a king can be captured. There is no castling, promotion, en
passant, or checkmate and stalemate detection: `state` is set to "ongoing"
once and never changes. Only pawns carry a moved flag.

Conventions:

- **Scores** are exact integers in hundredths of a pawn: pawn 100,
  knight 300, bishop 300, rook 500, queen 900, king 100000, centre bonus 10,
  mobility 5 per move of difference, check bonus 50. The search's infinities
  are the `ExtInt` values `NegInf` and `PosInf`.
- **Colours** are the datatype `Color`, in place of the strings
  "white"/"black".
- **Python behaviour** is written out where it matters:
  - `//` is `FloorDiv`, rounding toward negative infinity;
  - `board_state[row][col]` with negative indices counts from the end
    (`PyIndex`);
  - the exceptions a click can raise are returned as a `Failure` value, with
    the state as it was when they are raised.

## Model

| member | source | states |
|---|---|---|
| Pieces.MoveTo | classes/piece.py:8-9 | `Piece.move` records the new square and keeps kind and colour |
| Pieces.PawnTargets | classes/piece.py:26-59 | a square is a pawn destination exactly when it is one step forward onto an empty square, two steps for an unmoved pawn with both squares empty, or one diagonal step forward onto an opposing piece; white moves toward row 0, black toward row 7 |
| Pieces.PawnPossibleMoves | classes/piece.py:26-59 | the pawn generator on the live board returns exactly `PawnTargets`, in the generator's order |
| Pieces.Leaps | classes/piece.py:65-80 | a fixed-offset move list has at most one square per offset, and a square is in it exactly when it is an offset away, on the board and not held by an own piece |
| Pieces.LeapMoves | classes/piece.py:71-80 | the offset loop of the knight and the king returns exactly `Leaps`, in offset order |
| Pieces.KnightTargetsAreLShaped | classes/piece.py:65-80 | knight destinations are exactly the enterable squares an L-shape away, at most 8 of them |
| Pieces.KnightOffset | classes/piece.py:69-70 | the eight knight offsets reach exactly the L-shaped squares |
| Pieces.KingTargetsAreAdjacent | classes/piece.py:198-220 | king destinations are exactly the enterable squares at Chebyshev distance 1, so the origin and castling squares never appear |
| Pieces.KingOffset | classes/piece.py:201-210 | the eight king offsets reach exactly the squares at Chebyshev distance 1 |
| Pieces.RayEnterable | classes/piece.py:93-104 | every square of a slide is on the board and not held by an own piece |
| Pieces.RaysEnterable | classes/piece.py:90-104 | the same for the slides along a list of directions |
| Pieces.RayIsLine | classes/piece.py:91-104 | the i-th square of a slide is the (i+1)-th square along its direction |
| Pieces.RayCrossesEmpty | classes/piece.py:93-102 | every square of a slide before the last is empty, so a slide never jumps a piece |
| Pieces.RayStops | classes/piece.py:93-102 | a slide stops at the edge or before an own piece, or ends on the first piece when it is an opponent |
| Pieces.Targets | classes/piece.py:17-220 | every destination of every kind is on the board, never holds an own piece, and is never the piece's own square |
| Pieces.SlideRay | classes/piece.py:91-104 | the `while` loop along one direction returns exactly that direction's slide |
| Pieces.SlideMoves | classes/piece.py:86-105 | the bishop and queen generators return exactly the slides along their directions, in direction order |
| Pieces.RayStep | classes/piece.py:94-102 | one loop turn on an empty square, an opponent or an own piece extends the moves as the slide does |
| Pieces.RookLeft | classes/piece.py:116-125 | the rook's leftward loop returns exactly the leftward slide |
| Pieces.RookRight | classes/piece.py:127-136 | the rightward loop returns exactly the rightward slide |
| Pieces.RookUp | classes/piece.py:138-147 | the upward loop returns exactly the upward slide |
| Pieces.RookDown | classes/piece.py:149-158 | the downward loop returns exactly the downward slide |
| Pieces.RookPossibleMoves | classes/piece.py:112-160 | the rook generator returns exactly the slides left, right, up and down, in that order |
| Pieces.RookRays | classes/piece.py:112-160 | the four rook loops together are the slides along the rook's directions |
| Pieces.FourRays | classes/piece.py:112-160 | the slides along four directions are the four single slides concatenated |
| Pieces.RaysAppend | classes/piece.py:169-191 | the slides along two direction lists put together are the two slide lists concatenated |
| Pieces.QueenIsRookAndBishop | classes/piece.py:169-191 | a square is a queen destination exactly when it is a rook or bishop destination from the same square |
| Pieces.PossibleMoves | classes/piece.py:17-220 | dispatching on the kind, `possible_moves` returns exactly `Targets` |
| Moves.Pairs | classes/ai_player.py:72-73 | pairing an origin with its destinations keeps their number and pairs that origin with exactly those destinations |
| Moves.MovesFromExact | classes/ai_player.py:70-73 | the moves from one square are exactly the pseudo-legal moves starting there |
| Moves.RowMovesExact | classes/ai_player.py:69-73 | the moves of a row prefix are exactly the pseudo-legal moves from those squares |
| Moves.MovesBeforeExact | classes/ai_player.py:68-73 | the moves of the first r rows are exactly the pseudo-legal moves from those rows |
| Moves.AllMovesExactInRowMajorOrder | classes/ai_player.py:66-74 | `_get_all_moves` lists exactly the pseudo-legal moves of the colour, origins in row-major order |
| Moves.RowMovesRowMajor | classes/ai_player.py:69-73 | the moves of a row prefix have origins in that row prefix, in order |
| Moves.MovesBeforeRowMajor | classes/ai_player.py:68-73 | the moves of the first r rows have origins in those rows, in row-major order |
| Moves.AllMovesCanApply | classes/ai_player.py:66-82 | every enumerated move can be carried out by `_simulate` |
| Moves.ApplyMove | classes/ai_player.py:76-85 | after a move the destination holds the moved piece with its new position, the origin is empty, every other square is unchanged, and positions still match squares |
| Moves.ApplyMoveKeepsIdentity | classes/ai_player.py:82-84 | the moved piece keeps its colour and kind, and only a pawn has its first-move flag cleared |
| Evaluation.KingInRow | classes/ai_player.py:141-145 | the column scan finds the first king of the colour in the row, and none exists before it |
| Evaluation.KingFromRow | classes/ai_player.py:140-146 | the row scan finds the first king of the colour in row-major order, or reports that there is none |
| Evaluation.AttackedMeansSomeMoveLands | classes/ai_player.py:150-156 | a square is attacked exactly when some pseudo-legal move of the attacker lands on it |
| Evaluation.NoKingNoCheck | classes/ai_player.py:147-148 | with no king of the colour on the board, the colour is not in check |
| Evaluation.SoleKingInCheck | classes/ai_player.py:137-156 | with a single king, the colour is in check exactly when an opposing pseudo-legal move lands on the king's square |
| Evaluation.EvalCountsMoves | classes/ai_player.py:119-128 | the mobility term is 5 times the difference between the two sides' numbers of pseudo-legal moves |
| Evaluation.ScoreAntisymmetric | classes/ai_player.py:107-117 | material and centre scores of the two sides are opposite |
| Evaluation.EvalZeroSum | classes/ai_player.py:87-135 | the two sides' evaluations sum to the check bonuses alone |
| Boards.FloorDiv | classes/board.py:95-96 | Python's `//`: the quotient rounded toward negative infinity, for either sign of divisor |
| Boards.InitialBoard | classes/board.py:46-79 | the opening position: positions match squares, rows 2-5 empty, unmoved pawns on rows 1 and 6, both back ranks in the order of the set-up |
| Boards.InitialSides | classes/board.py:46-79 | in the opening position each colour holds exactly its two home rows and has exactly one king, which the king search finds |
| Boards.Board.constructor | classes/board.py:7-12 | a new board keeps its pixel size, its square size is the width divided by 8 rounded down (eight squares fit the width with at most 7 pixels to spare), and its 8x8 array is empty |
| Boards.Board.InitializeBoard | classes/board.py:46-79 | `initialize_board` replaces the array by a fresh one holding the opening position, and changes nothing else |
| Boards.Board.GetBoardPos | classes/board.py:93-97 | `get_board_pos` gives the square whose pixel span contains the pointer, on the board for every pixel of the 8x8 area |
| Search.Children | classes/ai_player.py:49-51 | there is one child value per move |
| Search.ValueAtLeaf | classes/ai_player.py:39-45 | minimax is the evaluation at depth 0 and when the side to move has no move |
| Search.ValueIsBestChild | classes/ai_player.py:47-64 | the minimax value of a position with moves is the best of its children's values for the side to move, and one child attains it |
| Search.ExtremeIsBest | classes/ai_player.py:47-64 | the folded `max`/`min` is the maximum/minimum of the list and is attained |
| Search.MaxStep | classes/ai_player.py:49-54 | one turn of the maximizing loop keeps its invariant, or the cut-off result is fail-soft for the node |
| Search.MaxDone | classes/ai_player.py:49-55 | after the last child the maximizing loop's result is fail-soft for the node |
| Search.MinStep | classes/ai_player.py:58-63 | one turn of the minimizing loop keeps its invariant, or the cut-off result is fail-soft for the node |
| Search.MinDone | classes/ai_player.py:58-64 | after the last child the minimizing loop's result is fail-soft for the node |
| Search.RootFoldFindsFirstBest | classes/ai_player.py:24-29 | the root loop yields NegInf and no move for no moves, else the largest value and the first move attaining it |
| Search.RootStep | classes/ai_player.py:24-32 | a fail-soft result in the window (best so far, PosInf) updates the best value and move as the true value would |
| Search.RootIsMinimax | classes/ai_player.py:16-36 | `compute_move` on unpruned values returns None exactly when there is no move, otherwise the position's minimax value and the first move reaching it |
| Search.AIPlayer.constructor | classes/ai_player.py:7-10 | a new player keeps its colour and difficulty (3 when not given) and starts with score 0 |
| Search.AIPlayer.GetAllMoves | classes/ai_player.py:66-74 | `_get_all_moves` on the live board returns exactly `AllMoves` |
| Search.AIPlayer.GetRowMoves | classes/ai_player.py:69-73 | the column loop returns exactly the moves of the row |
| Search.AIPlayer.GetSquareMoves | classes/ai_player.py:70-73 | the body for one square returns exactly the moves from that square |
| Search.AIPlayer.PairWith | classes/ai_player.py:72-73 | the destination loop pairs the origin with each destination, in order |
| Search.AIPlayer.Simulate | classes/ai_player.py:76-85 | `_simulate` returns a fresh board equal to `ApplyMove` of its input, which it leaves unchanged |
| Search.AIPlayer.CopyBoard | classes/ai_player.py:77 | the copy is a fresh array with the same cells |
| Search.AIPlayer.MovePiece | classes/ai_player.py:78-84 | on the copy, the origin is emptied and the destination gets the moved piece; every other cell is unchanged |
| Search.AIPlayer.KingInCheck | classes/ai_player.py:137-156 | `_king_in_check` is false with no king and otherwise tells whether an opposing piece has the king's square among its destinations |
| Search.AIPlayer.FindKingSquare | classes/ai_player.py:139-146 | the king search returns the first king of the colour in row-major order |
| Search.AIPlayer.FindKingInRow | classes/ai_player.py:141-145 | the column loop returns the first king of the colour in the row |
| Search.AIPlayer.IsAttacked | classes/ai_player.py:151-156 | the attack search answers whether some attacker piece has the square among its destinations |
| Search.AIPlayer.RowAttacks | classes/ai_player.py:152-155 | the column loop answers that question for one row |
| Search.AIPlayer.SquareAttacks | classes/ai_player.py:153-155 | one square attacks the king exactly when (square, king) is a pseudo-legal move of the attacker |
| Search.AIPlayer.EvaluateBoard | classes/ai_player.py:87-135 | `evaluate_board` returns `Eval` of the board for the player's colour |
| Search.AIPlayer.EvaluateRow | classes/ai_player.py:104-124 | the column loop returns the row's material and centre score and both sides' move counts |
| Search.AIPlayer.Minimax | classes/ai_player.py:38-64 | `_minimax` is fail-soft against plain minimax: exact inside the window, a bound at or beyond it at an inner node, and exactly the evaluation at depth 0 or when the side to move has no move, whatever the window |
| Search.AIPlayer.Expand | classes/ai_player.py:47-64 | a node with moves is searched by the loop of its side, with a fail-soft result for the node |
| Search.AIPlayer.LeafValue | classes/ai_player.py:39-45 | at depth 0 and at a node without moves the result is the minimax value |
| Search.AIPlayer.SearchChild | classes/ai_player.py:50-51 | searching the position after one move is fail-soft for that child's value |
| Search.AIPlayer.MaxNode | classes/ai_player.py:47-55 | the maximizing loop with its beta cut-off is fail-soft for the best child value |
| Search.AIPlayer.MinNode | classes/ai_player.py:56-64 | the minimizing loop with its alpha cut-off is fail-soft for the worst child value |
| Search.AIPlayer.ComputeMove | classes/ai_player.py:16-36 | `compute_move` stores and returns exactly the score and move of the unpruned root choice; see `RootIsMinimax` |
| Search.AIPlayer.SearchRoot | classes/ai_player.py:24-33 | the pruned root loop yields the same best value and first best move as the root loop on true values |
| Games.PyIndex | classes/game.py:48 | Python indexing of a row of 8 succeeds exactly for -8..7 and reads square i or i+8 |
| Games.PySquare | classes/game.py:48-53 | `board_state[row][col]` reads a square of the board, the same square when the pair is on the board |
| Games.Click | classes/game.py:44-73 | a raised exception changes nothing; the first click changes neither board nor turn; a second click that does not raise clears the selection |
| Games.Step | classes/game.py:41-44 | events other than a mouse press change nothing; a zero square size raises ZeroDivisionError and changes nothing |
| Games.FirstClick | classes/game.py:46-50 | the first click selects exactly a square holding a piece of the side to move, and fails only on a pixel Python cannot index |
| Games.PlayIsApplyMove | classes/game.py:55-65 | the accepted move's board writes give the board `_simulate` would, with positions still matching squares |
| Games.ClickKeepsPlaced | classes/game.py:46-73 | no click breaks the position-matches-square invariant |
| Games.SecondClick | classes/game.py:51-73 | from a consistent selection the second click never raises; it moves and passes the turn exactly for a pseudo-legal move of the side to move, otherwise it changes only the selection |
| Games.StepKeepsConsistent | classes/game.py:41-73 | every event keeps the board well placed and the selection on a piece of the side to move |
| Games.Game.constructor | classes/game.py:7-14 | a new game has white to move, state "ongoing", no selection and an empty board whose square size is the width divided by 8 rounded down |
| Games.Game.StartGame | classes/game.py:16-17 | `start_game` sets up the opening position in a fresh array and keeps the board's pixel and square sizes, the side to move and the selection |
| Games.Game.ProcessInput | classes/game.py:41-73 | `process_input` leaves the board, side to move and selection `Step` gives, keeps the board well placed, and never changes `state`, `width` or `height` |
| Games.Game.Select | classes/game.py:46-50 | the first click leaves the state `Click` gives: it selects the square exactly when it holds a piece of the side to move, and raises IndexError when Python cannot index it |
| Games.Game.MoveSelected | classes/game.py:51-73 | the second click leaves the state `Click` gives: a move to one of the selected piece's destinations is played and the turn passes, the selection is dropped either way; a selected square that `start_game` emptied raises AttributeError, and one that now holds a piece, of either colour, plays that piece's move |
| Games.Game.Play | classes/game.py:60-65 | the board writes of an accepted move: destination gets the moved piece, then the origin is emptied |
| Opening.KnightOpening | classes/board.py:51-77 | each white knight has 2 moves in the opening position |
| Opening.PawnOpening | classes/board.py:66-67 | each white pawn has 2 moves in the opening position |
| Opening.BackOpening | classes/board.py:69-78 | white's rooks, bishops, queen and king have no move in the opening position |
| Opening.UpperOpening | classes/board.py:49-65 | rows 0 to 5 contribute no white move |
| Opening.WhiteOpening | classes/board.py:46-79 | white has exactly 20 pseudo-legal moves in the opening position |

## Left out

- Rendering, images and the window (`load_assets`, `draw_board`, `update_game`, classes/ui.py): pygame I/O. A missing image ends the program in `load_assets`; that exit is not modelled.
- The main event loop, `visualizations.py` and the `print` diagnostics: I/O.
- The pointer position, which `process_input` reads from pygame, is a parameter of the event.
- Timing in the computer player (`time.time()`, `ai_decision_time`): wall-clock measurement.
- Floating-point scores and `math.inf`: modelled as exact integers in hundredths and the `ExtInt` infinities. The scaled evaluation orders positions as the float one does, up to float rounding.
- Search.AIPlayer.ComputeMove: requires a difficulty level of at least 1. With depth 0 or less the source's recursion never reaches its `depth == 0` base case.
- Search.AIPlayer.Minimax: at an inner node its contract is the fail-soft relation to plain minimax, not equality. There a pruned result at or beyond the window is only a bound, as in the source. At depth 0 and at a node without moves it states equality.
- `copy.deepcopy` is a fresh array copy. Pieces are values, so a piece object shared between two squares or boards (aliasing) is not modelled; in the source no two squares share a piece.
- The stub `validate_move` and `capture`, and `image_key`: no behaviour.
- Legality filter, castling, promotion, en passant, checkmate and stalemate: the source has none of them, so the model has none either. `state` is never updated after the constructor sets it to "ongoing".
- Each loop of the source is its own method (for example one method per rook direction, per row, per square). The loops and their order are the source's.
- The game's `screen` argument and the board's image table: drawing only.
