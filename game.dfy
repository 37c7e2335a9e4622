/** The game object: who is to move, which square the player has picked,
    and the two-click protocol of `process_input` (pick one of your own
    pieces, then click one of its destinations). The clicks are specified
    by `Step` on immutable states; `Game.ProcessInput` carries them out on
    the live board. */
module Games {
  import opened Pieces
  import opened Moves
  import opened Boards

  /** The events `process_input` tells apart: a mouse-button press, with the
      pointer position (x, y) in pixels at that moment, and anything else. */
  datatype Event = MouseButtonDown(mouse: (int, int)) | OtherEvent

  /** The Python exceptions a click can raise; each leaves the state as it
      was when it is raised. */
  datatype Failure = ZeroDivisionError | IndexError | AttributeError

  /** What a click reads and writes: the board, the side to move, and the
      selection as the raw (row, column) pair computed from the pixel. */
  datatype GameState = GameState(board: Grid, active: Color, selected: Option<(int, int)>)

  /** Python indexing into a list of 8: -8..-1 count from the end, anything
      else outside 0..7 raises IndexError. */
  function PyIndex(i: int): (j: Option<int>)
    ensures j.Some? <==> -8 <= i < 8
    ensures j.Some? ==> 0 <= j.value < 8 && (j.value == i || j.value == i + 8)
  {
    if 0 <= i < 8 then Some(i) else if -8 <= i < 0 then Some(i + 8) else None
  }

  /** The square `board_state[row][col]` reads, if the indexing succeeds. */
  function PySquare(rc: (int, int)): (sq: Option<Square>)
    ensures sq.Some? ==> OnBoard(sq.value)
    ensures OnBoard(rc) ==> sq == Some(rc)
  {
    match (PyIndex(rc.0), PyIndex(rc.1))
    case (Some(r), Some(c)) => Some((r, c))
    case _ => None
  }

  /** The board with `v` on `sq` and every other square as before. */
  function Put(b: Grid, sq: Square, v: Option<Piece>): (r: Grid)
    requires IsGrid(b) && OnBoard(sq)
    ensures IsGrid(r)
    ensures forall x :: OnBoard(x) ==> At(r, x) == if x == sq then v else At(b, x)
  {
    b[sq.0 := b[sq.0][sq.1 := v]]
  }

  /** The accepted second click: the destination receives the selected
      piece with its new position (a pawn losing its first-move flag), then
      the origin is emptied. */
  function PlayOnBoard(b: Grid, src: Square, dst: Square): Grid
    requires IsGrid(b) && OnBoard(src) && OnBoard(dst) && At(b, src).Some?
  {
    Put(Put(b, dst, Some(Relocated(At(b, src).value, dst))), src, None)
  }

  /** One click on the square (row, col) = `rc`. With nothing selected, the
      square is selected if it holds a piece of the side to move. With a
      selection, the click is a move if `rc` is one of the selected piece's
      destinations, and the selection is dropped either way. */
  function Click(s: GameState, rc: (int, int)): (r: (Option<Failure>, GameState))
    requires Placed(s.board)
    ensures r.0.Some? ==> r.1 == s
    ensures r.0.None? && s.selected.Some? ==> r.1.selected.None?
    ensures s.selected.None? ==> r.1.board == s.board && r.1.active == s.active
  {
    var b := s.board;
    if s.selected.None? then
      match PySquare(rc)
      case None => (Some(IndexError), s)
      case Some(sq) =>
        if HoldsColor(b, sq, s.active) then (None, s.(selected := Some(rc))) else (None, s)
    else
      match PySquare(s.selected.value)
      case None => (Some(IndexError), s)
      case Some(src) =>
        match At(b, src)
        case None => (Some(AttributeError), s)
        case Some(p) =>
          if rc in Targets(b, p) then
            (None, GameState(PlayOnBoard(b, src, rc), Opponent(s.active), None))
          else
            (None, s.(selected := None))
  }

  /** `process_input` on an event, for a board whose squares are `size`
      pixels wide: only a mouse press does anything, and it clicks on the
      square `get_board_pos` computes from the pointer position. */
  function Step(s: GameState, e: Event, size: int): (r: (Option<Failure>, GameState))
    requires Placed(s.board)
    ensures e.OtherEvent? ==> r == (None, s)
    ensures e.MouseButtonDown? && size == 0 ==> r == (Some(ZeroDivisionError), s)
  {
    match e
    case OtherEvent => (None, s)
    case MouseButtonDown(mouse) =>
      if size == 0 then (Some(ZeroDivisionError), s)
      else Click(s, (FloorDiv(mouse.1, size), FloorDiv(mouse.0, size)))
  }

  // ---------------------------------------------------------------------
  // Properties of a click

  /** The first click selects exactly a square holding a piece of the side
      to move; it fails only when the pixel lies beyond the 8 rows or
      columns Python can index. */
  lemma FirstClick(s: GameState, rc: (int, int))
    requires Placed(s.board) && s.selected.None?
    ensures var (failure, t) := Click(s, rc);
      && (failure.Some? <==> PySquare(rc).None?)
      && (failure == None ==>
            (t.selected.Some? <==> HoldsColor(s.board, PySquare(rc).value, s.active)))
      && (t.selected.Some? ==> t.selected == Some(rc))
  {
  }

  /** The accepted move of the second click is the move `_simulate` plays:
      the board becomes `ApplyMove` of (origin, destination). */
  lemma PlayIsApplyMove(b: Grid, src: Square, dst: Square)
    requires Placed(b) && OnBoard(src) && At(b, src).Some?
    requires dst in Targets(b, At(b, src).value)
    ensures OnBoard(dst) && src != dst
    ensures PlayOnBoard(b, src, dst) == ApplyMove(b, (src, dst))
    ensures Placed(PlayOnBoard(b, src, dst))
  {
    var after := PlayOnBoard(b, src, dst);
    var m := (src, dst);
    forall r, c | 0 <= r < 8 && 0 <= c < 8
      ensures after[r][c] == ApplyMove(b, m)[r][c]
    {
      ApplyMoveCell(b, m, r, c);
      assert At(after, (r, c)) == after[r][c];
    }
    GridsEqual(after, ApplyMove(b, m));
  }

  /** A click never breaks the position-matches-square invariant. */
  lemma ClickKeepsPlaced(s: GameState, rc: (int, int))
    requires Placed(s.board)
    ensures Placed(Click(s, rc).1.board)
  {
    if s.selected.Some? && PySquare(s.selected.value).Some? {
      var src := PySquare(s.selected.value).value;
      if At(s.board, src).Some? && rc in Targets(s.board, At(s.board, src).value) {
        PlayIsApplyMove(s.board, src, rc);
      }
    }
  }

  /** The selection, when there is one, holds a piece of the side to move. */
  predicate Consistent(s: GameState)
    requires IsGrid(s.board)
  {
    s.selected.Some? ==>
      PySquare(s.selected.value).Some? && HoldsColor(s.board, PySquare(s.selected.value).value, s.active)
  }

  /** Clicks keep the selection consistent, and from a consistent state the
      second click never raises. It is a move exactly when (origin,
      destination) is one of the pseudo-legal moves `_get_all_moves`
      lists for the side to move; then the board is the one `_simulate`
      produces and the turn passes. Otherwise nothing but the selection
      changes. */
  lemma SecondClick(s: GameState, rc: (int, int))
    requires Placed(s.board) && Consistent(s) && s.selected.Some?
    ensures var (failure, t) := Click(s, rc);
      var src := PySquare(s.selected.value).value;
      && failure.None?
      && Consistent(t)
      && ((src, rc) in AllMoves(s.board, s.active) ==>
            OnBoard(rc) && t == GameState(ApplyMove(s.board, (src, rc)), Opponent(s.active), None))
      && ((src, rc) !in AllMoves(s.board, s.active) ==> t == s.(selected := None))
  {
    var src := PySquare(s.selected.value).value;
    AllMovesExactInRowMajorOrder(s.board, s.active);
    assert (src, rc) in AllMoves(s.board, s.active) <==> rc in Targets(s.board, At(s.board, src).value);
    if rc in Targets(s.board, At(s.board, src).value) {
      PlayIsApplyMove(s.board, src, rc);
    }
  }

  /** Consistency is kept by every event. */
  lemma StepKeepsConsistent(s: GameState, e: Event, size: int)
    requires Placed(s.board) && Consistent(s)
    ensures Placed(Step(s, e, size).1.board) && Consistent(Step(s, e, size).1)
  {
    if e.MouseButtonDown? && size != 0 {
      var rc := (FloorDiv(e.mouse.1, size), FloorDiv(e.mouse.0, size));
      ClickKeepsPlaced(s, rc);
      if s.selected.Some? {
        SecondClick(s, rc);
      }
    }
  }

  // ---------------------------------------------------------------------
  // The game object

  class Game {
    var width: int
    var height: int
    var state: string
    var activePlayer: Color
    const board: Board
    var selectedPos: Option<(int, int)>

    /** The board array is 8x8 and its pieces record their own squares. */
    ghost predicate Valid()
      reads this, board, board.boardState
    {
      IsSquareArray(board.boardState) && Placed(Cells(board.boardState))
    }

    ghost function State(): GameState
      reads this, board, board.boardState
      requires IsSquareArray(board.boardState)
    {
      GameState(Cells(board.boardState), activePlayer, selectedPos)
    }

    /** A new game: white to move, nothing selected, an empty board until
        `StartGame`. */
    constructor(width: int, height: int)
      ensures Valid() && fresh(board) && fresh(board.boardState)
      ensures this.width == width && this.height == height
      ensures state == "ongoing" && activePlayer == White && selectedPos == None
      ensures Cells(board.boardState) == EmptyBoard()
      ensures board.width == width && board.height == height
      ensures 8 * board.squareSize <= width < 8 * board.squareSize + 8
    {
      this.width := width;
      this.height := height;
      state := "ongoing";
      activePlayer := White;
      board := new Board(width, height);
      selectedPos := None;
    }

    /** `start_game`: sets up the opening position and nothing else; the
        side to move and the selection keep their values. */
    method StartGame()
      requires Valid()
      modifies board
      ensures Valid() && fresh(board.boardState) && Cells(board.boardState) == InitialBoard()
      ensures board.squareSize == old(board.squareSize)
      ensures board.width == old(board.width) && board.height == old(board.height)
      ensures activePlayer == old(activePlayer) && selectedPos == old(selectedPos)
    {
      board.InitializeBoard();
    }

    /** `process_input`: the state after the event is the one `Step`
        gives, including when a Python exception is raised; the game's
        `state` string and its size are never touched. */
    method ProcessInput(event: Event) returns (failure: Option<Failure>)
      requires Valid()
      modifies this`activePlayer, this`selectedPos, board.boardState
      ensures Valid()
      ensures (failure, State()) == Step(old(State()), event, board.squareSize)
      ensures state == old(state) && width == old(width) && height == old(height)
    {
      if event.OtherEvent? {
        return None;
      }
      if board.squareSize == 0 {
        return Some(ZeroDivisionError);
      }
      var (row, col) := board.GetBoardPos(event.mouse);
      assert (row, col) == (FloorDiv(event.mouse.1, board.squareSize), FloorDiv(event.mouse.0, board.squareSize));
      if selectedPos == None {
        failure := Select((row, col));
      } else {
        failure := MoveSelected((row, col));
      }
    }

    /** The first click: select the square if it holds a piece of the side
        to move. */
    method Select(rc: (int, int)) returns (failure: Option<Failure>)
      requires Valid() && selectedPos.None?
      modifies this`selectedPos
      ensures Valid()
      ensures (failure, State()) == Click(old(State()), rc)
    {
      failure := None;
      var sq := PySquare(rc);
      if sq.None? {
        return Some(IndexError);
      }
      var piece := board.boardState[sq.value.0, sq.value.1];
      assert piece == At(Cells(board.boardState), sq.value);
      if piece.Some? && piece.value.color == activePlayer {
        selectedPos := Some(rc);
      }
    }

    /** The second click: move the selected piece if `rc` is one of its
        destinations and pass the turn; drop the selection either way. */
    method MoveSelected(rc: (int, int)) returns (failure: Option<Failure>)
      requires Valid() && selectedPos.Some?
      modifies this`activePlayer, this`selectedPos, board.boardState
      ensures Valid()
      ensures (failure, State()) == Click(old(State()), rc)
    {
      failure := None;
      var src := PySquare(selectedPos.value);
      if src.None? {
        return Some(IndexError);
      }
      var (srcRow, srcCol) := src.value;
      var pieceObj := board.boardState[srcRow, srcCol];
      assert pieceObj == At(Cells(board.boardState), (srcRow, srcCol));
      if pieceObj.None? {
        return Some(AttributeError);
      }
      ghost var b := Cells(board.boardState);
      var validMoves := PossibleMoves(board.boardState, pieceObj.value);
      if rc in validMoves {
        PlayIsApplyMove(b, (srcRow, srcCol), rc);
        Play(board.boardState, (srcRow, srcCol), rc, b);
        activePlayer := Opponent(activePlayer);
      }
      selectedPos := None;
    }

    /** The board writes of an accepted move: the piece, with its new
        position and a pawn's first-move flag cleared, is stored on the
        destination, then the origin is emptied. */
    method Play(a: array2<Option<Piece>>, src: Square, dst: Square, ghost b: Grid)
      requires IsSquareArray(a) && Cells(a) == b && OnBoard(src) && OnBoard(dst) && At(b, src).Some?
      modifies a
      ensures Cells(a) == PlayOnBoard(b, src, dst)
    {
      var piece := a[src.0, src.1].value;
      piece := MoveTo(piece, dst);
      if piece.kind.Pawn? {
        piece := piece.(kind := Pawn(false));
      }
      a[dst.0, dst.1] := Some(piece);
      a[src.0, src.1] := None;
      ghost var after := PlayOnBoard(b, src, dst);
      forall r, c | 0 <= r < 8 && 0 <= c < 8
        ensures a[r, c] == after[r][c]
      {
        assert At(after, (r, c)) == after[r][c];
      }
      GridsEqual(Cells(a), after);
    }
  }
}
