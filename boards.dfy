/** The board object: its square size in pixels, the live 8x8 array of
    pieces, the opening set-up (`initialize_board`) and the mapping from a
    pixel to a square (`get_board_pos`). Images and drawing are not part of
    this model. */
module Boards {
  import opened Pieces
  import opened Moves
  import opened Evaluation

  /** Python's `//`: the quotient rounded toward negative infinity. */
  function FloorDiv(x: int, d: int): (q: int)
    requires d != 0
    ensures d > 0 ==> d * q <= x < d * q + d
    ensures d < 0 ==> d * q + d < x <= d * q
  {
    if d > 0 then x / d else (-x) / (-d)
  }

  /** A pixel of the 8-square span falls in one of the squares 0..7. */
  lemma QuotientOnBoard(q: int, s: int, x: int)
    requires s > 0 && s * q <= x < s * q + s && 0 <= x < 8 * s
    ensures 0 <= q < 8
  {
  }

  function EmptyBoard(): (b: Grid)
    ensures IsGrid(b)
  {
    seq(8, r => seq(8, c => None))
  }

  /** Both back ranks, from column 0 to column 7. */
  const BackRank: seq<Kind> := [Rook, Knight, Bishop, Queen, King, Bishop, Knight, Rook]

  /** What `initialize_board` puts on square (r, c). */
  function InitialSquare(r: int, c: int): Option<Piece>
    requires 0 <= r < 8 && 0 <= c < 8
  {
    if r == 0 then Some(Piece(BackRank[c], Black, (0, c)))
    else if r == 1 then Some(Piece(Pawn(true), Black, (1, c)))
    else if r == 6 then Some(Piece(Pawn(true), White, (6, c)))
    else if r == 7 then Some(Piece(BackRank[c], White, (7, c)))
    else None
  }

  /** The opening position: every piece records its own square, rows 2 to
      5 are empty, the pawns (not yet moved) fill rows 1 and 6, and both
      back ranks read rook, knight, bishop, queen, king, bishop, knight,
      rook, black on row 0 and white on row 7. */
  function InitialBoard(): (b: Grid)
    ensures Placed(b)
    ensures forall r, c :: 2 <= r < 6 && 0 <= c < 8 ==> b[r][c] == None
    ensures forall c :: 0 <= c < 8 ==>
      b[1][c] == Some(Piece(Pawn(true), Black, (1, c))) && b[6][c] == Some(Piece(Pawn(true), White, (6, c)))
    ensures forall c :: 0 <= c < 8 ==>
      b[0][c] == Some(Piece(BackRank[c], Black, (0, c))) && b[7][c] == Some(Piece(BackRank[c], White, (7, c)))
  {
    seq(8, r requires 0 <= r < 8 => seq(8, c requires 0 <= c < 8 => InitialSquare(r, c)))
  }

  /** The home square of each king. */
  function KingHome(c: Color): Square
  {
    if c == White then (7, 4) else (0, 4)
  }

  /** In the opening position each side owns exactly its two home rows
      (sixteen pieces), has exactly one king, on its home square, and that
      is the king `_king_in_check` finds. */
  lemma InitialSides(c: Color)
    ensures forall sq :: OnBoard(sq) ==>
      (HoldsColor(InitialBoard(), sq, c) <==> if c == White then 6 <= sq.0 else sq.0 <= 1)
    ensures forall sq :: OnBoard(sq) ==> (IsKingOf(InitialBoard(), sq, c) <==> sq == KingHome(c))
    ensures FindKing(InitialBoard(), c) == Some(KingHome(c))
  {
    var b := InitialBoard();
    forall sq | OnBoard(sq)
      ensures IsKingOf(b, sq, c) <==> sq == KingHome(c)
    {
      assert b[sq.0][sq.1] == InitialSquare(sq.0, sq.1);
    }
    assert IsKingOf(b, KingHome(c), c);
  }

  class Board {
    var width: int
    var height: int
    var squareSize: int
    var boardState: array2<Option<Piece>>

    /** A board of the given pixel size with no pieces on it yet. */
    constructor(width: int, height: int)
      ensures this.width == width && this.height == height
      ensures 8 * squareSize <= width < 8 * squareSize + 8
      ensures fresh(boardState) && IsSquareArray(boardState) && Cells(boardState) == EmptyBoard()
    {
      this.width := width;
      this.height := height;
      squareSize := FloorDiv(width, 8);
      boardState := new Option<Piece>[8, 8]((r, c) => None);
      new;
      GridsEqual(Cells(boardState), EmptyBoard());
    }

    /** `initialize_board`: a new array holding the opening position. */
    method InitializeBoard()
      modifies this
      ensures width == old(width) && height == old(height) && squareSize == old(squareSize)
      ensures fresh(boardState) && IsSquareArray(boardState) && Cells(boardState) == InitialBoard()
    {
      boardState := new Option<Piece>[8, 8]((r, c) requires 0 <= r < 8 && 0 <= c < 8 => InitialSquare(r, c));
      GridsEqual(Cells(boardState), InitialBoard());
    }

    /** `get_board_pos`: the (row, column) of the square containing pixel
        `mouse` = (x, y). With a positive square size the pixel lies inside
        that square, and every pixel of the 8x8 area maps to a square of the
        board. */
    function GetBoardPos(mouse: (int, int)): (pos: Square)
      reads this
      requires squareSize != 0
      ensures squareSize > 0 ==>
        && squareSize * pos.0 <= mouse.1 < squareSize * pos.0 + squareSize
        && squareSize * pos.1 <= mouse.0 < squareSize * pos.1 + squareSize
      ensures squareSize > 0 && 0 <= mouse.0 < 8 * squareSize && 0 <= mouse.1 < 8 * squareSize ==> OnBoard(pos)
    {
      var row, col := FloorDiv(mouse.1, squareSize), FloorDiv(mouse.0, squareSize);
      if squareSize > 0 && 0 <= mouse.0 < 8 * squareSize && 0 <= mouse.1 < 8 * squareSize then
        QuotientOnBoard(row, squareSize, mouse.1);
        QuotientOnBoard(col, squareSize, mouse.0);
        (row, col)
      else (row, col)
    }
  }
}
