/** The opening position seen by the move generator: white's pawns and
    knights have two pseudo-legal moves each, every other white piece is
    hemmed in, so white has 20 moves to choose from. */
module Opening {
  import opened Pieces
  import opened Moves
  import opened Boards

  /** White's number of pseudo-legal moves from square (r, c) of the
      opening position. */
  function OpeningCount(r: int, c: int): nat
  {
    if r == 6 then 2 else if r == 7 && (c == 1 || c == 6) then 2 else 0
  }

  /** A leap list grows by one square per enterable offset. */
  lemma LeapsPrefix(b: Grid, me: Color, from: Square, offs: seq<(int, int)>, k: int)
    requires IsGrid(b) && 0 <= k < |offs|
    ensures |Leaps(b, me, from, offs[..k + 1])| ==
      |Leaps(b, me, from, offs[..k])| + (if Enterable(b, me, Shift(from, offs[k])) then 1 else 0)
  {
    assert offs[..k + 1][..k] == offs[..k];
  }

  /** The first two knight offsets lead from a white knight's home square
      onto row 5; the others leave the board or land on a white pawn. */
  lemma KnightStep(from: Square, k: int)
    requires (from == (7, 1) || from == (7, 6)) && 0 <= k < 8
    ensures |Leaps(InitialBoard(), White, from, KnightOffsets[..k + 1])| ==
      |Leaps(InitialBoard(), White, from, KnightOffsets[..k])| + (if k < 2 then 1 else 0)
  {
    LeapsPrefix(InitialBoard(), White, from, KnightOffsets, k);
    KnightLanding(from, k);
  }

  lemma KnightLanding(from: Square, k: int)
    requires (from == (7, 1) || from == (7, 6)) && 0 <= k < 8
    ensures Enterable(InitialBoard(), White, Shift(from, KnightOffsets[k])) <==> k < 2
  {
    var sq := Shift(from, KnightOffsets[k]);
    if k < 2 {
      assert sq.0 == 5 && 0 <= sq.1 < 8;
    } else {
      assert sq.0 >= 6;
      InitialSides(White);
    }
  }

  /** The first k offsets of a white knight at home give min(k, 2) leaps. */
  lemma {:induction false} KnightPrefix(from: Square, k: int)
    requires (from == (7, 1) || from == (7, 6)) && 0 <= k <= 8
    ensures |Leaps(InitialBoard(), White, from, KnightOffsets[..k])| == if k < 2 then k else 2
  {
    if k > 0 {
      KnightPrefix(from, k - 1);
      KnightStep(from, k - 1);
    }
  }

  lemma KnightOpening(from: Square)
    requires from == (7, 1) || from == (7, 6)
    ensures |Leaps(InitialBoard(), White, from, KnightOffsets)| == 2
  {
    KnightPrefix(from, 8);
    assert KnightOffsets[..8] == KnightOffsets;
  }

  lemma PawnOpening(c: int)
    requires 0 <= c < 8
    ensures |MovesFrom(InitialBoard(), White, (6, c))| == 2
  {
  }

  /** No offset leads to an enterable square: no leap. */
  lemma {:induction false} LeapsNone(b: Grid, me: Color, from: Square, offs: seq<(int, int)>)
    requires IsGrid(b) && forall i :: 0 <= i < |offs| ==> !Enterable(b, me, Shift(from, offs[i]))
    ensures Leaps(b, me, from, offs) == []
  {
    if offs != [] {
      LeapsNone(b, me, from, offs[..|offs| - 1]);
    }
  }

  /** Every ray is blocked on its first square: no slide. */
  lemma {:induction false} RaysNone(b: Grid, me: Color, from: Square, dirs: seq<(int, int)>)
    requires IsGrid(b) && AreDirections(dirs)
    requires forall i :: 0 <= i < |dirs| ==> !Enterable(b, me, Shift(from, dirs[i]))
    ensures Rays(b, me, from, dirs) == []
  {
    if dirs != [] {
      RaysNone(b, me, from, dirs[1..]);
    }
  }

  /** From white's back rank, one step up, sideways or down lands on a
      white piece or off the board. */
  lemma BackRankBlocked(c: int, d: (int, int))
    requires 0 <= c < 8 && IsDirection(d)
    ensures !Enterable(InitialBoard(), White, Shift((7, c), d))
  {
    InitialSides(White);
  }

  lemma StepsBlocked(c: int, dirs: seq<(int, int)>)
    requires 0 <= c < 8 && AreDirections(dirs)
    ensures forall i :: 0 <= i < |dirs| ==> !Enterable(InitialBoard(), White, Shift((7, c), dirs[i]))
  {
    forall i | 0 <= i < |dirs| ensures !Enterable(InitialBoard(), White, Shift((7, c), dirs[i])) {
      BackRankBlocked(c, dirs[i]);
    }
  }

  lemma SliderOpening(c: int, dirs: seq<(int, int)>)
    requires 0 <= c < 8 && AreDirections(dirs)
    ensures Rays(InitialBoard(), White, (7, c), dirs) == []
  {
    StepsBlocked(c, dirs);
    RaysNone(InitialBoard(), White, (7, c), dirs);
  }

  lemma KingOpening()
    ensures Leaps(InitialBoard(), White, (7, 4), KingOffsets) == []
  {
    assert AreDirections(KingOffsets);
    StepsBlocked(4, KingOffsets);
    LeapsNone(InitialBoard(), White, (7, 4), KingOffsets);
  }

  lemma SliderTargets(k: Kind, c: int)
    requires 0 <= c < 8 && (k == Rook || k == Bishop || k == Queen)
    ensures Targets(InitialBoard(), Piece(k, White, (7, c))) == []
  {
    var dirs := if k == Rook then RookDirections else if k == Bishop then BishopDirections else QueenDirections;
    assert AreDirections(dirs);
    SliderOpening(c, dirs);
  }

  lemma BackTargets(c: int)
    requires 0 <= c < 8 && c != 1 && c != 6
    ensures Targets(InitialBoard(), Piece(BackRank[c], White, (7, c))) == []
  {
    if c == 4 {
      KingOpening();
    } else {
      SliderTargets(BackRank[c], c);
    }
  }

  lemma BackOpening(c: int)
    requires 0 <= c < 8 && c != 1 && c != 6
    ensures |MovesFrom(InitialBoard(), White, (7, c))| == 0
  {
    assert At(InitialBoard(), (7, c)) == Some(Piece(BackRank[c], White, (7, c)));
    BackTargets(c);
  }

  /** A square without a piece of colour `me` contributes no move. */
  lemma NotOwnNoMoves(b: Grid, me: Color, sq: Square)
    requires Placed(b) && OnBoard(sq) && !HoldsColor(b, sq, me)
    ensures MovesFrom(b, me, sq) == []
  {
  }

  /** Rows 0 to 5 hold no white piece. */
  lemma UpperOpening(r: int, c: int)
    requires 0 <= r < 6 && 0 <= c < 8
    ensures MovesFrom(InitialBoard(), White, (r, c)) == []
  {
    InitialSides(White);
    NotOwnNoMoves(InitialBoard(), White, (r, c));
  }

  lemma SquareCount(r: int, c: int)
    requires 0 <= r < 8 && 0 <= c < 8
    ensures |MovesFrom(InitialBoard(), White, (r, c))| == OpeningCount(r, c)
  {
    if r < 6 {
      UpperOpening(r, c);
    } else if r == 6 {
      PawnOpening(c);
    } else if c == 1 || c == 6 {
      KnightOpening((r, c));
    } else {
      BackOpening(c);
    }
  }

  /** The number of white opening moves from the first `c` squares of row `r`. */
  function OpeningRow(r: int, c: int): nat
    requires 0 <= c <= 8
  {
    if c == 0 then 0 else OpeningRow(r, c - 1) + OpeningCount(r, c - 1)
  }

  function OpeningBefore(r: int): nat
    requires 0 <= r <= 8
  {
    if r == 0 then 0 else OpeningBefore(r - 1) + OpeningRow(r - 1, 8)
  }

  lemma {:induction false} RowOpening(r: int, c: int)
    requires 0 <= r < 8 && 0 <= c <= 8
    ensures |RowMoves(InitialBoard(), White, r, c)| == OpeningRow(r, c)
  {
    if c > 0 {
      RowOpening(r, c - 1);
      SquareCount(r, c - 1);
    }
  }

  lemma {:induction false} BeforeOpening(r: int)
    requires 0 <= r <= 8
    ensures |MovesBefore(InitialBoard(), White, r)| == OpeningBefore(r)
  {
    if r > 0 {
      BeforeOpening(r - 1);
      RowOpening(r - 1, 8);
    }
  }

  lemma {:induction false} RowTotal(r: int, c: int)
    requires 0 <= c <= 8
    ensures OpeningRow(r, c) ==
      if r == 6 then 2 * c else if r == 7 then (if c < 2 then 0 else if c < 7 then 2 else 4) else 0
  {
    if c > 0 {
      RowTotal(r, c - 1);
    }
  }

  lemma {:induction false} BeforeTotal(r: int)
    requires 0 <= r <= 8
    ensures OpeningBefore(r) == if r <= 6 then 0 else if r == 7 then 16 else 20
  {
    if r > 0 {
      BeforeTotal(r - 1);
      RowTotal(r - 1, 8);
    }
  }

  /** From the opening position white has 20 pseudo-legal moves: two for
      each pawn and two for each knight. */
  lemma WhiteOpening()
    ensures |AllMoves(InitialBoard(), White)| == 20
  {
    BeforeOpening(8);
    BeforeTotal(8);
  }
}
