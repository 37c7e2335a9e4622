/** The static evaluation of a position (`evaluate_board`) and the check
    test it uses (`_king_in_check`), as functions on a snapshot.

    Scores are exact integers in hundredths of a pawn: material 100, 300,
    300, 500, 900 and 100000, 10 per piece on a centre square, 5 per
    pseudo-legal move of difference in mobility and 50 for giving check. */
module Evaluation {
  import opened Pieces
  import opened Moves

  // ---------------------------------------------------------------------
  // Check

  predicate IsKingOf(b: Grid, sq: Square, c: Color)
    requires IsGrid(b) && OnBoard(sq)
  {
    At(b, sq).Some? && At(b, sq).value.kind == King && At(b, sq).value.color == c
  }

  /** Strictly earlier in row-major order. */
  predicate Precedes(x: Square, y: Square)
  {
    x.0 < y.0 || (x.0 == y.0 && x.1 < y.1)
  }

  /** The first king of colour `c` in row `r` at column `col` or later. */
  function KingInRow(b: Grid, c: Color, r: int, col: int): (k: Option<Square>)
    requires IsGrid(b) && 0 <= r < 8 && 0 <= col <= 8
    ensures k.Some? ==> k.value.0 == r && col <= k.value.1 < 8 && IsKingOf(b, k.value, c)
    ensures k.Some? ==> forall x :: col <= x < k.value.1 ==> !IsKingOf(b, (r, x), c)
    ensures k.None? ==> forall x :: col <= x < 8 ==> !IsKingOf(b, (r, x), c)
    decreases 8 - col
  {
    if col == 8 then None
    else if IsKingOf(b, (r, col), c) then Some((r, col))
    else KingInRow(b, c, r, col + 1)
  }

  /** The first king of colour `c` in row-major order from row `r` on. */
  function KingFromRow(b: Grid, c: Color, r: int): (k: Option<Square>)
    requires IsGrid(b) && 0 <= r <= 8
    ensures k.Some? ==> r <= k.value.0 < 8 && OnBoard(k.value) && IsKingOf(b, k.value, c)
    ensures k.Some? ==> forall sq :: OnBoard(sq) && r <= sq.0 && Precedes(sq, k.value) ==> !IsKingOf(b, sq, c)
    ensures k.None? ==> forall sq :: OnBoard(sq) && r <= sq.0 ==> !IsKingOf(b, sq, c)
    decreases 8 - r
  {
    if r == 8 then None
    else match KingInRow(b, c, r, 0)
      case Some(sq) => Some(sq)
      case None => KingFromRow(b, c, r + 1)
  }

  /** The square of the first king of colour `c` found scanning row by row,
      or None when that colour has no king on the board. */
  function FindKing(b: Grid, c: Color): Option<Square>
    requires IsGrid(b)
  {
    KingFromRow(b, c, 0)
  }

  /** Some piece of colour `attacker` on row `r`, from column `c` on, has
      `sq` among its destinations. */
  predicate AttackedInRow(b: Grid, sq: Square, attacker: Color, r: int, c: int)
    requires Placed(b) && 0 <= r < 8 && 0 <= c <= 8
    decreases 8 - c
  {
    c < 8 && (IsMoveOf(b, attacker, ((r, c), sq)) || AttackedInRow(b, sq, attacker, r, c + 1))
  }

  /** Some piece of colour `attacker`, from row `r` on, has `sq` among its
      destinations. */
  predicate AttackedFromRow(b: Grid, sq: Square, attacker: Color, r: int)
    requires Placed(b) && 0 <= r <= 8
    decreases 8 - r
  {
    r < 8 && (AttackedInRow(b, sq, attacker, r, 0) || AttackedFromRow(b, sq, attacker, r + 1))
  }

  /** Some piece of colour `attacker` has `sq` among its destinations. */
  predicate Attacked(b: Grid, sq: Square, attacker: Color)
    requires Placed(b)
  {
    AttackedFromRow(b, sq, attacker, 0)
  }

  lemma {:induction false} AttackedInRowExact(b: Grid, sq: Square, attacker: Color, r: int, c: int)
    requires Placed(b) && 0 <= r < 8 && 0 <= c <= 8
    ensures AttackedInRow(b, sq, attacker, r, c) <==> exists x :: c <= x < 8 && IsMoveOf(b, attacker, ((r, x), sq))
    decreases 8 - c
  {
    if c < 8 {
      AttackedInRowExact(b, sq, attacker, r, c + 1);
      if x :| c <= x < 8 && IsMoveOf(b, attacker, ((r, x), sq)) {
        if x > c {
          assert AttackedInRow(b, sq, attacker, r, c + 1);
        }
      }
    }
  }

  /** A row from `r` on that holds an attacker makes `AttackedFromRow` hold. */
  lemma {:induction false} AttackedFromRowIntro(b: Grid, sq: Square, attacker: Color, r: int, y: int)
    requires Placed(b) && 0 <= r <= y < 8 && AttackedInRow(b, sq, attacker, y, 0)
    ensures AttackedFromRow(b, sq, attacker, r)
    decreases y - r
  {
    if r < y {
      AttackedFromRowIntro(b, sq, attacker, r + 1, y);
    }
  }

  /** The row, from `r` on, that holds an attacker when `AttackedFromRow` holds. */
  lemma {:induction false} AttackedFromRowElim(b: Grid, sq: Square, attacker: Color, r: int) returns (y: int)
    requires Placed(b) && 0 <= r <= 8 && AttackedFromRow(b, sq, attacker, r)
    ensures r <= y < 8 && AttackedInRow(b, sq, attacker, y, 0)
    decreases 8 - r
  {
    if AttackedInRow(b, sq, attacker, r, 0) {
      y := r;
    } else {
      y := AttackedFromRowElim(b, sq, attacker, r + 1);
    }
  }

  /** `_king_in_check`: the first king of colour `c` is a destination of
      some opposing piece; false when `c` has no king. */
  predicate InCheck(b: Grid, c: Color)
    requires Placed(b)
  {
    match FindKing(b, c)
    case None => false
    case Some(k) => Attacked(b, k, Opponent(c))
  }

  /** A square is attacked exactly when some opposing move lands on it. */
  lemma AttackedMeansSomeMoveLands(b: Grid, sq: Square, attacker: Color)
    requires Placed(b)
    ensures Attacked(b, sq, attacker) <==> exists m :: m in AllMoves(b, attacker) && m.1 == sq
  {
    MovesBeforeExact(b, attacker, 8);
    if Attacked(b, sq, attacker) {
      var y := AttackedFromRowElim(b, sq, attacker, 0);
      AttackedInRowExact(b, sq, attacker, y, 0);
      var x :| 0 <= x < 8 && IsMoveOf(b, attacker, ((y, x), sq));
      assert ((y, x), sq) in AllMoves(b, attacker);
    }
    if m :| m in AllMoves(b, attacker) && m.1 == sq {
      AttackedInRowExact(b, sq, attacker, m.0.0, 0);
      assert IsMoveOf(b, attacker, ((m.0.0, m.0.1), sq));
      AttackedFromRowIntro(b, sq, attacker, 0, m.0.0);
    }
  }

  /** With no king of colour `c` on the board, `c` is never in check. */
  lemma NoKingNoCheck(b: Grid, c: Color)
    requires Placed(b)
    requires forall sq :: OnBoard(sq) ==> !IsKingOf(b, sq, c)
    ensures !InCheck(b, c)
  {
  }

  /** With exactly one king of colour `c`, on square `k`, `c` is in check
      exactly when some opposing pseudo-legal move lands on `k`. */
  lemma SoleKingInCheck(b: Grid, c: Color, k: Square)
    requires Placed(b) && OnBoard(k) && IsKingOf(b, k, c)
    requires forall sq :: OnBoard(sq) && IsKingOf(b, sq, c) ==> sq == k
    ensures InCheck(b, c) <==> exists m :: m in AllMoves(b, Opponent(c)) && m.1 == k
  {
    assert FindKing(b, c) == Some(k);
    AttackedMeansSomeMoveLands(b, k, Opponent(c));
  }

  // ---------------------------------------------------------------------
  // Material, centre and mobility

  const CenterSquares: set<Square> := {(3, 3), (3, 4), (4, 3), (4, 4)}

  function PieceValue(k: Kind): int
  {
    match k
    case Pawn(_) => 100
    case Knight => 300
    case Bishop => 300
    case Rook => 500
    case Queen => 900
    case King => 100000
  }

  /** `x` for a piece of colour `me`, `-x` for an opposing one. */
  function Signed(p: Piece, me: Color, x: int): int
  {
    if p.color == me then x else -x
  }

  /** Material plus the centre bonus of the piece on `sq`, if any. */
  function SquareScore(b: Grid, me: Color, sq: Square): int
    requires IsGrid(b) && OnBoard(sq)
  {
    match At(b, sq)
    case None => 0
    case Some(p) => Signed(p, me, PieceValue(p.kind)) + (if sq in CenterSquares then Signed(p, me, 10) else 0)
  }

  function RowScore(b: Grid, me: Color, r: int, c: int): int
    requires IsGrid(b) && 0 <= r < 8 && 0 <= c <= 8
  {
    if c == 0 then 0 else RowScore(b, me, r, c - 1) + SquareScore(b, me, (r, c - 1))
  }

  function ScoreBefore(b: Grid, me: Color, r: int): int
    requires IsGrid(b) && 0 <= r <= 8
  {
    if r == 0 then 0 else ScoreBefore(b, me, r - 1) + RowScore(b, me, r - 1, 8)
  }

  /** The number of destinations of the piece on `sq` if it has colour `c`. */
  function SquareMobility(b: Grid, c: Color, sq: Square): nat
    requires Placed(b) && OnBoard(sq)
  {
    match At(b, sq)
    case None => 0
    case Some(p) => if p.color == c then |Targets(b, p)| else 0
  }

  function RowMobility(b: Grid, c: Color, r: int, col: int): nat
    requires Placed(b) && 0 <= r < 8 && 0 <= col <= 8
  {
    if col == 0 then 0 else RowMobility(b, c, r, col - 1) + SquareMobility(b, c, (r, col - 1))
  }

  function MobilityBefore(b: Grid, c: Color, r: int): nat
    requires Placed(b) && 0 <= r <= 8
  {
    if r == 0 then 0 else MobilityBefore(b, c, r - 1) + RowMobility(b, c, r - 1, 8)
  }

  /** `evaluate_board` from the point of view of `me`. */
  function Eval(b: Grid, me: Color): int
    requires Placed(b)
  {
    ScoreBefore(b, me, 8)
    + 5 * (MobilityBefore(b, me, 8) - MobilityBefore(b, Opponent(me), 8))
    + (if InCheck(b, Opponent(me)) then 50 else 0)
  }

  // ---------------------------------------------------------------------
  // Properties of the evaluation

  lemma {:induction false} RowMobilityCountsMoves(b: Grid, c: Color, r: int, col: int)
    requires Placed(b) && 0 <= r < 8 && 0 <= col <= 8
    ensures RowMobility(b, c, r, col) == |RowMoves(b, c, r, col)|
  {
    if col > 0 {
      RowMobilityCountsMoves(b, c, r, col - 1);
    }
  }

  lemma {:induction false} MobilityCountsMoves(b: Grid, c: Color, r: int)
    requires Placed(b) && 0 <= r <= 8
    ensures MobilityBefore(b, c, r) == |MovesBefore(b, c, r)|
  {
    if r > 0 {
      MobilityCountsMoves(b, c, r - 1);
      RowMobilityCountsMoves(b, c, r - 1, 8);
    }
  }

  /** The mobility term is 5 times the difference between the numbers of
      pseudo-legal moves the two sides have. */
  lemma EvalCountsMoves(b: Grid, me: Color)
    requires Placed(b)
    ensures Eval(b, me) ==
      ScoreBefore(b, me, 8)
      + 5 * (|AllMoves(b, me)| - |AllMoves(b, Opponent(me))|)
      + (if InCheck(b, Opponent(me)) then 50 else 0)
  {
    MobilityCountsMoves(b, me, 8);
    MobilityCountsMoves(b, Opponent(me), 8);
  }

  lemma {:induction false} RowScoreAntisymmetric(b: Grid, r: int, c: int)
    requires IsGrid(b) && 0 <= r < 8 && 0 <= c <= 8
    ensures RowScore(b, White, r, c) == -RowScore(b, Black, r, c)
  {
    if c > 0 {
      RowScoreAntisymmetric(b, r, c - 1);
    }
  }

  lemma {:induction false} ScoreAntisymmetric(b: Grid, r: int)
    requires IsGrid(b) && 0 <= r <= 8
    ensures ScoreBefore(b, White, r) == -ScoreBefore(b, Black, r)
  {
    if r > 0 {
      ScoreAntisymmetric(b, r - 1);
      RowScoreAntisymmetric(b, r - 1, 8);
    }
  }

  /** The evaluation is zero-sum apart from the check bonus: what one side
      gains in material, centre and mobility the other loses. */
  lemma EvalZeroSum(b: Grid)
    requires Placed(b)
    ensures Eval(b, White) + Eval(b, Black) ==
      (if InCheck(b, Black) then 50 else 0) + (if InCheck(b, White) then 50 else 0)
  {
    ScoreAntisymmetric(b, 8);
  }
}
