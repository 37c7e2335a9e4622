/** Whole moves as the computer opponent sees them: the enumeration of
    every (origin, destination) pair of one colour in row-major order
    (`_get_all_moves`), and the board a move produces (`_simulate`).
    Both are stated here on immutable snapshots; the methods that run them
    on the live array live with the player in module Search. */
module Moves {
  import opened Pieces

  /** (origin, destination). */
  type Move = (Square, Square)

  /** A well-formed snapshot: an 8x8 grid whose pieces record their own squares. */
  predicate Placed(b: Grid)
  {
    IsGrid(b) && WellPlaced(b)
  }

  /** `m` is a pseudo-legal move of colour `me`: its origin holds a piece of
      that colour and its destination is one of that piece's destinations. */
  predicate IsMoveOf(b: Grid, me: Color, m: Move)
    requires Placed(b)
  {
    && OnBoard(m.0)
    && HoldsColor(b, m.0, me)
    && m.1 in Targets(b, At(b, m.0).value)
  }

  /** A move that `_simulate` can carry out: both squares on the board and a
      piece on the origin. */
  predicate CanApply(b: Grid, m: Move)
    requires IsGrid(b)
  {
    OnBoard(m.0) && OnBoard(m.1) && At(b, m.0).Some?
  }

  predicate AllApply(b: Grid, moves: seq<Move>)
    requires IsGrid(b)
  {
    forall m :: m in moves ==> CanApply(b, m)
  }

  // ---------------------------------------------------------------------
  // Enumeration

  /** `from` paired with each destination of `tos`, in order. */
  function Pairs(from: Square, tos: seq<Square>): (s: seq<Move>)
    ensures |s| == |tos|
    ensures forall m :: m in s <==> m.0 == from && m.1 in tos
  {
    if tos == [] then []
    else
      assert forall x :: x in tos <==> x in tos[..|tos| - 1] || x == tos[|tos| - 1];
      Pairs(from, tos[..|tos| - 1]) + [(from, tos[|tos| - 1])]
  }

  /** The moves contributed by square `sq`: nothing unless it holds a piece
      of colour `me`, otherwise that piece's destinations in the order its
      generator produces them. */
  function MovesFrom(b: Grid, me: Color, sq: Square): seq<Move>
    requires Placed(b) && OnBoard(sq)
  {
    match At(b, sq)
    case None => []
    case Some(p) => if p.color == me then Pairs(sq, Targets(b, p)) else []
  }

  /** The moves from the first `c` squares of row `r`, left to right. */
  function RowMoves(b: Grid, me: Color, r: int, c: int): seq<Move>
    requires Placed(b) && 0 <= r < 8 && 0 <= c <= 8
  {
    if c == 0 then [] else RowMoves(b, me, r, c - 1) + MovesFrom(b, me, (r, c - 1))
  }

  /** The moves from the first `r` rows, top to bottom. */
  function MovesBefore(b: Grid, me: Color, r: int): seq<Move>
    requires Placed(b) && 0 <= r <= 8
  {
    if r == 0 then [] else MovesBefore(b, me, r - 1) + RowMoves(b, me, r - 1, 8)
  }

  /** Every pseudo-legal move of colour `me`, origins in row-major order. */
  function AllMoves(b: Grid, me: Color): seq<Move>
    requires Placed(b)
  {
    MovesBefore(b, me, 8)
  }

  lemma MovesFromExact(b: Grid, me: Color, sq: Square)
    requires Placed(b) && OnBoard(sq)
    ensures forall m :: m in MovesFrom(b, me, sq) <==> m.0 == sq && IsMoveOf(b, me, m)
  {
    forall m ensures m in MovesFrom(b, me, sq) <==> m.0 == sq && IsMoveOf(b, me, m) {
      MovesFromMember(b, me, sq, m);
    }
  }

  lemma MovesFromMember(b: Grid, me: Color, sq: Square, m: Move)
    requires Placed(b) && OnBoard(sq)
    ensures m in MovesFrom(b, me, sq) <==> m.0 == sq && IsMoveOf(b, me, m)
  {
  }

  lemma RowMovesExact(b: Grid, me: Color, r: int, c: int)
    requires Placed(b) && 0 <= r < 8 && 0 <= c <= 8
    ensures forall m :: m in RowMoves(b, me, r, c) <==> m.0.0 == r && 0 <= m.0.1 < c && IsMoveOf(b, me, m)
  {
    forall m ensures m in RowMoves(b, me, r, c) <==> m.0.0 == r && 0 <= m.0.1 < c && IsMoveOf(b, me, m) {
      RowMovesMember(b, me, r, c, m);
    }
  }

  lemma {:induction false} RowMovesMember(b: Grid, me: Color, r: int, c: int, m: Move)
    requires Placed(b) && 0 <= r < 8 && 0 <= c <= 8
    ensures m in RowMoves(b, me, r, c) <==> m.0.0 == r && 0 <= m.0.1 < c && IsMoveOf(b, me, m)
  {
    if c > 0 {
      RowMovesMember(b, me, r, c - 1, m);
      MovesFromMember(b, me, (r, c - 1), m);
      RowMovesStep(b, me, r, c, m);
    }
  }

  /** One more square of the row: its moves are added after the others. */
  lemma RowMovesStep(b: Grid, me: Color, r: int, c: int, m: Move)
    requires Placed(b) && 0 <= r < 8 && 0 < c <= 8
    requires m in RowMoves(b, me, r, c - 1) <==> m.0.0 == r && 0 <= m.0.1 < c - 1 && IsMoveOf(b, me, m)
    requires m in MovesFrom(b, me, (r, c - 1)) <==> m.0 == (r, c - 1) && IsMoveOf(b, me, m)
    ensures m in RowMoves(b, me, r, c) <==> m.0.0 == r && 0 <= m.0.1 < c && IsMoveOf(b, me, m)
  {
    assert m in RowMoves(b, me, r, c) <==> m in RowMoves(b, me, r, c - 1) || m in MovesFrom(b, me, (r, c - 1));
  }

  lemma {:induction false} MovesBeforeExact(b: Grid, me: Color, r: int)
    requires Placed(b) && 0 <= r <= 8
    ensures forall m :: m in MovesBefore(b, me, r) <==> 0 <= m.0.0 < r && IsMoveOf(b, me, m)
  {
    if r > 0 {
      MovesBeforeExact(b, me, r - 1);
      RowMovesExact(b, me, r - 1, 8);
    }
  }

  lemma AllMovesCanApply(b: Grid, me: Color)
    requires Placed(b)
    ensures AllApply(b, AllMoves(b, me))
  {
    MovesBeforeExact(b, me, 8);
  }

  /** The position of a square in row-major order. */
  function Index(sq: Square): int
  {
    8 * sq.0 + sq.1
  }

  /** Origins never go backwards in row-major order. */
  predicate RowMajor(s: seq<Move>)
  {
    forall i, j :: 0 <= i < j < |s| ==> Index(s[i].0) <= Index(s[j].0)
  }

  lemma RowMajorAppend(x: seq<Move>, y: seq<Move>)
    requires RowMajor(x) && RowMajor(y)
    requires forall i, j :: 0 <= i < |x| && 0 <= j < |y| ==> Index(x[i].0) <= Index(y[j].0)
    ensures RowMajor(x + y)
  {
    forall i, j | 0 <= i < j < |x + y|
      ensures Index((x + y)[i].0) <= Index((x + y)[j].0)
    {
      if j < |x| {
      } else if i < |x| {
        assert (x + y)[j] == y[j - |x|];
      } else {
        assert (x + y)[i] == y[i - |x|] && (x + y)[j] == y[j - |x|];
      }
    }
  }

  lemma {:induction false} RowMovesRowMajor(b: Grid, me: Color, r: int, c: int)
    requires Placed(b) && 0 <= r < 8 && 0 <= c <= 8
    ensures RowMajor(RowMoves(b, me, r, c))
    ensures forall i :: 0 <= i < |RowMoves(b, me, r, c)| ==>
      8 * r <= Index(RowMoves(b, me, r, c)[i].0) < 8 * r + c
  {
    if c > 0 {
      var init, last := RowMoves(b, me, r, c - 1), MovesFrom(b, me, (r, c - 1));
      RowMovesRowMajor(b, me, r, c - 1);
      MovesFromOrigin(b, me, (r, c - 1));
      BlockAppend(init, last, 8 * r, 8 * r + c - 1);
      assert RowMoves(b, me, r, c) == init + last;
    }
  }

  /** Every move from a square starts on that square. */
  lemma MovesFromOrigin(b: Grid, me: Color, sq: Square)
    requires Placed(b) && OnBoard(sq)
    ensures forall i :: 0 <= i < |MovesFrom(b, me, sq)| ==> MovesFrom(b, me, sq)[i].0 == sq
  {
    var s := MovesFrom(b, me, sq);
    forall i | 0 <= i < |s| ensures s[i].0 == sq {
      assert s[i] in s;
    }
  }

  /** Appending moves that all start on square number `k` to moves whose
      origins lie in [lo, k) keeps the row-major order. */
  lemma BlockAppend(x: seq<Move>, y: seq<Move>, lo: int, k: int)
    requires lo <= k
    requires RowMajor(x) && forall i :: 0 <= i < |x| ==> lo <= Index(x[i].0) < k
    requires forall i :: 0 <= i < |y| ==> Index(y[i].0) == k
    ensures RowMajor(x + y)
    ensures forall i :: 0 <= i < |x + y| ==> lo <= Index((x + y)[i].0) < k + 1
  {
    assert RowMajor(y);
    RowMajorAppend(x, y);
    forall i | 0 <= i < |x + y| ensures lo <= Index((x + y)[i].0) < k + 1 {
      if i >= |x| {
        assert (x + y)[i] == y[i - |x|];
      } else {
        assert (x + y)[i] == x[i];
      }
    }
  }

  lemma {:induction false} MovesBeforeRowMajor(b: Grid, me: Color, r: int)
    requires Placed(b) && 0 <= r <= 8
    ensures RowMajor(MovesBefore(b, me, r))
    ensures forall i :: 0 <= i < |MovesBefore(b, me, r)| ==> 0 <= Index(MovesBefore(b, me, r)[i].0) < 8 * r
  {
    if r > 0 {
      var init, last := MovesBefore(b, me, r - 1), RowMoves(b, me, r - 1, 8);
      MovesBeforeRowMajor(b, me, r - 1);
      RowMovesRowMajor(b, me, r - 1, 8);
      RowsAppend(init, last, 8 * (r - 1));
      assert MovesBefore(b, me, r) == init + last;
    }
  }

  /** Appending a whole later row keeps the row-major order. */
  lemma RowsAppend(x: seq<Move>, y: seq<Move>, k: int)
    requires 0 <= k
    requires RowMajor(x) && forall i :: 0 <= i < |x| ==> 0 <= Index(x[i].0) < k
    requires RowMajor(y) && forall i :: 0 <= i < |y| ==> k <= Index(y[i].0) < k + 8
    ensures RowMajor(x + y)
    ensures forall i :: 0 <= i < |x + y| ==> 0 <= Index((x + y)[i].0) < k + 8
  {
    RowMajorAppend(x, y);
    forall i | 0 <= i < |x + y| ensures 0 <= Index((x + y)[i].0) < k + 8 {
      if i >= |x| {
        assert (x + y)[i] == y[i - |x|];
      } else {
        assert (x + y)[i] == x[i];
      }
    }
  }

  /** `_get_all_moves` lists exactly the pseudo-legal moves of the colour,
      with origins in row-major order. */
  lemma AllMovesExactInRowMajorOrder(b: Grid, me: Color)
    requires Placed(b)
    ensures forall m :: m in AllMoves(b, me) <==> IsMoveOf(b, me, m)
    ensures RowMajor(AllMoves(b, me))
  {
    MovesBeforeExact(b, me, 8);
    MovesBeforeRowMajor(b, me, 8);
  }

  // ---------------------------------------------------------------------
  // The board after a move

  /** The piece after `Piece.move` to `to`, with a pawn's first-move flag cleared. */
  function Relocated(p: Piece, to: Square): Piece
  {
    var q := MoveTo(p, to);
    if q.kind.Pawn? then q.(kind := Pawn(false)) else q
  }

  /** The snapshot after moving the piece on `m.0` to `m.1`: the origin is
      emptied first, then the destination receives the moved piece. */
  function ApplyMove(b: Grid, m: Move): (r: Grid)
    requires IsGrid(b) && CanApply(b, m)
    ensures IsGrid(r)
    ensures At(r, m.1) == Some(Relocated(At(b, m.0).value, m.1))
    ensures m.0 != m.1 ==> At(r, m.0) == None
    ensures forall sq :: OnBoard(sq) && sq != m.0 && sq != m.1 ==> At(r, sq) == At(b, sq)
    ensures WellPlaced(b) ==> WellPlaced(r)
  {
    var moved := Relocated(At(b, m.0).value, m.1);
    seq(8, r requires 0 <= r < 8 =>
      seq(8, c requires 0 <= c < 8 =>
        if (r, c) == m.1 then Some(moved) else if (r, c) == m.0 then None else b[r][c]))
  }

  /** One cell of `ApplyMove`. */
  lemma ApplyMoveCell(b: Grid, m: Move, r: int, c: int)
    requires IsGrid(b) && CanApply(b, m) && 0 <= r < 8 && 0 <= c < 8
    ensures ApplyMove(b, m)[r][c] ==
      if (r, c) == m.1 then Some(Relocated(At(b, m.0).value, m.1))
      else if (r, c) == m.0 then None
      else b[r][c]
  {
  }

  /** Only a pawn's first-move flag changes; every other kind keeps its
      kind, and the piece keeps its colour. */
  lemma ApplyMoveKeepsIdentity(b: Grid, m: Move)
    requires IsGrid(b) && CanApply(b, m)
    ensures var before, after := At(b, m.0).value, At(ApplyMove(b, m), m.1).value;
      && after.color == before.color
      && (before.kind.Pawn? <==> after.kind.Pawn?)
      && (after.kind.Pawn? ==> !after.kind.firstMove)
      && (!before.kind.Pawn? ==> after.kind == before.kind)
  {
  }
}
