/** The computer opponent (`AI_Player`): depth-limited minimax with
    alpha-beta pruning over pseudo-legal moves.

    `Value` is plain minimax on snapshots, with no pruning; it is the
    specification. The player's methods run the pruned search on live
    board arrays, and each is proved against its specification. */
module Search {
  import opened Pieces
  import opened Moves
  import opened Evaluation
  import Boards

  /** Scores with the two infinities the search starts its bounds at. */
  datatype ExtInt = NegInf | Fin(n: int) | PosInf

  predicate Less(x: ExtInt, y: ExtInt)
  {
    match (x, y)
    case (NegInf, NegInf) => false
    case (NegInf, _) => true
    case (Fin(a), Fin(b)) => a < b
    case (Fin(_), PosInf) => true
    case _ => false
  }

  predicate AtMost(x: ExtInt, y: ExtInt)
  {
    !Less(y, x)
  }

  function Max(x: ExtInt, y: ExtInt): ExtInt
  {
    if Less(x, y) then y else x
  }

  function Min(x: ExtInt, y: ExtInt): ExtInt
  {
    if Less(y, x) then y else x
  }

  /** What an alpha-beta search promises about its result `v` in the window
      (alpha, beta), for a node whose true value is `exact`: a result at or
      below alpha bounds it from above, one at or above beta bounds it from
      below, and one strictly inside the window is exact. */
  predicate FailSoft(v: int, alpha: ExtInt, beta: ExtInt, exact: int)
  {
    && (AtMost(Fin(v), alpha) ==> exact <= v)
    && (AtMost(beta, Fin(v)) ==> v <= exact)
    && (Less(alpha, Fin(v)) && Less(Fin(v), beta) ==> v == exact)
  }

  // ---------------------------------------------------------------------
  // Plain minimax: the specification

  /** The side to move at a node: the player at a maximizing node, the
      opponent at a minimizing one. */
  function Mover(maximizing: bool, me: Color): Color
  {
    if maximizing then me else Opponent(me)
  }

  /** The better of two values for the side to move. */
  function Pick(x: int, y: int, maximizing: bool): int
  {
    if maximizing then (if x < y then y else x) else (if y < x then y else x)
  }

  /** The largest (maximizing) or smallest value of a non-empty list,
      folded from the left as the search loop does. */
  function Extreme(xs: seq<int>, maximizing: bool): int
    requires |xs| > 0
  {
    if |xs| == 1 then xs[0] else Pick(Extreme(xs[..|xs| - 1], maximizing), xs[|xs| - 1], maximizing)
  }

  /** The minimax value, from `me`'s point of view, of position `b` searched
      `depth` plies deep: the evaluation at depth 0 or when the side to move
      has no pseudo-legal move, otherwise the best child value for the side
      to move. */
  function Value(b: Grid, depth: nat, maximizing: bool, me: Color): int
    requires Placed(b)
    decreases depth, 0
  {
    if depth == 0 then Eval(b, me)
    else
      var moves := AllMoves(b, Mover(maximizing, me));
      if moves == [] then Eval(b, me)
      else
        AllMovesCanApply(b, Mover(maximizing, me));
        Extreme(Children(b, moves, depth - 1, maximizing, me), maximizing)
  }

  /** The values of the positions after each of `moves`, searched `d`
      plies deep with the other side to move. */
  function Children(b: Grid, moves: seq<Move>, d: nat, maximizing: bool, me: Color): (vs: seq<int>)
    requires Placed(b) && AllApply(b, moves)
    ensures |vs| == |moves|
    decreases d, 1
  {
    seq(|moves|, i requires 0 <= i < |moves| => Value(ApplyMove(b, moves[i]), d, !maximizing, me))
  }

  /** The two cases of `Value`, as the search meets them. */
  lemma ValueAtLeaf(b: Grid, depth: nat, maximizing: bool, me: Color)
    requires Placed(b) && (depth == 0 || AllMoves(b, Mover(maximizing, me)) == [])
    ensures Value(b, depth, maximizing, me) == Eval(b, me)
  {
  }

  lemma ValueAtNode(b: Grid, depth: nat, maximizing: bool, me: Color)
    requires Placed(b) && depth > 0 && AllMoves(b, Mover(maximizing, me)) != []
    ensures AllApply(b, AllMoves(b, Mover(maximizing, me)))
    ensures Value(b, depth, maximizing, me) ==
      Extreme(Children(b, AllMoves(b, Mover(maximizing, me)), depth - 1, maximizing, me), maximizing)
  {
    AllMovesCanApply(b, Mover(maximizing, me));
  }

  /** A result that is fail-soft for the best child value is fail-soft
      for the node. */
  lemma NodeIsFailSoft(b: Grid, moves: seq<Move>, depth: nat, maximizing: bool, me: Color, v: int, alpha: ExtInt, beta: ExtInt)
    requires Placed(b) && depth > 0 && moves == AllMoves(b, Mover(maximizing, me)) && moves != []
    requires AllApply(b, moves)
    requires FailSoft(v, alpha, beta, Extreme(Children(b, moves, depth - 1, maximizing, me), maximizing))
    ensures FailSoft(v, alpha, beta, Value(b, depth, maximizing, me))
  {
    ValueAtNode(b, depth, maximizing, me);
  }

  // ---------------------------------------------------------------------
  // Properties of minimax

  /** `Extreme` is the maximum (minimum) of the list: no element is better
      for the side to move, and some element attains it. */
  lemma {:induction false} ExtremeIsBest(xs: seq<int>, maximizing: bool)
    requires |xs| > 0
    ensures forall i :: 0 <= i < |xs| ==>
      if maximizing then xs[i] <= Extreme(xs, maximizing) else Extreme(xs, maximizing) <= xs[i]
    ensures exists i :: 0 <= i < |xs| && Extreme(xs, maximizing) == xs[i]
  {
    var n := |xs|;
    if n == 1 {
      assert Extreme(xs, maximizing) == xs[0];
    } else {
      var init := xs[..n - 1];
      ExtremeIsBest(init, maximizing);
      assert forall i :: 0 <= i < n - 1 ==> init[i] == xs[i];
      var j :| 0 <= j < n - 1 && Extreme(init, maximizing) == init[j];
      if Extreme(xs, maximizing) != xs[n - 1] {
        assert Extreme(xs, maximizing) == xs[j];
      }
    }
  }

  /** Extending a prefix by one more element. */
  lemma ExtremeStep(xs: seq<int>, i: nat, maximizing: bool)
    requires i < |xs|
    ensures Extreme(xs[..i + 1], maximizing) ==
      if i == 0 then xs[0] else Pick(Extreme(xs[..i], maximizing), xs[i], maximizing)
  {
    assert xs[..i + 1][..i] == xs[..i];
  }

  /** The prefix of the whole length is the whole list. */
  lemma ExtremeOfWhole(xs: seq<int>, maximizing: bool)
    requires |xs| > 0
    ensures Extreme(xs[..|xs|], maximizing) == Extreme(xs, maximizing)
  {
    assert xs[..|xs|] == xs;
  }

  /** A prefix is never better for the side to move than the whole list. */
  lemma ExtremeOfPrefix(xs: seq<int>, k: nat, maximizing: bool)
    requires 0 < k <= |xs|
    ensures maximizing ==> Extreme(xs[..k], maximizing) <= Extreme(xs, maximizing)
    ensures !maximizing ==> Extreme(xs, maximizing) <= Extreme(xs[..k], maximizing)
  {
    ExtremeIsBest(xs[..k], maximizing);
    ExtremeIsBest(xs, maximizing);
    var j :| 0 <= j < k && Extreme(xs[..k], maximizing) == xs[..k][j];
  }

  /** The minimax value of a position with moves is the best value among
      the positions those moves lead to. */
  lemma ValueIsBestChild(b: Grid, depth: nat, maximizing: bool, me: Color)
    requires Placed(b) && depth > 0 && AllMoves(b, Mover(maximizing, me)) != []
    ensures AllApply(b, AllMoves(b, Mover(maximizing, me)))
    ensures var moves := AllMoves(b, Mover(maximizing, me));
      var vs := Children(b, moves, depth - 1, maximizing, me);
      && (forall i :: 0 <= i < |moves| ==>
            vs[i] == Value(ApplyMove(b, moves[i]), depth - 1, !maximizing, me)
            && if maximizing then vs[i] <= Value(b, depth, maximizing, me)
               else Value(b, depth, maximizing, me) <= vs[i])
      && (exists i :: 0 <= i < |moves| && Value(b, depth, maximizing, me) == vs[i])
  {
    AllMovesCanApply(b, Mover(maximizing, me));
    ExtremeIsBest(Children(b, AllMoves(b, Mover(maximizing, me)), depth - 1, maximizing, me), maximizing);
  }

  // ---------------------------------------------------------------------
  // The loops of the pruned search, on the list of true child values

  /** The state of the maximizing loop after the first `i` children, whose
      true values are `xs[..i]`: `value` is the best result so far (NegInf
      before any), exact when above `alpha` and an upper bound otherwise. */
  predicate MaxSoFar(xs: seq<int>, i: int, alpha: ExtInt, value: ExtInt)
    requires 0 <= i <= |xs|
  {
    if i == 0 then value == NegInf
    else
      && value.Fin?
      && (AtMost(value, alpha) ==> Extreme(xs[..i], true) <= value.n)
      && (Less(alpha, value) ==> Extreme(xs[..i], true) == value.n)
  }

  /** One more child, searched in the window (max(alpha, value), beta).
      Unless the raised alpha reaches beta, `MaxSoFar` holds for one more
      child; if it does, the node is cut off and the child's result is
      fail-soft for the whole node. */
  lemma MaxStep(xs: seq<int>, i: int, alpha: ExtInt, beta: ExtInt, value: ExtInt, cv: int)
    requires 0 <= i < |xs| && MaxSoFar(xs, i, alpha, value) && Less(Max(alpha, value), beta)
    requires FailSoft(cv, Max(alpha, value), beta, xs[i])
    ensures Less(Max(Max(alpha, value), Max(value, Fin(cv))), beta) ==> MaxSoFar(xs, i + 1, alpha, Max(value, Fin(cv)))
    ensures AtMost(beta, Max(Max(alpha, value), Max(value, Fin(cv)))) ==>
      Max(value, Fin(cv)) == Fin(cv) && FailSoft(cv, alpha, beta, Extreme(xs, true))
  {
    ExtremeStep(xs, i, true);
    ExtremeIsBest(xs, true);
  }

  /** After every child, the maximizing loop's result is fail-soft for the
      whole node. */
  lemma MaxDone(xs: seq<int>, alpha: ExtInt, beta: ExtInt, value: ExtInt)
    requires |xs| > 0 && MaxSoFar(xs, |xs|, alpha, value) && Less(Max(alpha, value), beta)
    ensures value.Fin? && FailSoft(value.n, alpha, beta, Extreme(xs, true))
  {
    assert xs[..|xs|] == xs;
  }

  /** The state of the minimizing loop after the first `i` children. */
  predicate MinSoFar(xs: seq<int>, i: int, beta: ExtInt, value: ExtInt)
    requires 0 <= i <= |xs|
  {
    if i == 0 then value == PosInf
    else
      && value.Fin?
      && (AtMost(beta, value) ==> value.n <= Extreme(xs[..i], false))
      && (Less(value, beta) ==> Extreme(xs[..i], false) == value.n)
  }

  lemma MinStep(xs: seq<int>, i: int, alpha: ExtInt, beta: ExtInt, value: ExtInt, cv: int)
    requires 0 <= i < |xs| && MinSoFar(xs, i, beta, value) && Less(alpha, Min(beta, value))
    requires FailSoft(cv, alpha, Min(beta, value), xs[i])
    ensures Less(alpha, Min(Min(beta, value), Min(value, Fin(cv)))) ==> MinSoFar(xs, i + 1, beta, Min(value, Fin(cv)))
    ensures AtMost(Min(Min(beta, value), Min(value, Fin(cv))), alpha) ==>
      Min(value, Fin(cv)) == Fin(cv) && FailSoft(cv, alpha, beta, Extreme(xs, false))
  {
    ExtremeStep(xs, i, false);
    ExtremeIsBest(xs, false);
  }

  lemma MinDone(xs: seq<int>, alpha: ExtInt, beta: ExtInt, value: ExtInt)
    requires |xs| > 0 && MinSoFar(xs, |xs|, beta, value) && Less(alpha, Min(beta, value))
    ensures value.Fin? && FailSoft(value.n, alpha, beta, Extreme(xs, false))
  {
    assert xs[..|xs|] == xs;
  }

  // ---------------------------------------------------------------------
  // The root of `compute_move`

  /** The root loop of `compute_move` on the list of root values: the best
      value so far (NegInf before any move) and the move that first reached
      it, replaced only by a strictly better one. */
  function RootFold(vs: seq<int>, moves: seq<Move>): (r: (ExtInt, Option<Move>))
    requires |vs| == |moves|
    ensures r.0.NegInf? || r.0.Fin?
  {
    if moves == [] then (NegInf, None)
    else
      var n := |moves|;
      var (bestVal, bestMove) := RootFold(vs[..n - 1], moves[..n - 1]);
      if Less(bestVal, Fin(vs[n - 1])) then (Fin(vs[n - 1]), Some(moves[n - 1])) else (bestVal, bestMove)
  }

  /** With no moves the root reports no move and NegInf; otherwise it
      reports the largest value and the first move attaining it. */
  lemma {:induction false} RootFoldFindsFirstBest(vs: seq<int>, moves: seq<Move>)
    requires |vs| == |moves|
    ensures moves == [] ==> RootFold(vs, moves) == (NegInf, None)
    ensures moves != [] ==> RootFold(vs, moves).0 == Fin(Extreme(vs, true))
    ensures moves != [] ==> exists i :: (0 <= i < |moves|
      && RootFold(vs, moves).1 == Some(moves[i])
      && vs[i] == Extreme(vs, true)
      && (forall j :: 0 <= j < i ==> vs[j] < Extreme(vs, true)))
  {
    var n := |moves|;
    if n > 0 {
      var pre, init := vs[..n - 1], moves[..n - 1];
      assert forall i :: 0 <= i < n - 1 ==> pre[i] == vs[i] && init[i] == moves[i];
      RootFoldFindsFirstBest(pre, init);
      if n == 1 {
        assert RootFold(vs, moves) == (Fin(vs[0]), Some(moves[0]));
      } else {
        var i :| 0 <= i < n - 1
          && RootFold(pre, init).1 == Some(init[i])
          && pre[i] == Extreme(pre, true)
          && (forall j :: 0 <= j < i ==> pre[j] < Extreme(pre, true));
        ExtremeIsBest(pre, true);
        if Extreme(pre, true) < vs[n - 1] {
          assert RootFold(vs, moves).1 == Some(moves[n - 1]);
          assert forall j :: 0 <= j < n - 1 ==> vs[j] < Extreme(vs, true) by {
            assert forall j :: 0 <= j < n - 1 ==> vs[j] == pre[j];
          }
        } else {
          assert RootFold(vs, moves).1 == Some(moves[i]);
        }
      }
    }
  }

  /** One iteration of the root loop, whose window is (best value so far,
      PosInf): a fail-soft result for the next move updates the running
      best exactly as the true value would. */
  lemma RootStep(vs: seq<int>, moves: seq<Move>, i: int, bestVal: ExtInt, bestMove: Option<Move>, val: int)
    requires |vs| == |moves| && 0 <= i < |moves|
    requires (bestVal, bestMove) == RootFold(vs[..i], moves[..i])
    requires FailSoft(val, bestVal, PosInf, vs[i])
    ensures RootFold(vs[..i + 1], moves[..i + 1]) ==
      if Less(bestVal, Fin(val)) then (Fin(val), Some(moves[i])) else (bestVal, bestMove)
  {
    assert vs[..i + 1][..i] == vs[..i] && moves[..i + 1][..i] == moves[..i];
  }

  lemma RootFoldWhole(vs: seq<int>, moves: seq<Move>)
    requires |vs| == |moves|
    ensures RootFold(vs[..|vs|], moves[..|moves|]) == RootFold(vs, moves)
  {
    assert vs[..|vs|] == vs && moves[..|moves|] == moves;
  }

  /** The score and move the root loop of `compute_move` settles on when
      every move of `me` is valued by plain minimax `level - 1` plies deep. */
  function RootChoice(b: Grid, level: nat, me: Color): (ExtInt, Option<Move>)
    requires Placed(b) && 1 <= level
  {
    AllMovesCanApply(b, me);
    RootFold(Children(b, AllMoves(b, me), level - 1, true, me), AllMoves(b, me))
  }

  lemma RootChoiceOf(b: Grid, level: nat, me: Color, moves: seq<Move>)
    requires Placed(b) && 1 <= level && moves == AllMoves(b, me)
    ensures AllApply(b, moves)
    ensures RootChoice(b, level, me) == RootFold(Children(b, moves, level - 1, true, me), moves)
  {
    AllMovesCanApply(b, me);
  }

  /** `compute_move` on unpruned values: None exactly when the player has
      no pseudo-legal move; otherwise the reported score is the minimax
      value of the position at the player's difficulty level and the move
      is the first one, in enumeration order, whose value equals it. */
  lemma RootIsMinimax(b: Grid, level: nat, me: Color)
    requires Placed(b) && 1 <= level
    ensures AllApply(b, AllMoves(b, me))
    ensures var moves := AllMoves(b, me);
      var vs := Children(b, moves, level - 1, true, me);
      var (score, choice) := RootChoice(b, level, me);
      && (choice.None? <==> moves == [])
      && (moves != [] ==> score == Fin(Value(b, level, true, me)))
      && (moves != [] ==> exists i :: (0 <= i < |moves|
            && choice == Some(moves[i])
            && vs[i] == Value(b, level, true, me)
            && (forall j :: 0 <= j < i ==> vs[j] < Value(b, level, true, me))))
  {
    var moves := AllMoves(b, me);
    RootChoiceOf(b, level, me, moves);
    RootFoldFindsFirstBest(Children(b, moves, level - 1, true, me), moves);
    if moves != [] {
      ValueAtNode(b, level, true, me);
    }
  }

  /** The `i`-th child value is the value of the position after the `i`-th move. */
  lemma ChildAt(b: Grid, moves: seq<Move>, d: nat, maximizing: bool, me: Color, i: int)
    requires Placed(b) && AllApply(b, moves) && 0 <= i < |moves|
    ensures Children(b, moves, d, maximizing, me)[i] == Value(ApplyMove(b, moves[i]), d, !maximizing, me)
  {
  }

  // ---------------------------------------------------------------------
  // The player

  class AIPlayer {
    const color: Color
    var difficultyLevel: int
    /** The score of the last move chosen, as `compute_move` leaves it. */
    var evaluationScore: ExtInt

    /** A player of colour `color` searching `difficultyLevel` plies deep,
        3 unless given. */
    constructor(color: Color, difficultyLevel: int := 3)
      ensures this.color == color && this.difficultyLevel == difficultyLevel
      ensures evaluationScore == Fin(0)
    {
      this.color := color;
      this.difficultyLevel := difficultyLevel;
      evaluationScore := Fin(0);
    }

    /** `_get_all_moves`: every piece of colour `side`, row by row, then
        each of its destinations in the order its generator gives them.
        The row loop, the column loop and the body for one square are the
        three methods below. */
    method GetAllMoves(a: array2<Option<Piece>>, side: Color) returns (moves: seq<Move>)
      requires IsSquareArray(a) && Placed(Cells(a))
      ensures moves == AllMoves(Cells(a), side)
    {
      moves := [];
      for r := 0 to 8
        invariant moves == MovesBefore(Cells(a), side, r)
      {
        var row := GetRowMoves(a, side, r);
        moves := moves + row;
      }
    }

    /** The column loop of `_get_all_moves` for row `r`. */
    method GetRowMoves(a: array2<Option<Piece>>, side: Color, r: int) returns (moves: seq<Move>)
      requires IsSquareArray(a) && Placed(Cells(a)) && 0 <= r < 8
      ensures moves == RowMoves(Cells(a), side, r, 8)
    {
      moves := [];
      for c := 0 to 8
        invariant moves == RowMoves(Cells(a), side, r, c)
      {
        var ms := GetSquareMoves(a, side, r, c);
        moves := moves + ms;
      }
    }

    /** The moves `_get_all_moves` appends for square (r, c): one per
        destination, in order, when it holds a piece of colour `side`. */
    method GetSquareMoves(a: array2<Option<Piece>>, side: Color, r: int, c: int) returns (moves: seq<Move>)
      requires IsSquareArray(a) && Placed(Cells(a)) && 0 <= r < 8 && 0 <= c < 8
      ensures moves == MovesFrom(Cells(a), side, (r, c))
    {
      moves := [];
      var p := a[r, c];
      assert At(Cells(a), (r, c)) == p;
      if p.Some? && p.value.color == side {
        var dests := PossibleMoves(a, p.value);
        moves := PairWith((r, c), dests);
      }
    }

    /** The inner loop of `_get_all_moves`: one move from `from` per
        destination, appended in the order the generator yields them. */
    method PairWith(from: Square, dests: seq<Square>) returns (moves: seq<Move>)
      ensures moves == Pairs(from, dests)
    {
      moves := [];
      for i := 0 to |dests|
        invariant moves == Pairs(from, dests[..i])
      {
        assert dests[..i + 1][..i] == dests[..i];
        moves := moves + [(from, dests[i])];
      }
      assert dests[..|dests|] == dests;
    }

    /** `_simulate`: a copy of the board with the move carried out; the
        board passed in is left as it was. */
    method Simulate(a: array2<Option<Piece>>, m: Move) returns (n: array2<Option<Piece>>)
      requires IsSquareArray(a) && CanApply(Cells(a), m)
      ensures fresh(n) && IsSquareArray(n)
      ensures Cells(n) == ApplyMove(Cells(a), m)
    {
      ghost var b := Cells(a);
      n := CopyBoard(a);
      MovePiece(n, m);
      ghost var after := ApplyMove(b, m);
      forall r, c | 0 <= r < 8 && 0 <= c < 8
        ensures n[r, c] == after[r][c]
      {
        ApplyMoveCell(b, m, r, c);
      }
      GridsEqual(Cells(n), after);
    }

    /** `Piece.move` on the copy: the origin is emptied and the piece, with
        its new position (and a pawn's first-move flag cleared), is put on
        the destination. */
    method MovePiece(n: array2<Option<Piece>>, m: Move)
      requires IsSquareArray(n) && OnBoard(m.0) && OnBoard(m.1) && n[m.0.0, m.0.1].Some?
      modifies n
      ensures forall r, c :: 0 <= r < 8 && 0 <= c < 8 ==>
        n[r, c] == if (r, c) == m.1 then Some(Relocated(old(n[m.0.0, m.0.1]).value, m.1))
                   else if (r, c) == m.0 then None
                   else old(n[r, c])
    {
      var ((sr, sc), (dr, dc)) := m;
      var piece := n[sr, sc].value;
      n[sr, sc] := None;
      piece := MoveTo(piece, (dr, dc));
      if piece.kind.Pawn? {
        piece := piece.(kind := Pawn(false));
      }
      n[dr, dc] := Some(piece);
    }

    /** `copy.deepcopy` of the board array: a fresh array with the same cells. */
    method CopyBoard(a: array2<Option<Piece>>) returns (n: array2<Option<Piece>>)
      requires IsSquareArray(a)
      ensures fresh(n) && IsSquareArray(n)
      ensures forall r, c :: 0 <= r < 8 && 0 <= c < 8 ==> n[r, c] == Cells(a)[r][c]
    {
      n := new Option<Piece>[8, 8]((r, c) reads a => if 0 <= r < 8 && 0 <= c < 8 then a[r, c] else None);
    }

    /** `_king_in_check`: find the first king of colour `c` scanning row by
        row, then look for an opposing piece that has its square among its
        destinations. */
    method KingInCheck(c: Color, a: array2<Option<Piece>>) returns (inCheck: bool)
      requires IsSquareArray(a) && Placed(Cells(a))
      ensures inCheck == InCheck(Cells(a), c)
    {
      var kp := FindKingSquare(c, a);
      if kp.None? {
        return false;
      }
      inCheck := IsAttacked(a, kp.value, Opponent(c));
    }

    /** The first loop of `_king_in_check`: the square of the first king of
        colour `c` in row-major order, leaving both loops once found. */
    method FindKingSquare(c: Color, a: array2<Option<Piece>>) returns (kp: Option<Square>)
      requires IsSquareArray(a)
      ensures kp == FindKing(Cells(a), c)
    {
      kp := None;
      for r := 0 to 8
        invariant kp.None?
        invariant FindKing(Cells(a), c) == KingFromRow(Cells(a), c, r)
      {
        kp := FindKingInRow(c, a, r);
        assert KingFromRow(Cells(a), c, r) == if kp.Some? then kp else KingFromRow(Cells(a), c, r + 1);
        if kp.Some? {
          break;
        }
      }
    }

    /** The column loop of the king search in row `r`. */
    method FindKingInRow(c: Color, a: array2<Option<Piece>>, r: int) returns (kp: Option<Square>)
      requires IsSquareArray(a) && 0 <= r < 8
      ensures kp == KingInRow(Cells(a), c, r, 0)
    {
      kp := None;
      for col := 0 to 8
        invariant KingInRow(Cells(a), c, r, 0) == KingInRow(Cells(a), c, r, col)
      {
        var p := a[r, col];
        if p.Some? && p.value.kind == King && p.value.color == c {
          kp := Some((r, col));
          break;
        }
      }
    }

    /** The second loop of `_king_in_check`: some piece of colour
        `attacker` has `k` among its destinations. */
    method IsAttacked(a: array2<Option<Piece>>, k: Square, attacker: Color) returns (hit: bool)
      requires IsSquareArray(a) && Placed(Cells(a))
      ensures hit == Attacked(Cells(a), k, attacker)
    {
      for r := 0 to 8
        invariant Attacked(Cells(a), k, attacker) == AttackedFromRow(Cells(a), k, attacker, r)
      {
        hit := RowAttacks(a, attacker, r, k);
        if hit {
          return;
        }
      }
      return false;
    }

    /** The column loop of the attack search in row `r`. */
    method RowAttacks(a: array2<Option<Piece>>, attacker: Color, r: int, k: Square) returns (hit: bool)
      requires IsSquareArray(a) && Placed(Cells(a)) && 0 <= r < 8
      ensures hit == AttackedInRow(Cells(a), k, attacker, r, 0)
    {
      for col := 0 to 8
        invariant AttackedInRow(Cells(a), k, attacker, r, 0) == AttackedInRow(Cells(a), k, attacker, r, col)
      {
        hit := SquareAttacks(a, attacker, (r, col), k);
        if hit {
          return;
        }
      }
      return false;
    }

    /** The test `_king_in_check` makes on one square: it holds a piece of
        colour `attacker` with `k` among its destinations. */
    method SquareAttacks(a: array2<Option<Piece>>, attacker: Color, sq: Square, k: Square) returns (hit: bool)
      requires IsSquareArray(a) && Placed(Cells(a)) && OnBoard(sq)
      ensures hit == IsMoveOf(Cells(a), attacker, (sq, k))
    {
      var p := a[sq.0, sq.1];
      if p.Some? && p.value.color == attacker {
        var moves := PossibleMoves(a, p.value);
        hit := k in moves;
      } else {
        hit := false;
      }
    }

    /** `evaluate_board`: material and centre bonus square by square, the
        two move counts, then the mobility term and the check bonus. */
    method EvaluateBoard(a: array2<Option<Piece>>) returns (score: int)
      requires IsSquareArray(a) && Placed(Cells(a))
      ensures score == Eval(Cells(a), color)
    {
      score := 0;
      var myMoves, oppMoves := 0, 0;
      for r := 0 to 8
        invariant score == ScoreBefore(Cells(a), color, r)
        invariant myMoves == MobilityBefore(Cells(a), color, r)
        invariant oppMoves == MobilityBefore(Cells(a), Opponent(color), r)
      {
        var rowScore, rowMine, rowTheirs := EvaluateRow(a, r);
        score, myMoves, oppMoves := score + rowScore, myMoves + rowMine, oppMoves + rowTheirs;
      }
      score := score + 5 * (myMoves - oppMoves);
      var oppColor := Opponent(color);
      var check := KingInCheck(oppColor, a);
      if check {
        score := score + 50;
      }
    }

    /** The column loop of `evaluate_board` for row `r`: the material and
        centre score of the row and the two sides' move counts in it. */
    method EvaluateRow(a: array2<Option<Piece>>, r: int) returns (score: int, myMoves: int, oppMoves: int)
      requires IsSquareArray(a) && Placed(Cells(a)) && 0 <= r < 8
      ensures score == RowScore(Cells(a), color, r, 8)
      ensures myMoves == RowMobility(Cells(a), color, r, 8)
      ensures oppMoves == RowMobility(Cells(a), Opponent(color), r, 8)
    {
      score, myMoves, oppMoves := 0, 0, 0;
      for c := 0 to 8
        invariant score == RowScore(Cells(a), color, r, c)
        invariant myMoves == RowMobility(Cells(a), color, r, c)
        invariant oppMoves == RowMobility(Cells(a), Opponent(color), r, c)
      {
        var p := a[r, c];
        if p.None? {
          continue;
        }
        var base := PieceValue(p.value.kind);
        if p.value.color == color {
          score := score + base;
        } else {
          score := score - base;
        }
        if (r, c) in CenterSquares {
          var bonus := 10;
          score := score + if p.value.color == color then bonus else -bonus;
        }
        var moves := PossibleMoves(a, p.value);
        if p.value.color == color {
          myMoves := myMoves + |moves|;
        } else {
          oppMoves := oppMoves + |moves|;
        }
      }
    }

    /** `_minimax` with alpha-beta pruning. Its result is fail-soft sound
        against plain minimax: when it is at most `alpha` it bounds the true
        value from above, when it is at least `beta` it bounds it from
        below, and strictly inside the window it is the true value. At
        depth 0 and when the side to move has no move it is the true value
        whatever the window. */
    method Minimax(a: array2<Option<Piece>>, depth: nat, alpha: ExtInt, beta: ExtInt, maximizing: bool) returns (v: int)
      requires IsSquareArray(a) && Placed(Cells(a)) && Less(alpha, beta)
      ensures FailSoft(v, alpha, beta, Value(Cells(a), depth, maximizing, color))
      ensures depth == 0 || AllMoves(Cells(a), Mover(maximizing, color)) == [] ==>
        v == Value(Cells(a), depth, maximizing, color)
      decreases depth, 3
    {
      if depth == 0 {
        v := LeafValue(a, depth, maximizing);
        return;
      }
      var moves := GetAllMoves(a, Mover(maximizing, color));
      if moves == [] {
        v := LeafValue(a, depth, maximizing);
        return;
      }
      v := Expand(a, moves, depth, alpha, beta, maximizing);
    }

    /** An inner node of `_minimax`: the side to move has the moves `moves`,
        searched by the maximizing or the minimizing loop. */
    method Expand(a: array2<Option<Piece>>, moves: seq<Move>, depth: nat, alpha: ExtInt, beta: ExtInt, maximizing: bool)
      returns (v: int)
      requires IsSquareArray(a) && Placed(Cells(a)) && Less(alpha, beta) && depth > 0
      requires moves == AllMoves(Cells(a), Mover(maximizing, color)) != []
      ensures FailSoft(v, alpha, beta, Value(Cells(a), depth, maximizing, color))
      decreases depth, 2
    {
      ghost var b := Cells(a);
      AllMovesCanApply(b, Mover(maximizing, color));
      if maximizing {
        v := MaxNode(a, moves, depth - 1, alpha, beta, b);
      } else {
        v := MinNode(a, moves, depth - 1, alpha, beta, b);
      }
      NodeIsFailSoft(b, moves, depth, maximizing, color, v, alpha, beta);
    }

    /** The two places where `_minimax` returns `evaluate_board`: at depth 0,
        and when the side to move has no pseudo-legal move. */
    method LeafValue(a: array2<Option<Piece>>, depth: nat, maximizing: bool) returns (v: int)
      requires IsSquareArray(a) && Placed(Cells(a))
      requires depth == 0 || AllMoves(Cells(a), Mover(maximizing, color)) == []
      ensures v == Value(Cells(a), depth, maximizing, color)
    {
      v := EvaluateBoard(a);
      ValueAtLeaf(Cells(a), depth, maximizing, color);
    }

    /** One step of the loops of `_minimax` and `compute_move`: search the
        position after the `i`-th move, with the other side to move, in the
        window (alpha, beta). */
    method SearchChild(a: array2<Option<Piece>>, moves: seq<Move>, i: int, d: nat, alpha: ExtInt, beta: ExtInt, maximizing: bool,
                       ghost b: Grid, ghost vs: seq<int>)
      returns (v: int)
      requires IsSquareArray(a) && Cells(a) == b && Placed(b) && AllApply(b, moves) && 0 <= i < |moves| && Less(alpha, beta)
      requires vs == Children(b, moves, d, maximizing, color)
      ensures FailSoft(v, alpha, beta, vs[i])
      decreases d, 4
    {
      var child := Simulate(a, moves[i]);
      v := Minimax(child, d, alpha, beta, !maximizing);
      ChildAt(b, moves, d, maximizing, color, i);
    }

    /** The maximizing loop of `_minimax`: raise `alpha` with the best value
        so far and stop once it reaches `beta`. */
    method MaxNode(a: array2<Option<Piece>>, moves: seq<Move>, d: nat, alpha: ExtInt, beta: ExtInt, ghost b: Grid) returns (v: int)
      requires IsSquareArray(a) && Cells(a) == b && Placed(b) && Less(alpha, beta)
      requires |moves| > 0 && AllApply(b, moves)
      ensures FailSoft(v, alpha, beta, Extreme(Children(b, moves, d, true, color), true))
      decreases d + 1, 1
    {
      ghost var vs := Children(b, moves, d, true, color);
      var value := NegInf;
      var lo := alpha;
      for i := 0 to |moves|
        invariant Cells(a) == b
        invariant MaxSoFar(vs, i, alpha, value)
        invariant lo == Max(alpha, value) && Less(lo, beta)
      {
        var cv := SearchChild(a, moves, i, d, lo, beta, true, b, vs);
        MaxStep(vs, i, alpha, beta, value, cv);
        value := Max(value, Fin(cv));
        lo := Max(lo, value);
        if AtMost(beta, lo) {
          break;
        }
      }
      if Less(lo, beta) {
        MaxDone(vs, alpha, beta, value);
      }
      v := value.n;
    }

    /** The minimizing loop of `_minimax`: lower `beta` with the best value
        so far and stop once it reaches `alpha`. */
    method MinNode(a: array2<Option<Piece>>, moves: seq<Move>, d: nat, alpha: ExtInt, beta: ExtInt, ghost b: Grid) returns (v: int)
      requires IsSquareArray(a) && Cells(a) == b && Placed(b) && Less(alpha, beta)
      requires |moves| > 0 && AllApply(b, moves)
      ensures FailSoft(v, alpha, beta, Extreme(Children(b, moves, d, false, color), false))
      decreases d + 1, 1
    {
      ghost var vs := Children(b, moves, d, false, color);
      var value := PosInf;
      var hi := beta;
      for i := 0 to |moves|
        invariant Cells(a) == b
        invariant MinSoFar(vs, i, beta, value)
        invariant hi == Min(beta, value) && Less(alpha, hi)
      {
        var cv := SearchChild(a, moves, i, d, alpha, hi, false, b, vs);
        MinStep(vs, i, alpha, beta, value, cv);
        value := Min(value, Fin(cv));
        hi := Min(hi, value);
        if AtMost(hi, alpha) {
          break;
        }
      }
      if Less(alpha, hi) {
        MinDone(vs, alpha, beta, value);
      }
      v := value.n;
    }

    /** `compute_move`: try every move of the player at the root with the
        window (best so far, PosInf), keep the first strictly best, and
        record its score. The result is what the unpruned root fold over
        the true minimax values of the moves gives. */
    method ComputeMove(board: Boards.Board) returns (bestMove: Option<Move>)
      requires IsSquareArray(board.boardState) && Placed(Cells(board.boardState))
      requires difficultyLevel >= 1
      modifies this
      ensures (evaluationScore, bestMove) == RootChoice(old(Cells(board.boardState)), old(difficultyLevel), color)
      ensures difficultyLevel == old(difficultyLevel)
    {
      var a, depth := board.boardState, difficultyLevel;
      ghost var b := Cells(a);
      var moves := GetAllMoves(a, color);
      RootChoiceOf(b, depth, color, moves);
      var bestVal;
      bestVal, bestMove := SearchRoot(a, moves, depth, b);
      evaluationScore := bestVal;
    }

    /** The loop of `compute_move` over the player's moves, searching each
        with the window (best so far, PosInf) `depth - 1` plies deep: the
        best score and the first move reaching it, as the root fold over the
        true values of the moves gives them. */
    method SearchRoot(a: array2<Option<Piece>>, moves: seq<Move>, depth: int, ghost b: Grid) returns (bestVal: ExtInt, bestMove: Option<Move>)
      requires IsSquareArray(a) && Cells(a) == b && Placed(b) && AllApply(b, moves) && depth >= 1
      ensures (bestVal, bestMove) == RootFold(Children(b, moves, depth - 1, true, color), moves)
    {
      ghost var vs := Children(b, moves, depth - 1, true, color);
      var alpha, beta := NegInf, PosInf;
      bestVal, bestMove := NegInf, None;
      for i := 0 to |moves|
        invariant (bestVal, bestMove) == RootFold(vs[..i], moves[..i])
        invariant alpha == bestVal && bestVal != PosInf
      {
        var val := SearchChild(a, moves, i, depth - 1, alpha, beta, true, b, vs);
        RootStep(vs, moves, i, bestVal, bestMove, val);
        if Less(bestVal, Fin(val)) {
          bestVal := Fin(val);
          bestMove := Some(moves[i]);
        }
        alpha := Max(alpha, bestVal);
        if AtMost(beta, alpha) {
          break;
        }
      }
      RootFoldWhole(vs, moves);
    }
  }
}
