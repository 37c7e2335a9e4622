/** Pieces, the 8x8 board they stand on, and each kind's pseudo-legal
    destinations (the `possible_moves` of the six piece classes).

    Every generator comes twice: a method that reads the live board array
    and builds the destination list step by step, as the game does, and a
    function on an immutable snapshot of the board that specifies it.
    The properties of the rules are proved about the functions. */
module Pieces {

  datatype Option<T> = None | Some(value: T)

  datatype Color = White | Black

  function Opponent(c: Color): Color
  {
    if c == White then Black else White
  }

  /** The six kinds. Only a pawn carries a "has not moved yet" flag. */
  datatype Kind = Pawn(firstMove: bool) | Knight | Bishop | Rook | Queen | King

  /** (row, column); row 0 is black's back rank, row 7 white's. */
  type Square = (int, int)

  /** A piece records its own square; `WellPlaced` ties it to the board. */
  datatype Piece = Piece(kind: Kind, color: Color, pos: Square)

  /** `Piece.move`: the same piece, recording square `to`. */
  function MoveTo(p: Piece, to: Square): (q: Piece)
    ensures q.kind == p.kind && q.color == p.color && q.pos == to
  {
    p.(pos := to)
  }

  /** An immutable snapshot of the board: 8 rows of 8 optional pieces. */
  type Grid = seq<seq<Option<Piece>>>

  predicate OnBoard(sq: Square)
  {
    0 <= sq.0 < 8 && 0 <= sq.1 < 8
  }

  predicate IsGrid(b: Grid)
  {
    |b| == 8 && forall r :: 0 <= r < 8 ==> |b[r]| == 8
  }

  function At(b: Grid, sq: Square): Option<Piece>
    requires IsGrid(b) && OnBoard(sq)
  {
    b[sq.0][sq.1]
  }

  predicate Vacant(b: Grid, sq: Square)
    requires IsGrid(b)
  {
    OnBoard(sq) && At(b, sq).None?
  }

  predicate HoldsColor(b: Grid, sq: Square, c: Color)
    requires IsGrid(b)
  {
    OnBoard(sq) && At(b, sq).Some? && At(b, sq).value.color == c
  }

  /** A square a piece of colour `me` may land on: on the board and not
      occupied by a piece of its own colour. */
  predicate Enterable(b: Grid, me: Color, sq: Square)
    requires IsGrid(b)
  {
    OnBoard(sq) && !HoldsColor(b, sq, me)
  }

  /** The redundant `position` field of every piece equals its square. */
  predicate WellPlaced(b: Grid)
    requires IsGrid(b)
  {
    forall r, c :: 0 <= r < 8 && 0 <= c < 8 && b[r][c].Some? ==> b[r][c].value.pos == (r, c)
  }

  predicate IsSquareArray(a: array2<Option<Piece>>)
  {
    a.Length0 == 8 && a.Length1 == 8
  }

  /** The snapshot of a live board array. */
  ghost function Cells(a: array2<Option<Piece>>): (b: Grid)
    requires IsSquareArray(a)
    reads a
    ensures IsGrid(b)
    ensures forall r, c :: 0 <= r < 8 && 0 <= c < 8 ==> b[r][c] == a[r, c]
  {
    seq(8, r requires 0 <= r < 8 reads a => seq(8, c requires 0 <= c < 8 reads a => a[r, c]))
  }

  /** Two snapshots with the same contents are the same snapshot. */
  lemma GridsEqual(x: Grid, y: Grid)
    requires IsGrid(x) && IsGrid(y)
    requires forall r, c :: 0 <= r < 8 && 0 <= c < 8 ==> x[r][c] == y[r][c]
    ensures x == y
  {
    forall r | 0 <= r < 8
      ensures x[r] == y[r]
    {
      assert forall c :: 0 <= c < 8 ==> x[r][c] == y[r][c];
    }
  }

  function Shift(sq: Square, d: (int, int)): Square
  {
    (sq.0 + d.0, sq.1 + d.1)
  }

  // ---------------------------------------------------------------------
  // Pawn

  /** White pawns move toward row 0, black pawns toward row 7. */
  function Forward(c: Color): int
  {
    if c == White then -1 else 1
  }

  predicate PawnStep(b: Grid, p: Piece, sq: Square)
    requires IsGrid(b)
  {
    sq == (p.pos.0 + Forward(p.color), p.pos.1) && Vacant(b, sq)
  }

  predicate PawnDoubleStep(b: Grid, p: Piece, sq: Square)
    requires IsGrid(b) && p.kind.Pawn?
  {
    && p.kind.firstMove
    && Vacant(b, (p.pos.0 + Forward(p.color), p.pos.1))
    && sq == (p.pos.0 + 2 * Forward(p.color), p.pos.1)
    && Vacant(b, sq)
  }

  predicate PawnCapture(b: Grid, p: Piece, sq: Square)
    requires IsGrid(b)
  {
    && sq.0 == p.pos.0 + Forward(p.color)
    && (sq.1 == p.pos.1 - 1 || sq.1 == p.pos.1 + 1)
    && HoldsColor(b, sq, Opponent(p.color))
  }

  /** Pawn destinations in generation order: one step, two steps, capture
      left, capture right. A square is a destination exactly when it is a
      step onto an empty square of the pawn's column, a double step of an
      unmoved pawn over an empty square onto an empty square, or a
      diagonal step onto an opposing piece. */
  function PawnTargets(b: Grid, p: Piece): (s: seq<Square>)
    requires IsGrid(b) && OnBoard(p.pos) && p.kind.Pawn?
    ensures forall sq :: sq in s <==> PawnStep(b, p, sq) || PawnDoubleStep(b, p, sq) || PawnCapture(b, p, sq)
  {
    PawnAdvances(b, p) + PawnTake(b, p, p.pos.1 - 1) + PawnTake(b, p, p.pos.1 + 1)
  }

  /** The one- and two-square advances of a pawn, in that order. */
  function PawnAdvances(b: Grid, p: Piece): seq<Square>
    requires IsGrid(b) && OnBoard(p.pos)
  {
    var (row, col) := p.pos;
    var dir := Forward(p.color);
    if 0 <= row + dir < 8 && b[row + dir][col].None? then
      [(row + dir, col)] +
      (if p.kind.Pawn? && p.kind.firstMove && 0 <= row + 2 * dir < 8 && b[row + 2 * dir][col].None?
       then [(row + 2 * dir, col)] else [])
    else []
  }

  /** The diagonal capture of a pawn into column `col`, if an opposing
      piece stands there. */
  function PawnTake(b: Grid, p: Piece, col: int): seq<Square>
    requires IsGrid(b)
  {
    var row := p.pos.0 + Forward(p.color);
    if 0 <= col < 8 && 0 <= row < 8 && b[row][col].Some? && b[row][col].value.color != p.color
    then [(row, col)] else []
  }

  // ---------------------------------------------------------------------
  // Knight and king: fixed offsets

  const KnightOffsets: seq<(int, int)> :=
    [(-2, -1), (-2, 1), (-1, -2), (-1, 2), (1, -2), (1, 2), (2, -1), (2, 1)]

  const KingOffsets: seq<(int, int)> :=
    [(-1, -1), (-1, 0), (-1, 1), (0, -1), (0, 1), (1, -1), (1, 0), (1, 1)]

  /** The squares `from + offset`, in offset order, that are on the board and
      not held by a piece of colour `me`. */
  function Leaps(b: Grid, me: Color, from: Square, offsets: seq<(int, int)>): (s: seq<Square>)
    requires IsGrid(b)
    ensures |s| <= |offsets|
    ensures forall sq :: sq in s <==>
      Enterable(b, me, sq) && exists i :: 0 <= i < |offsets| && sq == Shift(from, offsets[i])
  {
    if offsets == [] then []
    else
      var rest := Leaps(b, me, from, offsets[..|offsets| - 1]);
      var to := Shift(from, offsets[|offsets| - 1]);
      assert forall i :: 0 <= i < |offsets| - 1 ==> offsets[..|offsets| - 1][i] == offsets[i];
      if 0 <= to.0 < 8 && 0 <= to.1 < 8
         && (b[to.0][to.1].None? || b[to.0][to.1].value.color != me)
      then rest + [to] else rest
  }

  function Abs(x: int): nat
  {
    if x < 0 then -x else x
  }

  function Chebyshev(x: Square, y: Square): nat
  {
    if Abs(x.0 - y.0) < Abs(x.1 - y.1) then Abs(x.1 - y.1) else Abs(x.0 - y.0)
  }

  predicate IsLShaped(x: Square, y: Square)
  {
    (Abs(x.0 - y.0) == 1 && Abs(x.1 - y.1) == 2) || (Abs(x.0 - y.0) == 2 && Abs(x.1 - y.1) == 1)
  }

  // ---------------------------------------------------------------------
  // Bishop, rook, queen: rays

  predicate IsDirection(d: (int, int))
  {
    -1 <= d.0 <= 1 && -1 <= d.1 <= 1 && d != (0, 0)
  }

  predicate AreDirections(dirs: seq<(int, int)>)
  {
    forall i :: 0 <= i < |dirs| ==> IsDirection(dirs[i])
  }

  /** k times a direction component (-1, 0 or 1), kept linear. */
  function Scale(k: int, x: int): int
  {
    if x == 1 then k else if x == -1 then -k else 0
  }

  lemma ScaleStep(k: int, x: int)
    requires -1 <= x <= 1
    ensures x + Scale(k, x) == Scale(k + 1, x)
  {
  }

  /** The k-th square along direction d, counting `sq` itself as the 0-th. */
  function Walk(sq: Square, d: (int, int), k: int): Square
  {
    (sq.0 + Scale(k, d.0), sq.1 + Scale(k, d.1))
  }

  /** One step along `d` and then `k` more is `k + 1` steps. */
  lemma WalkStep(sq: Square, d: (int, int), k: int)
    requires IsDirection(d)
    ensures Walk(Shift(sq, d), d, k) == Walk(sq, d, k + 1)
  {
    ScaleStep(k, d.0);
    ScaleStep(k, d.1);
  }

  /** How many more squares of the board a ray from `sq` along `d` can visit. */
  function Reach(sq: Square, d: (int, int)): nat
  {
    if !OnBoard(sq) then 0
    else
      (if d.0 == 1 then 8 - sq.0 else if d.0 == -1 then sq.0 + 1 else 0)
      + (if d.1 == 1 then 8 - sq.1 else if d.1 == -1 then sq.1 + 1 else 0)
  }

  /** Each step along a direction brings a ray closer to the edge. */
  lemma ReachShrinks(sq: Square, d: (int, int))
    requires IsDirection(d) && OnBoard(sq)
    ensures Reach(Shift(sq, d), d) < Reach(sq, d)
  {
  }

  /** The destinations of a slide starting at `sq` (the first square beyond
      the mover) along `d`: the squares of the line, up to the edge, the
      first own piece (excluded) or the first opposing piece (included). */
  function Ray(b: Grid, me: Color, sq: Square, d: (int, int)): (s: seq<Square>)
    requires IsGrid(b) && IsDirection(d)
    decreases Reach(sq, d)
  {
    if !(0 <= sq.0 < 8 && 0 <= sq.1 < 8) then []
    else match b[sq.0][sq.1]
      case None =>
        [sq] + Ray(b, me, Shift(sq, d), d)
      case Some(t) => if t.color != me then [sq] else []
  }

  /** The concatenation, in direction order, of the rays from `from`. */
  function Rays(b: Grid, me: Color, from: Square, dirs: seq<(int, int)>): (s: seq<Square>)
    requires IsGrid(b) && AreDirections(dirs)
  {
    if dirs == [] then []
    else Ray(b, me, Shift(from, dirs[0]), dirs[0]) + Rays(b, me, from, dirs[1..])
  }

  /** A slide only lands on squares of the board that do not hold an own piece. */
  lemma {:induction false} RayEnterable(b: Grid, me: Color, sq: Square, d: (int, int))
    requires IsGrid(b) && IsDirection(d)
    ensures forall x :: x in Ray(b, me, sq, d) ==> Enterable(b, me, x)
    decreases Reach(sq, d)
  {
    if OnBoard(sq) && At(b, sq).None? {
      RayEnterable(b, me, Shift(sq, d), d);
    }
  }

  lemma {:induction false} RaysEnterable(b: Grid, me: Color, from: Square, dirs: seq<(int, int)>)
    requires IsGrid(b) && AreDirections(dirs)
    ensures forall x :: x in Rays(b, me, from, dirs) ==> Enterable(b, me, x)
  {
    if dirs != [] {
      RayEnterable(b, me, Shift(from, dirs[0]), dirs[0]);
      RaysEnterable(b, me, from, dirs[1..]);
    }
  }

  const BishopDirections: seq<(int, int)> := [(-1, -1), (-1, 1), (1, -1), (1, 1)]

  /** Left, right, up, down: the order of the rook's four loops. */
  const RookDirections: seq<(int, int)> := [(0, -1), (0, 1), (-1, 0), (1, 0)]

  const QueenDirections: seq<(int, int)> :=
    [(-1, 0), (1, 0), (0, -1), (0, 1), (-1, -1), (-1, 1), (1, -1), (1, 1)]

  // ---------------------------------------------------------------------
  // All kinds

  /** The pseudo-legal destinations of `p` (no check test, no castling,
      no promotion, no en passant). */
  function Targets(b: Grid, p: Piece): (s: seq<Square>)
    requires IsGrid(b) && OnBoard(p.pos)
    ensures forall sq :: sq in s ==> Enterable(b, p.color, sq)
    ensures At(b, p.pos) == Some(p) ==> p.pos !in s
  {
    match p.kind
    case Pawn(_) => PawnTargets(b, p)
    case Knight => Leaps(b, p.color, p.pos, KnightOffsets)
    case Bishop => RaysEnterable(b, p.color, p.pos, BishopDirections); Rays(b, p.color, p.pos, BishopDirections)
    case Rook => RaysEnterable(b, p.color, p.pos, RookDirections); Rays(b, p.color, p.pos, RookDirections)
    case Queen => RaysEnterable(b, p.color, p.pos, QueenDirections); Rays(b, p.color, p.pos, QueenDirections)
    case King => Leaps(b, p.color, p.pos, KingOffsets)
  }

  // ---------------------------------------------------------------------
  // Properties of the rules

  /** The i-th destination of a ray is the i-th square of its line. */
  lemma {:induction false} RayIsLine(b: Grid, me: Color, sq: Square, d: (int, int))
    requires IsGrid(b) && IsDirection(d)
    ensures var s := Ray(b, me, sq, d);
      forall i :: 0 <= i < |s| ==> s[i] == Walk(sq, d, i)
    decreases Reach(sq, d)
  {
    var s := Ray(b, me, sq, d);
    if OnBoard(sq) && At(b, sq).None? {
      var rest := Ray(b, me, Shift(sq, d), d);
      RayIsLine(b, me, Shift(sq, d), d);
      assert s == [sq] + rest;
      forall i | 0 <= i < |s|
        ensures s[i] == Walk(sq, d, i)
      {
        if i == 0 {
          assert s[0] == sq;
        } else {
          assert s[i] == rest[i - 1];
          assert rest[i - 1] == Walk(Shift(sq, d), d, i - 1);
          WalkStep(sq, d, i - 1);
        }
      }
    }
  }

  /** Every destination of a ray before the last is empty: a slide never
      jumps over a piece. */
  lemma {:induction false} RayCrossesEmpty(b: Grid, me: Color, sq: Square, d: (int, int))
    requires IsGrid(b) && IsDirection(d)
    ensures forall i :: 0 <= i < |Ray(b, me, sq, d)| - 1 ==> Vacant(b, Ray(b, me, sq, d)[i])
    decreases Reach(sq, d)
  {
    var s := Ray(b, me, sq, d);
    if OnBoard(sq) && At(b, sq).None? {
      var rest := Ray(b, me, Shift(sq, d), d);
      RayCrossesEmpty(b, me, Shift(sq, d), d);
      assert forall j :: 0 <= j < |rest| - 1 ==> Vacant(b, rest[j]);
      assert s == [sq] + rest;
      forall i | 0 <= i < |s| - 1
        ensures Vacant(b, s[i])
      {
        if i == 0 {
          assert s[0] == sq;
        } else {
          assert s[i] == rest[i - 1];
          assert 0 <= i - 1 < |rest| - 1;
          assert Vacant(b, rest[i - 1]);
        }
      }
    }
  }

  /** A ray cannot be extended: when it is empty or ends on an empty square,
      the next square along the line is off the board or holds an own piece;
      when it ends on an occupied square, that square holds an opponent. */
  lemma {:induction false} RayStops(b: Grid, me: Color, sq: Square, d: (int, int))
    requires IsGrid(b) && IsDirection(d)
    ensures var s := Ray(b, me, sq, d);
      && (|s| == 0 || Vacant(b, s[|s| - 1]) ==>
            !OnBoard(Walk(sq, d, |s|)) || HoldsColor(b, Walk(sq, d, |s|), me))
      && (|s| > 0 && !Vacant(b, s[|s| - 1]) ==> HoldsColor(b, s[|s| - 1], Opponent(me)))
    decreases Reach(sq, d)
  {
    var s := Ray(b, me, sq, d);
    if !OnBoard(sq) {
      assert s == [] && Walk(sq, d, 0) == sq;
    } else if At(b, sq).None? {
      var rest := Ray(b, me, Shift(sq, d), d);
      RayStops(b, me, Shift(sq, d), d);
      assert s == [sq] + rest;
      assert |s| == |rest| + 1;
      WalkStep(sq, d, |rest|);
      if |rest| > 0 {
        assert s[|s| - 1] == rest[|rest| - 1];
      }
    } else {
      assert Walk(sq, d, 0) == sq;
    }
  }

  /** The slides along the directions from `k` on are the ray in direction
      `k` followed by the slides along the directions after it. */
  lemma RaysFrom(b: Grid, me: Color, from: Square, dirs: seq<(int, int)>, k: int)
    requires IsGrid(b) && AreDirections(dirs) && 0 <= k < |dirs|
    ensures Rays(b, me, from, dirs[k..]) == Ray(b, me, Shift(from, dirs[k]), dirs[k]) + Rays(b, me, from, dirs[k + 1..])
  {
    assert dirs[k..][1..] == dirs[k + 1..];
  }

  /** One turn of the loop over directions: appending the ray in direction
      `i` to the slides so far moves the remainder on by one direction. */
  lemma SlideStep(b: Grid, me: Color, from: Square, dirs: seq<(int, int)>, i: int, moves: seq<Square>)
    requires IsGrid(b) && AreDirections(dirs) && 0 <= i < |dirs|
    ensures moves + Rays(b, me, from, dirs[i..])
      == (moves + Ray(b, me, Shift(from, dirs[i]), dirs[i])) + Rays(b, me, from, dirs[i + 1..])
  {
    RaysFrom(b, me, from, dirs, i);
  }

  lemma DirectionsAppend(dirs1: seq<(int, int)>, dirs2: seq<(int, int)>)
    requires AreDirections(dirs1) && AreDirections(dirs2)
    ensures AreDirections(dirs1 + dirs2)
  {
    var all := dirs1 + dirs2;
    forall i | 0 <= i < |all| ensures IsDirection(all[i]) {
      if i >= |dirs1| {
        assert all[i] == dirs2[i - |dirs1|];
      }
    }
  }

  /** Slides along `dirs1 + dirs2` are those along `dirs1` followed by
      those along `dirs2`. */
  lemma {:induction false} RaysAppend(b: Grid, me: Color, from: Square, dirs1: seq<(int, int)>, dirs2: seq<(int, int)>)
    requires IsGrid(b) && AreDirections(dirs1) && AreDirections(dirs2)
    ensures AreDirections(dirs1 + dirs2)
    ensures Rays(b, me, from, dirs1 + dirs2) == Rays(b, me, from, dirs1) + Rays(b, me, from, dirs2)
  {
    DirectionsAppend(dirs1, dirs2);
    if dirs1 == [] {
      assert dirs1 + dirs2 == dirs2;
    } else {
      var rest := dirs1[1..];
      RaysAppendHead(b, me, from, dirs1, dirs2);
      RaysAppend(b, me, from, rest, dirs2);
      AppendAssoc(Ray(b, me, Shift(from, dirs1[0]), dirs1[0]), Rays(b, me, from, rest), Rays(b, me, from, dirs2));
    }
  }

  /** The first step of `RaysAppend`: both sides begin with the ray along
      the first direction of `dirs1`. */
  lemma RaysAppendHead(b: Grid, me: Color, from: Square, dirs1: seq<(int, int)>, dirs2: seq<(int, int)>)
    requires IsGrid(b) && AreDirections(dirs1) && AreDirections(dirs2) && dirs1 != []
    ensures AreDirections(dirs1[1..]) && AreDirections(dirs1[1..] + dirs2) && AreDirections(dirs1 + dirs2)
    ensures var ray := Ray(b, me, Shift(from, dirs1[0]), dirs1[0]);
      && Rays(b, me, from, dirs1 + dirs2) == ray + Rays(b, me, from, dirs1[1..] + dirs2)
      && Rays(b, me, from, dirs1) == ray + Rays(b, me, from, dirs1[1..])
  {
    var all, rest := dirs1 + dirs2, dirs1[1..];
    DirectionsAppend(dirs1, dirs2);
    DirectionsAppend(rest, dirs2);
    assert all[0] == dirs1[0] && all[1..] == rest + dirs2;
  }

  lemma AppendAssoc<T>(x: seq<T>, y: seq<T>, z: seq<T>)
    ensures x + (y + z) == (x + y) + z
  {
  }

  /** The queen's destinations are exactly the union of the rook's and the
      bishop's from the same square. */
  lemma QueenIsRookAndBishop(b: Grid, me: Color, from: Square)
    requires IsGrid(b)
    ensures forall sq :: sq in Rays(b, me, from, QueenDirections) <==>
      sq in Rays(b, me, from, RookDirections) || sq in Rays(b, me, from, BishopDirections)
  {
    var vertical, horizontal := [(-1, 0), (1, 0)], [(0, -1), (0, 1)];
    RaysAppend(b, me, from, vertical, horizontal);
    RaysAppend(b, me, from, vertical + horizontal, BishopDirections);
    assert QueenDirections == vertical + horizontal + BishopDirections;
    RaysAppend(b, me, from, horizontal, vertical);
    assert RookDirections == horizontal + vertical;
  }

  /** Knight destinations are exactly the enterable squares an L-shape away;
      there are at most eight of them. */
  lemma KnightTargetsAreLShaped(b: Grid, me: Color, from: Square)
    requires IsGrid(b)
    ensures |Leaps(b, me, from, KnightOffsets)| <= 8
    ensures forall sq :: sq in Leaps(b, me, from, KnightOffsets) <==>
      Enterable(b, me, sq) && IsLShaped(from, sq)
  {
    forall sq ensures sq in Leaps(b, me, from, KnightOffsets) <==> Enterable(b, me, sq) && IsLShaped(from, sq)
    {
      KnightOffset(from, sq);
    }
  }

  /** The eight knight offsets reach exactly the squares an L-shape away. */
  lemma KnightOffset(from: Square, sq: Square)
    ensures (exists i :: 0 <= i < |KnightOffsets| && sq == Shift(from, KnightOffsets[i])) <==> IsLShaped(from, sq)
  {
    if IsLShaped(from, sq) {
      var dr, dc := sq.0 - from.0, sq.1 - from.1;
      var i :=
        if dr == -2 then (if dc == -1 then 0 else 1)
        else if dr == -1 then (if dc == -2 then 2 else 3)
        else if dr == 1 then (if dc == -2 then 4 else 5)
        else (if dc == -1 then 6 else 7);
      assert sq == Shift(from, KnightOffsets[i]);
    }
    if exists i :: 0 <= i < |KnightOffsets| && sq == Shift(from, KnightOffsets[i]) {
      var i :| 0 <= i < |KnightOffsets| && sq == Shift(from, KnightOffsets[i]);
      assert 0 <= i < 8 && KnightOffsets[i] == (sq.0 - from.0, sq.1 - from.1);
    }
  }

  /** King destinations are exactly the enterable squares at Chebyshev
      distance 1: the origin never appears and no castling square (two
      columns away) is produced. */
  lemma KingTargetsAreAdjacent(b: Grid, me: Color, from: Square)
    requires IsGrid(b)
    ensures forall sq :: sq in Leaps(b, me, from, KingOffsets) <==>
      Enterable(b, me, sq) && Chebyshev(from, sq) == 1
  {
    forall sq ensures sq in Leaps(b, me, from, KingOffsets) <==> Enterable(b, me, sq) && Chebyshev(from, sq) == 1
    {
      KingOffset(from, sq);
    }
  }

  /** The eight king offsets reach exactly the squares at Chebyshev distance 1. */
  lemma KingOffset(from: Square, sq: Square)
    ensures (exists i :: 0 <= i < |KingOffsets| && sq == Shift(from, KingOffsets[i])) <==> Chebyshev(from, sq) == 1
  {
    if Chebyshev(from, sq) == 1 {
      var dr, dc := sq.0 - from.0, sq.1 - from.1;
      var i :=
        if dr == -1 then dc + 1
        else if dr == 0 then (if dc == -1 then 3 else 4)
        else dc + 6;
      assert sq == Shift(from, KingOffsets[i]);
    }
    if exists i :: 0 <= i < |KingOffsets| && sq == Shift(from, KingOffsets[i]) {
      var i :| 0 <= i < |KingOffsets| && sq == Shift(from, KingOffsets[i]);
      assert 0 <= i < 8 && KingOffsets[i] == (sq.0 - from.0, sq.1 - from.1);
    }
  }

  // ---------------------------------------------------------------------
  // The generators as the game runs them, on the live board array

  method PawnPossibleMoves(a: array2<Option<Piece>>, p: Piece) returns (moves: seq<Square>)
    requires IsSquareArray(a) && OnBoard(p.pos) && p.kind.Pawn?
    ensures moves == PawnTargets(Cells(a), p)
  {
    ghost var b := Cells(a);
    moves := [];
    var (row, col) := p.pos;
    var direction := if p.color == White then -1 else 1;
    var newRow := row + direction;
    if 0 <= newRow < 8 && a[newRow, col].None? {
      moves := moves + [(newRow, col)];
      if p.kind.firstMove {
        var newRow2 := row + 2 * direction;
        if 0 <= newRow2 < 8 && a[newRow2, col].None? {
          moves := moves + [(newRow2, col)];
        }
      }
    }
    assert moves == PawnAdvances(b, p);
    var newCol := col - 1;
    if newCol >= 0 && 0 <= newRow < 8 {
      var target := a[newRow, newCol];
      if target.Some? && target.value.color != p.color {
        moves := moves + [(newRow, newCol)];
      }
    }
    assert moves == PawnAdvances(b, p) + PawnTake(b, p, col - 1);
    newCol := col + 1;
    if newCol < 8 && 0 <= newRow < 8 {
      var target := a[newRow, newCol];
      if target.Some? && target.value.color != p.color {
        moves := moves + [(newRow, newCol)];
      }
    }
  }

  /** The knight's and the king's loop over their eight offsets. */
  method LeapMoves(a: array2<Option<Piece>>, p: Piece, offsets: seq<(int, int)>) returns (moves: seq<Square>)
    requires IsSquareArray(a)
    ensures moves == Leaps(Cells(a), p.color, p.pos, offsets)
  {
    ghost var b := Cells(a);
    moves := [];
    var (row, col) := p.pos;
    for i := 0 to |offsets|
      invariant moves == Leaps(b, p.color, p.pos, offsets[..i])
    {
      assert offsets[..i + 1][..i] == offsets[..i];
      var (dr, dc) := offsets[i];
      var newRow, newCol := row + dr, col + dc;
      if 0 <= newRow < 8 && 0 <= newCol < 8 {
        var target := a[newRow, newCol];
        if target.None? || target.value.color != p.color {
          moves := moves + [(newRow, newCol)];
        }
      }
    }
    assert offsets[..|offsets|] == offsets;
  }

  /** The bishop's and the queen's loop over their directions. */
  method SlideMoves(a: array2<Option<Piece>>, p: Piece, dirs: seq<(int, int)>) returns (moves: seq<Square>)
    requires IsSquareArray(a) && AreDirections(dirs)
    ensures moves == Rays(Cells(a), p.color, p.pos, dirs)
  {
    ghost var b := Cells(a);
    moves := [];
    for i := 0 to |dirs|
      invariant moves + Rays(b, p.color, p.pos, dirs[i..]) == Rays(b, p.color, p.pos, dirs)
    {
      var ray := SlideRay(a, p, dirs[i]);
      SlideStep(b, p.color, p.pos, dirs, i, moves);
      moves := moves + ray;
    }
    assert moves + Rays(b, p.color, p.pos, []) == moves;
  }

  /** The inner `while` of the bishop and the queen: step from the piece in
      direction `d` until the edge or the first piece. */
  method SlideRay(a: array2<Option<Piece>>, p: Piece, d: (int, int)) returns (moves: seq<Square>)
    requires IsSquareArray(a) && IsDirection(d)
    ensures moves == Ray(Cells(a), p.color, Shift(p.pos, d), d)
  {
    ghost var b := Cells(a);
    var (dr, dc) := d;
    var r, c := p.pos.0 + dr, p.pos.1 + dc;
    moves := [];
    while 0 <= r < 8 && 0 <= c < 8
      invariant moves + Ray(b, p.color, (r, c), d) == Ray(b, p.color, Shift(p.pos, d), d)
      decreases Reach((r, c), d)
    {
      RayStep(b, p.color, (r, c), d, moves);
      ReachShrinks((r, c), d);
      var target := a[r, c];
      assert target == At(b, (r, c));
      if target.None? {
        moves := moves + [(r, c)];
      } else if target.value.color != p.color {
        moves := moves + [(r, c)];
        break;
      } else {
        break;
      }
      r, c := r + dr, c + dc;
    }
  }

  /** One step of a sliding loop on square `sq`: an empty square is added
      and the walk goes on, an opposing piece is added and ends the walk,
      an own piece ends it. */
  lemma RayStep(b: Grid, me: Color, sq: Square, d: (int, int), moves: seq<Square>)
    requires IsGrid(b) && IsDirection(d) && OnBoard(sq)
    ensures At(b, sq).None? ==> (moves + [sq]) + Ray(b, me, Shift(sq, d), d) == moves + Ray(b, me, sq, d)
    ensures At(b, sq).Some? && At(b, sq).value.color != me ==> moves + [sq] == moves + Ray(b, me, sq, d)
    ensures At(b, sq).Some? && At(b, sq).value.color == me ==> moves == moves + Ray(b, me, sq, d)
  {
    if At(b, sq).None? {
      RayPasses(b, me, sq, d, moves);
    } else if At(b, sq).value.color != me {
      RayCaptures(b, me, sq, d, moves);
    } else {
      RayBlocked(b, me, sq, d, moves);
    }
  }

  lemma RayPasses(b: Grid, me: Color, sq: Square, d: (int, int), moves: seq<Square>)
    requires IsGrid(b) && IsDirection(d) && OnBoard(sq) && At(b, sq).None?
    ensures (moves + [sq]) + Ray(b, me, Shift(sq, d), d) == moves + Ray(b, me, sq, d)
  {
    var rest := Ray(b, me, Shift(sq, d), d);
    assert Ray(b, me, sq, d) == [sq] + rest;
    assert (moves + [sq]) + rest == moves + ([sq] + rest);
  }

  lemma RayCaptures(b: Grid, me: Color, sq: Square, d: (int, int), moves: seq<Square>)
    requires IsGrid(b) && IsDirection(d) && OnBoard(sq) && At(b, sq).Some? && At(b, sq).value.color != me
    ensures moves + [sq] == moves + Ray(b, me, sq, d)
  {
    assert Ray(b, me, sq, d) == [sq];
  }

  lemma RayBlocked(b: Grid, me: Color, sq: Square, d: (int, int), moves: seq<Square>)
    requires IsGrid(b) && IsDirection(d) && OnBoard(sq) && At(b, sq).Some? && At(b, sq).value.color == me
    ensures moves == moves + Ray(b, me, sq, d)
  {
    assert Ray(b, me, sq, d) == [];
    assert moves + [] == moves;
  }

  /** The rook's first loop: leftward along its row. */
  method RookLeft(a: array2<Option<Piece>>, p: Piece) returns (moves: seq<Square>)
    requires IsSquareArray(a) && OnBoard(p.pos)
    ensures moves == Ray(Cells(a), p.color, (p.pos.0, p.pos.1 - 1), (0, -1))
  {
    ghost var b := Cells(a);
    var (row, col) := p.pos;
    moves := [];
    for c := col downto 0
      invariant moves + Ray(b, p.color, (row, c - 1), (0, -1)) == Ray(b, p.color, (p.pos.0, p.pos.1 - 1), (0, -1))
    {
      RayStep(b, p.color, (row, c), (0, -1), moves);
      var target := a[row, c];
      if target.None? {
        moves := moves + [(row, c)];
      } else if target.value.color != p.color {
        moves := moves + [(row, c)];
        break;
      } else {
        break;
      }
    }
  }

  /** The rook's second loop: rightward along its row. */
  method RookRight(a: array2<Option<Piece>>, p: Piece) returns (moves: seq<Square>)
    requires IsSquareArray(a) && OnBoard(p.pos)
    ensures moves == Ray(Cells(a), p.color, (p.pos.0, p.pos.1 + 1), (0, 1))
  {
    ghost var b := Cells(a);
    var (row, col) := p.pos;
    moves := [];
    for c := col + 1 to 8
      invariant moves + Ray(b, p.color, (row, c), (0, 1)) == Ray(b, p.color, (p.pos.0, p.pos.1 + 1), (0, 1))
    {
      RayStep(b, p.color, (row, c), (0, 1), moves);
      var target := a[row, c];
      if target.None? {
        moves := moves + [(row, c)];
      } else if target.value.color != p.color {
        moves := moves + [(row, c)];
        break;
      } else {
        break;
      }
    }
  }

  /** The rook's third loop: upward (toward row 0) along its column. */
  method RookUp(a: array2<Option<Piece>>, p: Piece) returns (moves: seq<Square>)
    requires IsSquareArray(a) && OnBoard(p.pos)
    ensures moves == Ray(Cells(a), p.color, (p.pos.0 - 1, p.pos.1), (-1, 0))
  {
    ghost var b := Cells(a);
    var (row, col) := p.pos;
    moves := [];
    for r := row downto 0
      invariant moves + Ray(b, p.color, (r - 1, col), (-1, 0)) == Ray(b, p.color, (p.pos.0 - 1, p.pos.1), (-1, 0))
    {
      RayStep(b, p.color, (r, col), (-1, 0), moves);
      var target := a[r, col];
      if target.None? {
        moves := moves + [(r, col)];
      } else if target.value.color != p.color {
        moves := moves + [(r, col)];
        break;
      } else {
        break;
      }
    }
  }

  /** The rook's fourth loop: downward (toward row 7) along its column. */
  method RookDown(a: array2<Option<Piece>>, p: Piece) returns (moves: seq<Square>)
    requires IsSquareArray(a) && OnBoard(p.pos)
    ensures moves == Ray(Cells(a), p.color, (p.pos.0 + 1, p.pos.1), (1, 0))
  {
    ghost var b := Cells(a);
    var (row, col) := p.pos;
    moves := [];
    for r := row + 1 to 8
      invariant moves + Ray(b, p.color, (r, col), (1, 0)) == Ray(b, p.color, (p.pos.0 + 1, p.pos.1), (1, 0))
    {
      RayStep(b, p.color, (r, col), (1, 0), moves);
      var target := a[r, col];
      if target.None? {
        moves := moves + [(r, col)];
      } else if target.value.color != p.color {
        moves := moves + [(r, col)];
        break;
      } else {
        break;
      }
    }
  }

  /** The rook's `possible_moves`: its four loops, one after the other. */
  method RookPossibleMoves(a: array2<Option<Piece>>, p: Piece) returns (moves: seq<Square>)
    requires IsSquareArray(a) && OnBoard(p.pos)
    ensures moves == Rays(Cells(a), p.color, p.pos, RookDirections)
  {
    var left := RookLeft(a, p);
    var right := RookRight(a, p);
    var up := RookUp(a, p);
    var down := RookDown(a, p);
    moves := left + (right + (up + down));
    RookRays(Cells(a), p.color, p.pos);
  }

  /** The rook's rays, unrolled in the order of its four loops. */
  lemma RookRays(b: Grid, me: Color, from: Square)
    requires IsGrid(b)
    ensures Rays(b, me, from, RookDirections) ==
      Ray(b, me, Shift(from, (0, -1)), (0, -1)) + (Ray(b, me, Shift(from, (0, 1)), (0, 1))
      + (Ray(b, me, Shift(from, (-1, 0)), (-1, 0)) + Ray(b, me, Shift(from, (1, 0)), (1, 0))))
  {
    assert AreDirections(RookDirections);
    FourRays(b, me, from, RookDirections);
  }

  /** Slides along four directions, unrolled. */
  lemma FourRays(b: Grid, me: Color, from: Square, ds: seq<(int, int)>)
    requires IsGrid(b) && |ds| == 4 && AreDirections(ds)
    ensures Rays(b, me, from, ds) ==
      Ray(b, me, Shift(from, ds[0]), ds[0]) + (Ray(b, me, Shift(from, ds[1]), ds[1])
      + (Ray(b, me, Shift(from, ds[2]), ds[2]) + Ray(b, me, Shift(from, ds[3]), ds[3])))
  {
    var r0, r1 := Ray(b, me, Shift(from, ds[0]), ds[0]), Ray(b, me, Shift(from, ds[1]), ds[1]);
    var r2, r3 := Ray(b, me, Shift(from, ds[2]), ds[2]), Ray(b, me, Shift(from, ds[3]), ds[3]);
    RaysFrom(b, me, from, ds, 3);
    assert ds[4..] == [];
    assert Rays(b, me, from, ds[3..]) == r3;
    RaysFrom(b, me, from, ds, 2);
    RaysFrom(b, me, from, ds, 1);
    RaysFrom(b, me, from, ds, 0);
    assert ds[0..] == ds;
    assert Rays(b, me, from, ds) == r0 + (r1 + (r2 + r3));
  }

  /** `possible_moves`, dispatched on the piece's kind. */
  method PossibleMoves(a: array2<Option<Piece>>, p: Piece) returns (moves: seq<Square>)
    requires IsSquareArray(a) && OnBoard(p.pos)
    ensures moves == Targets(Cells(a), p)
  {
    match p.kind
    case Pawn(_) => moves := PawnPossibleMoves(a, p);
    case Knight => moves := LeapMoves(a, p, KnightOffsets);
    case Bishop => moves := SlideMoves(a, p, BishopDirections);
    case Rook => moves := RookPossibleMoves(a, p);
    case Queen => moves := SlideMoves(a, p, QueenDirections);
    case King => moves := LeapMoves(a, p, KingOffsets);
  }
}
