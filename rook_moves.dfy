/**
 * `Rook.calculateLegalMoves` from `pieces/Rook.java`: walk each of the
 * four rook directions from the rook's square, emitting a quiet
 * `MajorMove` for every empty tile and, at the first occupied tile, an
 * `AttackMove` if the occupant is an enemy, then stop.
 */
module RookMoves {

  import opened Geometry
  import opened Pieces
  import opened Boards
  import opened Moves

  /** `Rook.POSSIBLE_MOVE_COORDINATES`: (x, y) pairs, read two at a time. */
  const PossibleMoveCoordinates: seq<int> := [-1, 0, 0, -1, 0, 1, 1, 0]

  /** One step along a rank or a file. */
  predicate IsRookStep(x: int, y: int)
  {
    (x == 0 && (y == 1 || y == -1)) || (y == 0 && (x == 1 || x == -1))
  }

  /** The `d`-th direction of `PossibleMoveCoordinates`, for `d` in 0..3, is a rook step. */
  lemma DirectionsAreRookSteps(d: nat)
    requires d < 4
    ensures 2 * d + 1 < |PossibleMoveCoordinates|
    ensures IsRookStep(PossibleMoveCoordinates[2 * d], PossibleMoveCoordinates[2 * d + 1])
  {
  }

  function Step(c: Coordinate, x: int, y: int): Coordinate
  {
    Coordinate(c.x + x, c.y + y)
  }

  /** `u * k` for a step component `u` in {-1, 0, 1}, written without multiplication. */
  function Scale(u: int, k: int): int
  {
    if u == 1 then k else if u == -1 then -k else 0
  }

  /** The square `k` steps away from `c` along (x, y). */
  function Shift(c: Coordinate, x: int, y: int, k: int): Coordinate
  {
    Coordinate(c.x + Scale(x, k), c.y + Scale(y, k))
  }

  /** How many more valid squares there can be from `c` along (x, y). */
  function Remaining(c: Coordinate, x: int, y: int): int
    requires IsRookStep(x, y)
  {
    if x == 1 then BoardWidth - c.x
    else if x == -1 then c.x + 1
    else if y == 1 then BoardHeight - c.y
    else c.y + 1
  }

  /** The moves the inner `while` loop emits from square `c` onwards. */
  function Ray(b: Board, rook: Piece, x: int, y: int, c: Coordinate): seq<Move>
    requires IsRookStep(x, y)
    decreases Remaining(c, x, y)
  {
    if !IsValidCoordinate(c) then []
    else if c !in b.config then [NewMove(b, rook, c, MajorMove)] + Ray(b, rook, x, y, Step(c, x, y))
    else if rook.pieceAlliance != b.config[c].pieceAlliance then [NewMove(b, rook, c, AttackMove(b.config[c]))]
    else []
  }

  /** The moves of the first `n` directions, in the order they are walked. */
  function DirectionMoves(b: Board, rook: Piece, n: nat): seq<Move>
    requires n <= 4
  {
    if n == 0 then []
    else
      DirectionsAreRookSteps(n - 1);
      var x, y := PossibleMoveCoordinates[2 * (n - 1)], PossibleMoveCoordinates[2 * (n - 1) + 1];
      DirectionMoves(b, rook, n - 1) + Ray(b, rook, x, y, Step(rook.pieceCoordinate, x, y))
  }

  /** Every pseudo-legal rook move, direction by direction. */
  function RookLegalMoves(rook: Piece, b: Board): seq<Move>
  {
    DirectionMoves(b, rook, 4)
  }

  /** `Rook.calculateLegalMoves(board)` for the rook `rook`. */
  method CalculateLegalMoves(rook: Piece, b: Board) returns (legalMoves: seq<Move>)
    requires rook.pieceType == Rook
    ensures legalMoves == RookLegalMoves(rook, b)
  {
    legalMoves := [];
    var i := 0;
    ghost var d := 0;
    while i < |PossibleMoveCoordinates|
      invariant 0 <= d <= 4 && i == 2 * d
      invariant legalMoves == DirectionMoves(b, rook, d)
    {
      DirectionsAreRookSteps(d);
      legalMoves := WalkRay(rook, b, PossibleMoveCoordinates[i], PossibleMoveCoordinates[i + 1], legalMoves);
      i, d := i + 2, d + 1;
    }
  }

  /**
   * The inner `while` loop of `calculateLegalMoves`: walks outward from the rook
   * along (x, y), appending to `legalMoves`, until it leaves the board or meets a piece.
   */
  method WalkRay(rook: Piece, b: Board, x: int, y: int, legalMoves: seq<Move>) returns (moves: seq<Move>)
    requires IsRookStep(x, y)
    ensures moves == legalMoves + Ray(b, rook, x, y, Step(rook.pieceCoordinate, x, y))
  {
    moves := legalMoves;
    var possibleDestCoord := Step(rook.pieceCoordinate, x, y);
    ghost var first := possibleDestCoord;
    while IsValidCoordinate(possibleDestCoord)
      invariant legalMoves + Ray(b, rook, x, y, first) == moves + Ray(b, rook, x, y, possibleDestCoord)
      decreases Remaining(possibleDestCoord, x, y)
    {
      ghost var ray := Ray(b, rook, x, y, possibleDestCoord);
      if possibleDestCoord !in b.config {
        var m := NewMove(b, rook, possibleDestCoord, MajorMove);
        assert ray == [m] + Ray(b, rook, x, y, Step(possibleDestCoord, x, y));
        assert moves + ray == (moves + [m]) + Ray(b, rook, x, y, Step(possibleDestCoord, x, y));
        moves := moves + [m];
      } else {
        var pieceAtDestination := b.config[possibleDestCoord];
        if rook.pieceAlliance != pieceAtDestination.pieceAlliance {
          moves := moves + [NewMove(b, rook, possibleDestCoord, AttackMove(pieceAtDestination))];
        }
        break;
      }
      possibleDestCoord := Step(possibleDestCoord, x, y);
    }
  }

  /** The moves of the ray that starts `k` steps away from the rook. */
  function RayFrom(b: Board, rook: Piece, x: int, y: int, k: nat): seq<Move>
    requires IsRookStep(x, y)
  {
    Ray(b, rook, x, y, Shift(rook.pieceCoordinate, x, y, k))
  }

  /**
   * The `j`-th move `m` of the ray starting `k` steps away is played on
   * `b` by `rook`, goes to the on-board square `k + j` steps away, and every
   * square before that one on the ray is empty.
   */
  predicate RaySquare(b: Board, rook: Piece, x: int, y: int, k: nat, j: nat, m: Move)
  {
    && m.Move? && m.board == b && m.movedPiece == rook && RecordsFirstMove(m)
    && m.destinationCoordinate == Shift(rook.pieceCoordinate, x, y, k + j)
    && IsValidCoordinate(m.destinationCoordinate)
    && forall t :: k <= t < k + j ==> Shift(rook.pieceCoordinate, x, y, t) !in b.config
  }

  /**
   * What a move `m` of a ray does at its square: a quiet move goes to an
   * empty square, an attack captures the enemy occupant, and only the
   * `last` move of the ray may be an attack.
   */
  predicate RayCapture(b: Board, rook: Piece, m: Move, last: bool)
    requires m.Move?
  {
    && (m.variant.MajorMove? || m.variant.AttackMove?)
    && (m.variant.MajorMove? <==> m.destinationCoordinate !in b.config)
    && (m.variant.AttackMove? ==>
          m.destinationCoordinate in b.config &&
          m.variant.attackedPiece == b.config[m.destinationCoordinate] &&
          m.variant.attackedPiece.pieceAlliance != rook.pieceAlliance)
    && (!last ==> m.variant.MajorMove?)
  }

  lemma StepShift(c: Coordinate, x: int, y: int, k: int)
    requires IsRookStep(x, y)
    ensures Step(Shift(c, x, y, k), x, y) == Shift(c, x, y, k + 1)
  {
  }

  /** A ray walks outward square by square and never passes a piece. */
  lemma {:induction false} RaySquares(b: Board, rook: Piece, x: int, y: int, k: nat)
    requires IsRookStep(x, y) && k >= 1
    ensures forall j :: 0 <= j < |RayFrom(b, rook, x, y, k)| ==>
      RaySquare(b, rook, x, y, k, j, RayFrom(b, rook, x, y, k)[j])
    decreases Remaining(Shift(rook.pieceCoordinate, x, y, k), x, y)
  {
    var c := Shift(rook.pieceCoordinate, x, y, k);
    var r := RayFrom(b, rook, x, y, k);
    if IsValidCoordinate(c) && c !in b.config {
      StepShift(rook.pieceCoordinate, x, y, k);
      var rest := RayFrom(b, rook, x, y, k + 1);
      assert r == [NewMove(b, rook, c, MajorMove)] + rest;
      RaySquares(b, rook, x, y, k + 1);
      forall j | 0 <= j < |r|
        ensures RaySquare(b, rook, x, y, k, j, r[j])
      {
        if j > 0 {
          assert r[j] == rest[j - 1];
          assert RaySquare(b, rook, x, y, k + 1, j - 1, rest[j - 1]);
        }
      }
    }
  }

  /**
   * The moves of a ray are quiet moves to empty squares, except that the
   * last one may instead capture the enemy piece on its square; a ray that
   * does not end in a capture ends at the board's edge or at a piece of
   * the rook's own side.
   */
  lemma {:induction false} RayCaptures(b: Board, rook: Piece, x: int, y: int, k: nat)
    requires IsRookStep(x, y) && k >= 1
    ensures forall j :: 0 <= j < |RayFrom(b, rook, x, y, k)| ==>
      RayFrom(b, rook, x, y, k)[j].Move? &&
      RayCapture(b, rook, RayFrom(b, rook, x, y, k)[j], j == |RayFrom(b, rook, x, y, k)| - 1)
    ensures var r := RayFrom(b, rook, x, y, k);
      var s := Shift(rook.pieceCoordinate, x, y, k + |r|);
      (|r| == 0 || r[|r| - 1].variant.MajorMove?) ==>
        !IsValidCoordinate(s) || (s in b.config && b.config[s].pieceAlliance == rook.pieceAlliance)
    decreases Remaining(Shift(rook.pieceCoordinate, x, y, k), x, y)
  {
    var c := Shift(rook.pieceCoordinate, x, y, k);
    var r := RayFrom(b, rook, x, y, k);
    if IsValidCoordinate(c) && c !in b.config {
      StepShift(rook.pieceCoordinate, x, y, k);
      var rest := RayFrom(b, rook, x, y, k + 1);
      assert r == [NewMove(b, rook, c, MajorMove)] + rest;
      RayCaptures(b, rook, x, y, k + 1);
      forall j | 0 <= j < |r|
        ensures r[j].Move? && RayCapture(b, rook, r[j], j == |r| - 1)
      {
        if j > 0 {
          assert r[j] == rest[j - 1];
        }
      }
      assert k + |r| == k + 1 + |rest|;
    }
  }

  /** The `d`-th (x, y) pair of `PossibleMoveCoordinates`. */
  function Direction(d: nat): (int, int)
    requires d < 4
  {
    (PossibleMoveCoordinates[2 * d], PossibleMoveCoordinates[2 * d + 1])
  }

  /**
   * `dest` is `n >= 1` steps from the rook in direction `d`, and every
   * square before it in that direction is empty.
   */
  predicate OnClearRay(b: Board, rook: Piece, d: nat, n: nat, dest: Coordinate)
  {
    d < 4 && n >= 1 &&
    var (x, y) := Direction(d);
    dest == Shift(rook.pieceCoordinate, x, y, n) &&
    forall t :: 1 <= t < n ==> Shift(rook.pieceCoordinate, x, y, t) !in b.config
  }

  /** What every generated rook move satisfies. */
  ghost predicate RookMoveOk(b: Board, rook: Piece, m: Move)
  {
    && m.Move? && m.board == b && m.movedPiece == rook && RecordsFirstMove(m)
    && var dest := m.destinationCoordinate;
    && IsValidCoordinate(dest)
    && dest != rook.pieceCoordinate
    && (dest.x == rook.pieceCoordinate.x || dest.y == rook.pieceCoordinate.y)
    && (exists d, n :: OnClearRay(b, rook, d, n, dest))
    && (m.variant.MajorMove? || m.variant.AttackMove?)
    && (m.variant.MajorMove? <==> dest !in b.config)
    && (dest in b.config ==> b.config[dest].pieceAlliance != rook.pieceAlliance)
    && (m.variant.AttackMove? ==> m.variant.attackedPiece == b.config[dest])
  }

  /**
   * Every move of the first `n` directions is a legal-shaped rook move: on
   * the board, on the rook's rank or file, not its own square, reached
   * through empty squares only, quiet exactly when the target is empty,
   * and never onto a piece of its own side.
   */
  lemma {:induction false} DirectionMovesOk(b: Board, rook: Piece, n: nat)
    requires n <= 4
    ensures forall i :: 0 <= i < |DirectionMoves(b, rook, n)| ==>
      RookMoveOk(b, rook, DirectionMoves(b, rook, n)[i])
  {
    if n > 0 {
      var d := n - 1;
      DirectionsAreRookSteps(d);
      var (x, y) := Direction(d);
      assert Step(rook.pieceCoordinate, x, y) == Shift(rook.pieceCoordinate, x, y, 1);
      var front := DirectionMoves(b, rook, d);
      var ray := RayFrom(b, rook, x, y, 1);
      assert DirectionMoves(b, rook, n) == front + ray;
      DirectionMovesOk(b, rook, d);
      RaySquares(b, rook, x, y, 1);
      RayCaptures(b, rook, x, y, 1);
      forall i | 0 <= i < |front + ray|
        ensures RookMoveOk(b, rook, (front + ray)[i])
      {
        if i >= |front| {
          var j := i - |front|;
          var m := ray[j];
          assert (front + ray)[i] == m;
          assert RaySquare(b, rook, x, y, 1, j, m);
          assert RayCapture(b, rook, m, j == |ray| - 1);
          assert OnClearRay(b, rook, d, 1 + j, m.destinationCoordinate);
        }
      }
    }
  }

  /** Every move `Rook.calculateLegalMoves` emits is a legal-shaped rook move. */
  lemma RookLegalMovesOk(rook: Piece, b: Board)
    ensures forall i :: 0 <= i < |RookLegalMoves(rook, b)| ==> RookMoveOk(b, rook, RookLegalMoves(rook, b)[i])
  {
    DirectionMovesOk(b, rook, 4);
  }

  /** The move a ray emits at `dest`: a capture of an occupant, otherwise a quiet move. */
  function MoveTo(b: Board, rook: Piece, dest: Coordinate): Move
  {
    NewMove(b, rook, dest, if dest in b.config then AttackMove(b.config[dest]) else MajorMove)
  }

  /**
   * A ray misses nothing: from an on-board rook, the on-board square `n`
   * steps out, reached through empty squares, is emitted when it is empty
   * or holds an enemy piece.
   */
  lemma {:induction false} RayComplete(b: Board, rook: Piece, x: int, y: int, k: nat, n: nat)
    requires IsRookStep(x, y) && 1 <= k <= n
    requires IsValidCoordinate(rook.pieceCoordinate)
    requires IsValidCoordinate(Shift(rook.pieceCoordinate, x, y, n))
    requires forall t :: k <= t < n ==> Shift(rook.pieceCoordinate, x, y, t) !in b.config
    requires var dest := Shift(rook.pieceCoordinate, x, y, n);
      dest in b.config ==> b.config[dest].pieceAlliance != rook.pieceAlliance
    ensures MoveTo(b, rook, Shift(rook.pieceCoordinate, x, y, n)) in RayFrom(b, rook, x, y, k)
    decreases n - k
  {
    var c := Shift(rook.pieceCoordinate, x, y, k);
    assert IsValidCoordinate(c);
    if k < n {
      StepShift(rook.pieceCoordinate, x, y, k);
      assert RayFrom(b, rook, x, y, k) == [NewMove(b, rook, c, MajorMove)] + RayFrom(b, rook, x, y, k + 1);
      RayComplete(b, rook, x, y, k + 1, n);
    }
  }

  /** The moves of direction `d`'s ray are among the moves of the first `n > d` directions. */
  lemma {:induction false} DirectionMovesContain(b: Board, rook: Piece, d: nat, n: nat, m: Move)
    requires d < n <= 4
    requires m in RayFrom(b, rook, Direction(d).0, Direction(d).1, 1)
    ensures m in DirectionMoves(b, rook, n)
  {
    DirectionsAreRookSteps(n - 1);
    var (x, y) := Direction(n - 1);
    assert Step(rook.pieceCoordinate, x, y) == Shift(rook.pieceCoordinate, x, y, 1);
    assert DirectionMoves(b, rook, n) == DirectionMoves(b, rook, n - 1) + RayFrom(b, rook, x, y, 1);
    if d < n - 1 {
      DirectionMovesContain(b, rook, d, n - 1, m);
    }
  }

  /**
   * `calculateLegalMoves` misses no move: for an on-board rook, every
   * on-board square on a clear rank or file ray that is empty or holds an
   * enemy piece is the destination of a generated move, a capture exactly
   * when the square is occupied.
   */
  lemma RookLegalMovesComplete(rook: Piece, b: Board, d: nat, n: nat, dest: Coordinate)
    requires IsValidCoordinate(rook.pieceCoordinate) && IsValidCoordinate(dest)
    requires OnClearRay(b, rook, d, n, dest)
    requires dest in b.config ==> b.config[dest].pieceAlliance != rook.pieceAlliance
    ensures MoveTo(b, rook, dest) in RookLegalMoves(rook, b)
  {
    DirectionsAreRookSteps(d);
    var (x, y) := Direction(d);
    RayComplete(b, rook, x, y, 1, n);
    DirectionMovesContain(b, rook, d, 4, MoveTo(b, rook, dest));
  }
}
