/**
 * Move descriptors and their execution, after `board/Move.java`. The
 * Java class hierarchy becomes one `Move` datatype whose `variant` is the
 * concrete subclass; `NullMove` is the sentinel returned when no legal
 * move matches. Executing a move rebuilds a new board through a
 * `Builder`, exactly as the Java `execute` methods do.
 */
module Moves {

  import opened Wrappers
  import opened Geometry
  import opened Pieces
  import opened Boards

  /** `Move.MoveStatus`. */
  datatype MoveStatus = Done | IllegalMove | LeavesPlayerInCheck
  {
    /** `isDone()`: each enum constant answers for itself. */
    function IsDone(): (r: bool)
      ensures r <==> this == Done
    {
      match this
      case Done => true
      case IllegalMove => false
      case LeavesPlayerInCheck => false
    }
  }

  lemma IsDoneOnlyForDone(s: MoveStatus)
    ensures s.IsDone() <==> s == Done
  {
  }

  /** The concrete subclass of a non-null move, with its extra fields. */
  datatype Variant =
    | MajorMove
    | PawnMove
    | PawnJump
    | KingSideCastleMove(castleRook: Piece, castleRookStart: Coordinate, castleRookDestination: Coordinate)
    | QueenSideCastleMove(castleRook: Piece, castleRookStart: Coordinate, castleRookDestination: Coordinate)
    | AttackMove(attackedPiece: Piece)
    | PawnAttackMove(attackedPiece: Piece)
    | PawnEnPassantAttackMove(attackedPiece: Piece)
  {
    predicate IsCastle()
    {
      KingSideCastleMove? || QueenSideCastleMove?
    }

    predicate IsAttackFamily()
    {
      AttackMove? || PawnAttackMove? || PawnEnPassantAttackMove?
    }
  }

  /**
   * A move: the board it is played on, the moving piece, the destination
   * and the moving piece's first-move flag as it was when the move was
   * made; or the null move, which has a destination only.
   */
  datatype Move =
    | Move(board: Board, movedPiece: Piece, destinationCoordinate: Coordinate,
           isFirstMove: bool, variant: Variant)
    | NullMove(destinationCoordinate: Coordinate)

  /** `MoveFactory.NULL_MOVE`: the one null move, at (-1, -1). */
  const NULL_MOVE: Move := NullMove(Coordinate(-1, -1))

  /** The `Move(board, movedPiece, destination)` constructor of each subclass. */
  function NewMove(b: Board, p: Piece, dest: Coordinate, v: Variant): (m: Move)
    ensures m.Move? && m.board == b && m.movedPiece == p
    ensures m.destinationCoordinate == dest && m.variant == v
    ensures m.isFirstMove == p.isFirstMove
  {
    Move(b, p, dest, p.isFirstMove, v)
  }

  /** Every non-null move remembers its piece's first-move flag from construction time. */
  predicate RecordsFirstMove(m: Move)
  {
    m.Move? ==> m.isFirstMove == m.movedPiece.isFirstMove
  }

  /** `getCurrentCoordinate()`: the moved piece's square; `None` where Java dereferences null. */
  function CurrentCoordinate(m: Move): (r: Option<Coordinate>)
    ensures r.Some? <==> m.Move?
    ensures m.Move? ==> r.value == m.movedPiece.pieceCoordinate
  {
    match m
    case Move(_, p, _, _, _) => Some(p.pieceCoordinate)
    case NullMove(_) => None
  }

  /**
   * `isAttack()`: false in `Move`, overridden to true in `AttackMove` and
   * inherited by `PawnAttackMove` and `PawnEnPassantAttackMove`.
   */
  function IsAttack(m: Move): (r: bool)
    ensures r <==> m.Move? && (m.variant.AttackMove? || m.variant.PawnAttackMove? ||
                               m.variant.PawnEnPassantAttackMove?)
    ensures r ==> !m.variant.IsCastle()
  {
    m.Move? && m.variant.IsAttackFamily()
  }

  /** `isCastlingMove()`: false in `Move`, overridden to true in `CastleMove`, so true for both castle moves. */
  function IsCastlingMove(m: Move): (r: bool)
    ensures r <==> m.Move? && (m.variant.KingSideCastleMove? || m.variant.QueenSideCastleMove?)
    ensures r ==> !IsAttack(m)
  {
    m.Move? && m.variant.IsCastle()
  }

  /** `getAttackedPiece()`: the captured piece of an attack, `None` (null) otherwise. */
  function AttackedPiece(m: Move): (r: Option<Piece>)
    ensures r.Some? <==> IsAttack(m)
    ensures r.Some? ==> r.value == m.variant.attackedPiece
  {
    if m.Move? && m.variant.IsAttackFamily() then Some(m.variant.attackedPiece) else None
  }

  /** Only attacks report a captured piece, and every attack reports the one it was built with. */
  lemma AttackedPieceOnlyForAttacks(m: Move)
    ensures AttackedPiece(m).Some? <==> IsAttack(m)
    ensures IsAttack(m) ==> AttackedPiece(m) == Some(m.variant.attackedPiece)
    ensures IsAttack(m) ==> !IsCastlingMove(m)
  {
  }

  /** `getClass() == o.getClass()` for two non-null moves. */
  predicate SameClass(v: Variant, w: Variant)
  {
    (v.MajorMove? && w.MajorMove?) || (v.PawnMove? && w.PawnMove?) ||
    (v.PawnJump? && w.PawnJump?) ||
    (v.KingSideCastleMove? && w.KingSideCastleMove?) ||
    (v.QueenSideCastleMove? && w.QueenSideCastleMove?) ||
    (v.AttackMove? && w.AttackMove?) || (v.PawnAttackMove? && w.PawnAttackMove?) ||
    (v.PawnEnPassantAttackMove? && w.PawnEnPassantAttackMove?)
  }

  /**
   * `m.equals(o)`, `None` standing for null. Moves of the same class are
   * equal when first-move flag, board, moved piece and destination agree;
   * attacks also compare the attacked piece. Castle moves do not compare
   * their rook fields. Null moves are compared as values: this relies on
   * `NULL_MOVE` being the only null move, since Java's `equals` on two
   * distinct `NullMove` objects would dereference their null moved piece.
   */
  function MoveEquals(m: Move, o: Option<Move>): (r: bool)
    ensures o.None? ==> !r
    ensures o == Some(m) ==> r
    ensures !IsCastlingMove(m) ==> (r <==> o == Some(m))
    ensures IsCastlingMove(m) ==>
      (r <==> o.Some? && IsCastlingMove(o.value) &&
              o.value.variant.KingSideCastleMove? == m.variant.KingSideCastleMove? &&
              o.value.board == m.board && o.value.movedPiece == m.movedPiece &&
              o.value.isFirstMove == m.isFirstMove &&
              o.value.destinationCoordinate == m.destinationCoordinate)
    ensures r ==> o.Some? && o.value.destinationCoordinate == m.destinationCoordinate
  {
    match o
    case None => false
    case Some(n) =>
      if m.NullMove? || n.NullMove? then m.NullMove? && n.NullMove? && m == n
      else
        SameClass(m.variant, n.variant) &&
        m.isFirstMove == n.isFirstMove &&
        m.movedPiece.pieceCoordinate == n.movedPiece.pieceCoordinate &&
        m.board == n.board && m.movedPiece == n.movedPiece &&
        m.destinationCoordinate == n.destinationCoordinate &&
        (m.variant.IsAttackFamily() ==> m.variant.attackedPiece == n.variant.attackedPiece)
  }

  /** `equals` is reflexive, false for null, and agrees with value equality on every non-castle move. */
  lemma MoveEqualsIsValueEquality(m: Move, n: Move)
    requires !IsCastlingMove(m)
    ensures MoveEquals(m, Some(m)) && !MoveEquals(m, None)
    ensures MoveEquals(m, Some(n)) <==> m == n
  {
  }

  /** Two castle moves that differ only in their rook fields are nevertheless `equals`. */
  lemma CastleEqualityIgnoresRook(b: Board, king: Piece, dest: Coordinate,
                                  r1: Piece, r2: Piece, s: Coordinate, t: Coordinate)
    requires r1 != r2
    ensures var m1 := NewMove(b, king, dest, KingSideCastleMove(r1, s, t));
            var m2 := NewMove(b, king, dest, KingSideCastleMove(r2, s, t));
            m1 != m2 && MoveEquals(m1, Some(m2))
  {
  }

  /**
   * `movePiece(move)` of the moved piece: a piece of the same kind at the
   * move's destination, of the moved piece's alliance, no longer on its
   * first move. Only `Rook.movePiece` is part of this model; the other
   * kinds are given the same behaviour.
   */
  function MovePiece(m: Move): (p: Piece)
    requires m.Move?
    ensures p.pieceType == m.movedPiece.pieceType
    ensures p.pieceCoordinate == m.destinationCoordinate
    ensures p.pieceAlliance == m.movedPiece.pieceAlliance && !p.isFirstMove
  {
    Piece(m.movedPiece.pieceType, m.destinationCoordinate, m.movedPiece.pieceAlliance, false)
  }

  /** `Rook.movePiece` is the three-argument rook constructor with a cleared flag. */
  lemma RookMovePiece(m: Move)
    requires m.Move? && m.movedPiece.pieceType == Rook
    ensures MovePiece(m) == NewRookWithFlag(m.destinationCoordinate, m.movedPiece.pieceAlliance, false)
  {
  }

  /** What running `execute()` gives: a board, `null`, or a thrown exception. */
  datatype Outcome = Built(result: Board) | Null | Thrown

  /**
   * The board every `execute` starts from: the mover's pieces other than
   * `excluded`, and all of the opponent's pieces.
   */
  function Kept(b: Board, excluded: set<Piece>): map<Coordinate, Piece>
  {
    map c | c in b.config && !(b.config[c].pieceAlliance == b.moveMaker && b.config[c] in excluded)
      :: b.config[c]
  }

  /** The board built by `Move.execute` (inherited by `PawnMove`) and `MajorMove.execute`. */
  function StandardResult(m: Move): Board
    requires m.Move?
  {
    Board(Kept(m.board, {m.movedPiece})[m.destinationCoordinate := MovePiece(m)],
          Opponent(m.board.moveMaker), None)
  }

  /** The board built by `CastleMove.execute`: the rook is re-created with the two-argument constructor. */
  function CastleResult(m: Move): Board
    requires m.Move? && m.variant.IsCastle()
  {
    var v := m.variant;
    Board(Kept(m.board, {m.movedPiece, v.castleRook})
            [m.destinationCoordinate := MovePiece(m)]
            [v.castleRookDestination := NewRook(v.castleRookDestination, v.castleRook.pieceAlliance)],
          Opponent(m.board.moveMaker), None)
  }

  /** What `execute()` does for each kind of move. */
  function Executed(m: Move): Outcome
  {
    match m
    case NullMove(_) => Thrown
    case Move(_, piece, _, _, v) =>
      match v
      case MajorMove => Built(StandardResult(m))
      case PawnMove => Built(StandardResult(m))
      case PawnJump =>
        // `(Pawn) movedPiece.movePiece(this)` fails unless a pawn moved
        if piece.pieceType == Pawn then
          Built(StandardResult(m).(enPassantPawn := Some(MovePiece(m))))
        else Thrown
      case KingSideCastleMove(_, _, _) => Built(CastleResult(m))
      case QueenSideCastleMove(_, _, _) => Built(CastleResult(m))
      case AttackMove(_) => Null
      case PawnAttackMove(_) => Null
      case PawnEnPassantAttackMove(_) => Null
  }

  lemma KeptFromSides(b: Board, excluded: set<Piece>)
    ensures Selected(b, b.moveMaker, excluded) + Selected(b, Opponent(b.moveMaker), {}) == Kept(b, excluded)
  {
  }

  /** `Move.execute` / `MajorMove.execute`, run on a builder. */
  method ExecuteStandard(m: Move) returns (r: Board)
    requires m.Move? && WellFormed(m.board)
    ensures r == StandardResult(m)
  {
    var b := m.board;
    KeptFromSides(b, {m.movedPiece});
    var builder := new Builder();
    builder.PlaceActivePieces(b, b.moveMaker, {m.movedPiece});
    builder.PlaceActivePieces(b, Opponent(b.moveMaker), {});
    assert builder.boardConfig == Kept(b, {m.movedPiece});
    builder.SetPiece(MovePiece(m));
    builder.SetMoveMaker(Opponent(b.moveMaker));
    r := builder.Build();
  }

  /** `PawnJump.execute`; `Thrown` models the failing cast when the mover is not a pawn. */
  method ExecutePawnJump(m: Move) returns (r: Outcome)
    requires m.Move? && m.variant.PawnJump? && WellFormed(m.board)
    ensures r == Executed(m)
  {
    var b := m.board;
    KeptFromSides(b, {m.movedPiece});
    var builder := new Builder();
    builder.PlaceActivePieces(b, b.moveMaker, {m.movedPiece});
    builder.PlaceActivePieces(b, Opponent(b.moveMaker), {});
    assert builder.boardConfig == Kept(b, {m.movedPiece});
    var movedPawn := MovePiece(m);
    if movedPawn.pieceType != Pawn {
      return Thrown;
    }
    builder.SetPiece(movedPawn);
    builder.SetEnPassantPawn(movedPawn);
    builder.SetMoveMaker(Opponent(b.moveMaker));
    var board := builder.Build();
    r := Built(board);
  }

  /** `CastleMove.execute`, shared by both castle moves. */
  method ExecuteCastle(m: Move) returns (r: Board)
    requires m.Move? && m.variant.IsCastle() && WellFormed(m.board)
    ensures r == CastleResult(m)
  {
    var b := m.board;
    var v := m.variant;
    KeptFromSides(b, {m.movedPiece, v.castleRook});
    var builder := new Builder();
    builder.PlaceActivePieces(b, b.moveMaker, {m.movedPiece, v.castleRook});
    builder.PlaceActivePieces(b, Opponent(b.moveMaker), {});
    assert builder.boardConfig == Kept(b, {m.movedPiece, v.castleRook});
    builder.SetPiece(MovePiece(m));
    var rook := NewRook(v.castleRookDestination, v.castleRook.pieceAlliance);
    builder.SetPiece(rook);
    builder.SetMoveMaker(Opponent(b.moveMaker));
    r := builder.Build();
  }

  /** `execute()` dispatched on the concrete class of the move. */
  method Execute(m: Move) returns (r: Outcome)
    requires m.Move? ==> WellFormed(m.board)
    ensures r == Executed(m)
  {
    if m.NullMove? {
      return Thrown;
    }
    match m.variant
    case MajorMove =>
      var board := ExecuteStandard(m);
      r := Built(board);
    case PawnMove =>
      var board := ExecuteStandard(m);
      r := Built(board);
    case PawnJump =>
      r := ExecutePawnJump(m);
    case KingSideCastleMove(_, _, _) =>
      var board := ExecuteCastle(m);
      r := Built(board);
    case QueenSideCastleMove(_, _, _) =>
      var board := ExecuteCastle(m);
      r := Built(board);
    case AttackMove(_) =>
      r := Null;
    case PawnAttackMove(_) =>
      r := Null;
    case PawnEnPassantAttackMove(_) =>
      r := Null;
  }

  /** Every implemented `execute` hands the move to the opponent. */
  lemma ExecuteFlipsSide(m: Move)
    requires Executed(m).Built?
    ensures m.Move? && Executed(m).result.moveMaker == Opponent(m.board.moveMaker)
  {
  }

  /** The attack family's `execute` is a stub returning null; executing the null move throws. */
  lemma ExecuteStubsAndNullMove(m: Move)
    ensures IsAttack(m) ==> Executed(m) == Null
    ensures m.NullMove? ==> Executed(m) == Thrown
    ensures Executed(NULL_MOVE) == Thrown && NULL_MOVE.destinationCoordinate == Coordinate(-1, -1)
  {
  }

  /** Only a pawn jump records an en-passant pawn, and it records the pawn after its jump. */
  lemma ExecuteEnPassantPawn(m: Move)
    requires Executed(m).Built?
    ensures m.variant.PawnJump? ==> Executed(m).result.enPassantPawn == Some(MovePiece(m))
    ensures !m.variant.PawnJump? ==> Executed(m).result.enPassantPawn == None
  {
  }

  /**
   * A standard move (`MajorMove`, `PawnMove`) leaves exactly three groups of
   * pieces: the mover's pieces other than the moved one, the opponent's
   * pieces, and the moved piece at its destination, which replaces whatever
   * stood there.
   */
  lemma {:induction false} StandardResultPieces(m: Move, q: Piece)
    requires m.Move? && WellFormed(m.board)
    ensures q in StandardResult(m).config.Values <==>
      q == MovePiece(m) ||
      (q in m.board.config.Values && q.pieceCoordinate != m.destinationCoordinate &&
       !(q == m.movedPiece && q.pieceAlliance == m.board.moveMaker))
  {
    var b, r := m.board, StandardResult(m);
    var dest := m.destinationCoordinate;
    assert r.config[dest] == MovePiece(m);
    if q in r.config.Values && q != MovePiece(m) {
      var c :| c in r.config && r.config[c] == q;
      assert c != dest && b.config[c] == q;
    }
    if q in b.config.Values && q.pieceCoordinate != dest && !(q == m.movedPiece && q.pieceAlliance == b.moveMaker) {
      var c :| c in b.config && b.config[c] == q;
      assert r.config[c] == q;
    }
  }

  /** Execution keeps the board invariant: every piece stands on its own square. */
  lemma ExecutePreservesWellFormed(m: Move)
    requires m.Move? && WellFormed(m.board) && Executed(m).Built?
    ensures WellFormed(Executed(m).result)
  {
  }

  /**
   * Castling empties the king's and the rook's squares (unless something
   * is placed back there), puts the moved king on its destination and a
   * fresh, never-moved rook of the castling rook's alliance on the rook's
   * destination.
   */
  lemma CastleResultPieces(m: Move)
    requires m.Move? && m.variant.IsCastle() && WellFormed(m.board)
    requires m.movedPiece.pieceAlliance == m.board.moveMaker
    requires m.variant.castleRook.pieceAlliance == m.board.moveMaker
    ensures var r, v := Executed(m).result, m.variant;
      && r.config[v.castleRookDestination] == NewRook(v.castleRookDestination, v.castleRook.pieceAlliance)
      && r.config[v.castleRookDestination].isFirstMove
      && (m.destinationCoordinate != v.castleRookDestination ==>
            r.config[m.destinationCoordinate] == MovePiece(m))
      && (forall c :: c in r.config && c != m.destinationCoordinate && c != v.castleRookDestination ==>
            r.config[c] != m.movedPiece && r.config[c] != v.castleRook)
  {
  }

  /** The move starts on `from` and ends on `to`. */
  predicate Matches(m: Move, from: Coordinate, to: Coordinate)
  {
    CurrentCoordinate(m) == Some(from) && m.destinationCoordinate == to
  }

  /**
   * `MoveFactory.createMove`: the first of the legal moves, in their
   * enumeration order, that goes from `from` to `to`, or `NULL_MOVE` when
   * none does. The legal moves are never null moves (Java would fail on
   * `getCurrentCoordinate` of one).
   */
  method CreateMove(legalMoves: seq<Move>, from: Coordinate, to: Coordinate) returns (m: Move)
    requires forall i :: 0 <= i < |legalMoves| ==> legalMoves[i].Move?
    ensures m == NULL_MOVE <==> forall i :: 0 <= i < |legalMoves| ==> !Matches(legalMoves[i], from, to)
    ensures m != NULL_MOVE ==>
      exists i :: 0 <= i < |legalMoves| && legalMoves[i] == m && Matches(m, from, to) &&
        forall j :: 0 <= j < i ==> !Matches(legalMoves[j], from, to)
  {
    for i := 0 to |legalMoves|
      invariant forall j :: 0 <= j < i ==> !Matches(legalMoves[j], from, to)
    {
      var move := legalMoves[i];
      if move.movedPiece.pieceCoordinate == from && move.destinationCoordinate == to {
        return move;
      }
    }
    return NULL_MOVE;
  }
}
