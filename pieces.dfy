/**
 * The piece value type of `pieces/Piece.java`, together with the two
 * `Rook` constructors of `pieces/Rook.java`. A Java piece is an immutable
 * object whose concrete class is its kind; here it is a datatype value
 * carrying that kind, so Dafny's built-in equality is Java's `equals`.
 */
module Pieces {

  import opened Wrappers
  import opened Geometry

  /** `Piece.PieceType`. */
  datatype PieceType = Pawn | Knight | Bishop | Rook | Queen | King

  /** `PieceType.toString`: the one-letter name of a kind. */
  function PieceName(t: PieceType): (s: string)
    ensures |s| == 1
  {
    match t
    case Pawn => "P"
    case Knight => "N"
    case Bishop => "B"
    case Rook => "R"
    case Queen => "Q"
    case King => "K"
  }

  /** Distinct kinds print as distinct letters, so a name identifies its kind. */
  lemma PieceNameInjective(t: PieceType, u: PieceType)
    ensures PieceName(t) == PieceName(u) <==> t == u
  {
  }

  /**
   * A piece: its kind (the Java subclass), its square, its side and
   * whether it has not moved yet.
   */
  datatype Piece = Piece(pieceType: PieceType, pieceCoordinate: Coordinate,
                         pieceAlliance: Alliance, isFirstMove: bool)

  /** The two-argument `Piece` constructor, called by a subclass of kind `t`. */
  function NewPiece(t: PieceType, c: Coordinate, a: Alliance): (p: Piece)
    ensures p.pieceType == t && p.pieceCoordinate == c && p.pieceAlliance == a
    ensures !p.isFirstMove
  {
    Piece(t, c, a, false)
  }

  /** `Rook(coordinate, alliance)`: a rook that has not moved yet. */
  function NewRook(c: Coordinate, a: Alliance): (p: Piece)
    ensures p.pieceType == Rook && p.pieceCoordinate == c && p.pieceAlliance == a
    ensures p.isFirstMove
  {
    Piece(Rook, c, a, true)
  }

  /** `Rook(coordinate, alliance, isFirstMove)`. */
  function NewRookWithFlag(c: Coordinate, a: Alliance, firstMove: bool): (p: Piece)
    ensures p.pieceType == Rook && p.pieceCoordinate == c && p.pieceAlliance == a
    ensures p.isFirstMove == firstMove
  {
    Piece(Rook, c, a, firstMove)
  }

  /**
   * `Piece.equals(o)`: `None` stands for `null`. Two pieces are equal when
   * they have the same concrete class, the same first-move flag, the same
   * coordinate and the same alliance.
   */
  function PieceEquals(p: Piece, o: Option<Piece>): (r: bool)
    ensures r <==> o == Some(p)
  {
    match o
    case None => false
    case Some(q) =>
      p.pieceType == q.pieceType &&
      p.isFirstMove == q.isFirstMove &&
      p.pieceCoordinate == q.pieceCoordinate &&
      p.pieceAlliance == q.pieceAlliance
  }

  /** `equals` is exactly value equality of the model's pieces, and never holds for null. */
  lemma PieceEqualsIsValueEquality(p: Piece, q: Piece)
    ensures PieceEquals(p, Some(q)) <==> p == q
    ensures !PieceEquals(p, None)
  {
  }

  /** `equals` is reflexive and symmetric. */
  lemma PieceEqualsReflexiveSymmetric(p: Piece, q: Piece)
    ensures PieceEquals(p, Some(p))
    ensures PieceEquals(p, Some(q)) == PieceEquals(q, Some(p))
  {
  }

  /** The fields that `Piece.hashCode` hashes: coordinate, alliance and first-move flag. */
  function HashKey(p: Piece): (k: (Coordinate, Alliance, bool))
    ensures k.0 == p.pieceCoordinate && k.1 == p.pieceAlliance && k.2 == p.isFirstMove
  {
    (p.pieceCoordinate, p.pieceAlliance, p.isFirstMove)
  }

  /** `hashCode` is consistent with `equals`: equal pieces hash alike. */
  lemma EqualPiecesHashAlike(p: Piece, q: Piece)
    requires PieceEquals(p, Some(q))
    ensures HashKey(p) == HashKey(q)
  {
  }

  /** The hash ignores the kind: a rook and a queen on one square with one flag collide. */
  lemma HashIgnoresKind(c: Coordinate, a: Alliance, f: bool)
    ensures HashKey(Piece(Rook, c, a, f)) == HashKey(Piece(Queen, c, a, f))
    ensures !PieceEquals(Piece(Rook, c, a, f), Some(Piece(Queen, c, a, f)))
  {
  }
}
