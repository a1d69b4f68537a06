/**
 * The board that moves are executed against. The Java classes `Board`,
 * `Board.Builder`, `Player` and `Tile` are not part of this model; the
 * shape used here is the one `board/Move.java` relies on: a board maps
 * occupied coordinates to their pieces, names the side to move, and may
 * record one pawn eligible for capture en passant. A `Builder` collects
 * piece placements keyed by each piece's own coordinate, so every board it
 * builds is well formed.
 */
module Boards {

  import opened Wrappers
  import opened Geometry
  import opened Pieces

  datatype Board = Board(config: map<Coordinate, Piece>, moveMaker: Alliance,
                         enPassantPawn: Option<Piece>)

  /** Every occupied coordinate holds a piece that knows it stands there. */
  predicate WellFormed(b: Board)
  {
    forall c :: c in b.config ==> b.config[c].pieceCoordinate == c
  }

  /** `getActivePieces()` of the player of alliance `a`: the pieces of that side on the board. */
  function ActivePieces(b: Board, a: Alliance): set<Piece>
  {
    set c | c in b.config && b.config[c].pieceAlliance == a :: b.config[c]
  }

  /** On a well-formed board, a piece is active exactly when it stands on its own square. */
  lemma ActivePiecesMembership(b: Board, a: Alliance, p: Piece)
    requires WellFormed(b)
    ensures p in ActivePieces(b, a) <==>
      p.pieceAlliance == a && p.pieceCoordinate in b.config && b.config[p.pieceCoordinate] == p
  {
    if p in ActivePieces(b, a) {
      var c :| c in b.config && b.config[c].pieceAlliance == a && b.config[c] == p;
      assert c == p.pieceCoordinate;
    }
  }

  /**
   * The pieces of side `a`, except those in `excluded`, keyed by their
   * squares: what a loop "for each active piece not excluded, setPiece"
   * contributes to a builder.
   */
  function Selected(b: Board, a: Alliance, excluded: set<Piece>): map<Coordinate, Piece>
  {
    map c | c in b.config && b.config[c].pieceAlliance == a && b.config[c] !in excluded :: b.config[c]
  }

  /** `Board.Builder`: placements collected so far, the next side to move and the en-passant pawn. */
  class Builder {
    var boardConfig: map<Coordinate, Piece>
    var nextMoveMaker: Option<Alliance>
    var enPassantPawn: Option<Piece>

    /** The builder invariant: placements are keyed by the placed piece's coordinate. */
    ghost predicate Valid()
      reads this
    {
      forall c :: c in boardConfig ==> boardConfig[c].pieceCoordinate == c
    }

    constructor ()
      ensures Valid()
      ensures boardConfig == map[] && nextMoveMaker == None && enPassantPawn == None
    {
      boardConfig := map[];
      nextMoveMaker := None;
      enPassantPawn := None;
    }

    /** `setPiece`: place `p` on its own square, replacing whatever was placed there. */
    method SetPiece(p: Piece)
      requires Valid()
      modifies this
      ensures Valid()
      ensures boardConfig == old(boardConfig)[p.pieceCoordinate := p]
      ensures nextMoveMaker == old(nextMoveMaker) && enPassantPawn == old(enPassantPawn)
    {
      boardConfig := boardConfig[p.pieceCoordinate := p];
    }

    /** `setMoveMaker`. */
    method SetMoveMaker(a: Alliance)
      modifies this
      ensures nextMoveMaker == Some(a)
      ensures boardConfig == old(boardConfig) && enPassantPawn == old(enPassantPawn)
    {
      nextMoveMaker := Some(a);
    }

    /** `setEnPassantPawn`. */
    method SetEnPassantPawn(p: Piece)
      modifies this
      ensures enPassantPawn == Some(p)
      ensures boardConfig == old(boardConfig) && nextMoveMaker == old(nextMoveMaker)
    {
      enPassantPawn := Some(p);
    }

    /** `build`: freeze the placements into a board, which is well formed. */
    method Build() returns (b: Board)
      requires Valid() && nextMoveMaker.Some?
      ensures WellFormed(b)
      ensures b.config == boardConfig && b.moveMaker == nextMoveMaker.value
      ensures b.enPassantPawn == enPassantPawn
    {
      b := Board(boardConfig, nextMoveMaker.value, enPassantPawn);
    }

    /**
     * The loop each `execute` runs over one side's active pieces: every
     * piece of side `a` on `b` that is not in `excluded` is placed.
     */
    method PlaceActivePieces(b: Board, a: Alliance, excluded: set<Piece>)
      requires Valid() && WellFormed(b)
      modifies this
      ensures Valid()
      ensures boardConfig == old(boardConfig) + Selected(b, a, excluded)
      ensures nextMoveMaker == old(nextMoveMaker) && enPassantPawn == old(enPassantPawn)
    {
      var pieces := ActivePieces(b, a);
      var todo := pieces;
      while todo != {}
        invariant Valid()
        invariant todo <= pieces
        invariant boardConfig == old(boardConfig) + SelectedAmong(b, pieces - todo, excluded)
        invariant nextMoveMaker == old(nextMoveMaker) && enPassantPawn == old(enPassantPawn)
        decreases todo
      {
        var p :| p in todo;
        ghost var done := pieces - todo;
        ActivePiecesMembership(b, a, p);
        if p !in excluded {
          SetPiece(p);
        }
        todo := todo - {p};
        assert pieces - todo == done + {p};
        SelectedAmongStep(b, a, done, p, excluded);
      }
      assert pieces - todo == pieces;
      SelectedAmongAll(b, a, excluded);
    }
  }

  /** The pieces of `done` on `b`, except those in `excluded`, keyed by their squares. */
  ghost function SelectedAmong(b: Board, done: set<Piece>, excluded: set<Piece>): map<Coordinate, Piece>
  {
    map c | c in b.config && b.config[c] in done && b.config[c] !in excluded :: b.config[c]
  }

  lemma SelectedAmongStep(b: Board, a: Alliance, done: set<Piece>, p: Piece, excluded: set<Piece>)
    requires WellFormed(b) && p in ActivePieces(b, a)
    ensures p !in excluded ==>
      SelectedAmong(b, done + {p}, excluded) == SelectedAmong(b, done, excluded)[p.pieceCoordinate := p]
    ensures p in excluded ==>
      SelectedAmong(b, done + {p}, excluded) == SelectedAmong(b, done, excluded)
  {
    ActivePiecesMembership(b, a, p);
  }

  lemma SelectedAmongAll(b: Board, a: Alliance, excluded: set<Piece>)
    ensures SelectedAmong(b, ActivePieces(b, a), excluded) == Selected(b, a, excluded)
  {
    var l := SelectedAmong(b, ActivePieces(b, a), excluded);
    var r := Selected(b, a, excluded);
    forall c | c in b.config
      ensures c in l <==> c in r
    {
      if b.config[c].pieceAlliance == a {
        assert b.config[c] in ActivePieces(b, a);
      }
    }
  }
}
