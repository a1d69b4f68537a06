# Chess rules kernel and minimax search, modelled in Dafny

This project models the core of a Java chess engine: the piece value
type (`pieces/Piece.java`), rook move generation (`pieces/Rook.java`),
move descriptors with their execution and the move factory
(`board/Move.java`), and the fixed-depth minimax search
(`player/basicAI/MiniMax.java`).

- `wrappers.dfy` (`Wrappers`): `Option`, standing for Java's `null`.
- `geometry.dfy` (`Geometry`): coordinates, the 8 by 8 bounds test, the two alliances.
- `pieces.dfy` (`Pieces`): `PieceType` and its letters, the `Piece` datatype with its
  kind, coordinate, alliance and first-move flag, the constructors, `equals` and the hashed fields.
- `boards.dfy` (`Boards`): the board as a map from coordinate to piece, with the side to move
  and the en-passant pawn, and a `Builder` class whose `setPiece` is a map update keyed by the piece's square.
- `moves.dfy` (`Moves`): the `Move` datatype, with the subclass as a variant and `NullMove` as the sentinel.
  It also holds `MoveStatus`, `equals`, `isAttack`/`getAttackedPiece`, `movePiece`, and every `execute`.
  Each `execute` is an imperative method over a fresh `Builder`, proved equal to a specification function.
  `MoveFactory.createMove` is a linear scan.
- `rook_moves.dfy` (`RookMoves`): `calculateLegalMoves` as the nested `for`/`while` loop with `break`.
  It is proved equal to a recursive ray specification. Lemmas give the shape of every ray, and show that the generator is sound and misses no reachable square.
- `minimax.dfy` (`MiniMax`): `min`, `max` and the root `execute` as loop methods.
  They run over an abstract game and are proved equal to mutually recursive specification functions.
  Lemmas cover the bounds, what is attained, the ignored unmade moves and the tie-break.

Execution results are `Built(board)`, `Null` (the attack moves' `execute` returns null) or `Thrown`.
`Thrown` covers executing the null move and the `(Pawn)` cast in `PawnJump.execute` when the mover is not a pawn.

The model follows the code, in particular:
- The root of the search keeps the LAST of several equally good moves, because the code compares with `>=` / `<=`.
- The attack moves' `execute` returns null. The code does not remove the captured piece.
- Castling places a rook made by the two-argument `Rook` constructor, whose first-move flag is true, not cleared.

## Model

| member | source | states |
|---|---|---|
| `Pieces.PieceName` | application/src/main/java/pieces/Piece.java:90-107 | each kind prints as a one-letter name |
| `Pieces.PieceNameInjective` | application/src/main/java/pieces/Piece.java:91-96 | the letters P, N, B, R, Q, K are distinct, so the name determines the kind |
| `Pieces.NewPiece` | application/src/main/java/pieces/Piece.java:24-30 | the two-argument constructor stores coordinate and alliance and sets first-move to false |
| `Pieces.NewRook` | application/src/main/java/pieces/Rook.java:28-30 | `Rook(c, a)` is a rook on `c` of alliance `a` with first-move true |
| `Pieces.NewRookWithFlag` | application/src/main/java/pieces/Rook.java:35-37 | `Rook(c, a, f)` is a rook on `c` of alliance `a` with first-move `f` |
| `Pieces.PieceEquals` | application/src/main/java/pieces/Piece.java:71-79 | `equals` holds exactly for a non-null piece equal in kind, first-move flag, coordinate and alliance, that is, for the same value |
| `Pieces.HashKey` | application/src/main/java/pieces/Piece.java:81-84 | the hash is taken over the coordinate, the alliance and the first-move flag, and nothing else |
| `Pieces.PieceEqualsIsValueEquality` | application/src/main/java/pieces/Piece.java:71-79 | `equals` holds iff kind, first-move flag, coordinate and alliance agree; never for null |
| `Pieces.PieceEqualsReflexiveSymmetric` | application/src/main/java/pieces/Piece.java:72-79 | `equals` is reflexive and symmetric |
| `Pieces.EqualPiecesHashAlike` | application/src/main/java/pieces/Piece.java:81-84 | equal pieces have equal hashed fields (coordinate, alliance, first-move) |
| `Pieces.HashIgnoresKind` | application/src/main/java/pieces/Piece.java:82-84 | the hash ignores the kind: unequal pieces of different kinds on one square collide |
| `Boards.Builder.SetPiece` | application/src/main/java/board/Move.java:104 | placing a piece updates the placement map at the piece's own square and keeps the builder invariant |
| `Boards.Builder.SetMoveMaker` | application/src/main/java/board/Move.java:114 | the next side to move is set; placements and en-passant pawn are unchanged |
| `Boards.Builder.SetEnPassantPawn` | application/src/main/java/board/Move.java:221 | the en-passant pawn is set; placements and next mover are unchanged |
| `Boards.Builder.PlaceActivePieces` | application/src/main/java/board/Move.java:102-110 | the loop over one side's active pieces places exactly that side's pieces that are not excluded |
| `Boards.Builder.Build` | application/src/main/java/board/Move.java:115 | the built board holds the placements, the next mover and the en-passant pawn, and is well formed |
| `Moves.MoveStatus.IsDone` | application/src/main/java/board/Move.java:122-144 | each status answers `isDone()` for itself: true exactly for `DONE` |
| `Moves.IsDoneOnlyForDone` | application/src/main/java/board/Move.java:122-144 | `isDone()` is true for `DONE` and false for `ILLEGAL_MOVE` and `LEAVES_PLAYER_IN_CHECK` |
| `Moves.NewMove` | application/src/main/java/board/Move.java:24-29 | a move stores board, piece and destination and records the piece's first-move flag at construction |
| `Moves.CurrentCoordinate` | application/src/main/java/board/Move.java:55-57 | a non-null move starts from its moved piece's square; the null move has no start (Java dereferences null) |
| `Moves.IsAttack` | application/src/main/java/board/Move.java:59-61 | false in the base class; overridden to true in `AttackMove` (`board/Move.java:303-306`) and inherited by its two pawn subclasses, so true exactly for those three; never for a castle |
| `Moves.IsCastlingMove` | application/src/main/java/board/Move.java:63-65 | false in the base class; overridden to true in `CastleMove` (`board/Move.java:247-250`), so true exactly for the two castle moves, which are never attacks |
| `Moves.AttackedPiece` | application/src/main/java/board/Move.java:67-69 | null in the base class; `AttackMove` returns its captured piece (`board/Move.java:308-311`), so non-null exactly for attacks, and then the piece the attack was built with |
| `Moves.AttackedPieceOnlyForAttacks` | application/src/main/java/board/Move.java:59-69 | only the attack family reports `isAttack()` and a captured piece, which is the one it was built with; the base gives false/null |
| `Moves.MoveEquals` | application/src/main/java/board/Move.java:76-86 | false for null and reflexive. For non-castle moves it is value equality, comparing the captured piece too for attacks (overrides at `board/Move.java:168-171`, `193-196`, `318-325`). A castle equals exactly a castle of the same side with the same board, moved piece, first-move flag and destination, whatever its rook fields, because castles inherit this `equals` |
| `Moves.MoveEqualsIsValueEquality` | application/src/main/java/board/Move.java:76-86 | for non-castle moves `equals` is reflexive, false for null, and holds iff the moves are the same value |
| `Moves.CastleEqualityIgnoresRook` | application/src/main/java/board/Move.java:230-269 | castle moves differing only in their rook fields are `equals`, as the castle classes do not override it |
| `Moves.MovePiece` | application/src/main/java/pieces/Rook.java:69-72 | the moved piece keeps its kind and alliance, stands on the destination and has first-move false |
| `Moves.RookMovePiece` | application/src/main/java/pieces/Rook.java:70-72 | a rook's `movePiece` is `Rook(destination, alliance, false)` |
| `Moves.ExecuteStandard` | application/src/main/java/board/Move.java:152-166 | the builder-based `execute` of `MajorMove`/`PawnMove` yields the standard result board |
| `Moves.ExecutePawnJump` | application/src/main/java/board/Move.java:207-224 | `PawnJump.execute` yields the standard board with the moved pawn recorded, or fails when a non-pawn moved |
| `Moves.ExecuteCastle` | application/src/main/java/board/Move.java:252-268 | `CastleMove.execute` yields the castle result board |
| `Moves.Execute` | application/src/main/java/board/Move.java:99-360 | `execute()` of every move class, dispatched on the variant, agrees with its specification |
| `Moves.ExecuteFlipsSide` | application/src/main/java/board/Move.java:114 | every board an `execute` builds has the opponent of the old mover to move |
| `Moves.ExecuteStubsAndNullMove` | application/src/main/java/board/Move.java:174-364 | attack moves execute to null; the null move (at (-1,-1)) throws |
| `Moves.ExecuteEnPassantPawn` | application/src/main/java/board/Move.java:218-221 | only a pawn jump records an en-passant pawn, namely the moved pawn |
| `Moves.StandardResultPieces` | application/src/main/java/board/Move.java:99-116 | the new board holds exactly: the mover's other pieces and all opponent pieces (except at the destination) plus the moved piece |
| `Moves.ExecutePreservesWellFormed` | application/src/main/java/board/Move.java:99-116 | a built board again has every piece on its own square |
| `Moves.CastleResultPieces` | application/src/main/java/board/Move.java:255-266 | castling removes king and castle rook from their squares, places the moved king and a first-move rook of the same alliance on the rook destination |
| `Moves.CreateMove` | application/src/main/java/board/Move.java:370-378 | returns the first legal move in enumeration order with matching origin and destination, or `NULL_MOVE` iff none matches |
| `RookMoves.DirectionsAreRookSteps` | application/src/main/java/pieces/Rook.java:23 | the four direction pairs are unit steps along a rank or file |
| `RookMoves.CalculateLegalMoves` | application/src/main/java/pieces/Rook.java:39-67 | the loop's moves are the four rays in direction order, each walked outward |
| `RookMoves.WalkRay` | application/src/main/java/pieces/Rook.java:48-63 | the inner `while` loop appends exactly the ray from the first square out: quiet moves to empty squares, then at most one capture of an enemy piece |
| `RookMoves.RaySquares` | application/src/main/java/pieces/Rook.java:49-63 | the j-th move of a ray goes to the on-board square j+1 steps out, and all squares before it are empty |
| `RookMoves.RayCaptures` | application/src/main/java/pieces/Rook.java:51-61 | quiet moves go to empty squares; only a ray's last move can be an attack, capturing the enemy occupant; a ray without an attack stops at the edge or an own piece |
| `RookMoves.RayComplete` | application/src/main/java/pieces/Rook.java:48-63 | from an on-board rook, the on-board square n steps out past empty squares is emitted by its ray when empty (quiet) or enemy-held (capture) |
| `RookMoves.DirectionMovesContain` | application/src/main/java/pieces/Rook.java:43-45 | the direction loop keeps every move of each ray it has walked |
| `RookMoves.DirectionMovesOk` | application/src/main/java/pieces/Rook.java:43-63 | every move of the walked directions satisfies the rook-move properties |
| `RookMoves.RookLegalMovesOk` | application/src/main/java/pieces/Rook.java:39-67 | every generated move is on the board, on the rook's rank or file, not its own square, reached through empty squares, quiet iff the target is empty, never onto its own side |
| `RookMoves.RookLegalMovesComplete` | application/src/main/java/pieces/Rook.java:39-67 | conversely, for an on-board rook every on-board square on a clear rank or file ray that is empty or enemy-held is the destination of a generated move, a capture exactly when occupied |
| `MiniMax.IsEndGame` | application/src/main/java/player/basicAI/MiniMax.java:101-103 | the side to move is checkmated or stalemated; `MiniMax.LeafValue` shows both searches stop there |
| `MiniMax.Max` | application/src/main/java/player/basicAI/MiniMax.java:78-94 | `max` computes the maximising value of the search tree |
| `MiniMax.Min` | application/src/main/java/player/basicAI/MiniMax.java:60-76 | `min` computes the minimising value of the search tree |
| `MiniMax.Execute` | application/src/main/java/player/basicAI/MiniMax.java:23-58 | the root loop returns the move the root specification chooses |
| `MiniMax.LeafValue` | application/src/main/java/player/basicAI/MiniMax.java:61-63 | at depth 0 or on a checkmate/stalemate board, `min` and `max` return the evaluation |
| `MiniMax.HighestIsMaximum` | application/src/main/java/player/basicAI/MiniMax.java:82-93 | `max`'s loop value is at least every made child's `min` value, equals one of them, or is `MIN_VALUE` when no child is made |
| `MiniMax.LowestIsMinimum` | application/src/main/java/player/basicAI/MiniMax.java:64-75 | `min`'s loop value is at most every made child's `max` value, equals one of them, or is `MAX_VALUE` when no child is made |
| `MiniMax.MaxValueIsBestReply` | application/src/main/java/player/basicAI/MiniMax.java:78-94 | above depth 0 on a live board, `max` bounds every made child's `min` value from above and is attained, or is `MIN_VALUE` |
| `MiniMax.MinValueIsBestReply` | application/src/main/java/player/basicAI/MiniMax.java:60-76 | above depth 0 on a live board, `min` bounds every made child's `max` value from below and is attained, or is `MAX_VALUE` |
| `MiniMax.HighestIgnoresUnmadeMoves` | application/src/main/java/player/basicAI/MiniMax.java:87 | moves whose status is not DONE do not change `max`'s value |
| `MiniMax.LowestIgnoresUnmadeMoves` | application/src/main/java/player/basicAI/MiniMax.java:69 | moves whose status is not DONE do not change `min`'s value |
| `MiniMax.RootIgnoresUnmadeMoves` | application/src/main/java/player/basicAI/MiniMax.java:37 | moves whose status is not DONE do not change the root's choice |
| `MiniMax.ChosenAtUnique` | application/src/main/java/player/basicAI/MiniMax.java:44-50 | the tie-break rule (best, and strictly better than every later made move) picks at most one index |
| `MiniMax.RootScanChooses` | application/src/main/java/player/basicAI/MiniMax.java:35-52 | the root loop keeps no move iff none was made, else the best made move so far, the last among equals |
| `MiniMax.BestMoveIsChosen` | application/src/main/java/player/basicAI/MiniMax.java:23-58 | `execute` returns null iff no legal move is DONE; otherwise a legal DONE move, best for the side to move (White maximises `min`, Black minimises `max`), the last among equals |

## Left out

- `Board`, `Builder`, `Player`, `Tile`, `Coordinate`, `Alliance`, `BoardUtils`, `Pawn`, `King` and `RegularBoardEvaluator` are not part of this model.
  The board is a coordinate-to-piece map with side to move and en-passant pawn.
  `isValidCoordinate` is taken to be the 8 by 8 bounds test.
- `Moves.Execute` (and the three execute methods) require a well-formed board, one where every piece is keyed by its own square.
  Boards only come from a `Builder`, which keeps that invariant.
  Which side's pieces `getActivePieces` returns is modelled from the map.
  The model iterates them in an arbitrary order, which cannot matter since their squares are distinct.
- `Moves.MovePiece`: only `Rook.movePiece` is part of this model; every non-rook kind is given the same behaviour, a copy of the piece on the destination with first-move false. That follows the contract of the abstract `movePiece` (`pieces/Piece.java:40-46`): a piece constructs a copy of itself with the move's new coordinates.
- `Moves.CreateMove` requires that the legal-move list holds no null move, because Java would fail on its `getCurrentCoordinate`.
  `Board.getAllLegalMoves` is a parameter.
- Player legality (`makeMove`, check, checkmate, stalemate, castling candidates) is not modelled.
  In the search these are functions supplied by an abstract `Game`.
  The scenarios of `PlayerTest.java` (fool's mate, check avoidance, castling counts, attack detection) concern `Player`, which is not modelled.
- `MiniMax.Execute` requires a search depth of at least 1, because `min`/`max` only stop descending at depth 0.
  The constructor's evaluator becomes the game's `evaluate`.
  Timing and console output in `execute` are left out, and so is the UI's four-argument constructor, which the class does not have.
- `hashCode` arithmetic (only the hashed fields are modelled) and `Move.hashCode` are left out.
- `toString` beyond the piece letters is left out, including the castle notation `0-0` / `0-0-0`.
- The JavaFX UI, sound, images, threads and the score store are left out.

