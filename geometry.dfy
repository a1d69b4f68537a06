/**
 * Board geometry and sides. The Java classes `Coordinate`, `Alliance` and
 * `BoardUtils` are not part of this model; this module gives them the
 * minimal shape that the modelled code relies on: a coordinate is an
 * (x, y) pair compared by value, a board is 8 by 8, and each alliance has
 * an opponent.
 */
module Geometry {

  const BoardWidth: int := 8
  const BoardHeight: int := 8

  datatype Coordinate = Coordinate(x: int, y: int)

  /** `BoardUtils.isValidCoordinate`: the coordinate lies on the board. */
  predicate IsValidCoordinate(c: Coordinate)
  {
    0 <= c.x < BoardWidth && 0 <= c.y < BoardHeight
  }

  datatype Alliance = White | Black

  /** The alliance of `currentPlayer().getOpponent()`. */
  function Opponent(a: Alliance): (o: Alliance)
    ensures o != a
  {
    match a
    case White => Black
    case Black => White
  }
}
