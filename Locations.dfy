/** Board coordinates and the small records built from them
    (Location.cs, LocationOnBoard.cs, GameOperation.cs). */
module Locations {
  import opened Results
  import opened Pieces

  const Width: int := 9
  const Height: int := 10

  /** A square, 0-based; x is the file (0..8), y the rank (0..9). */
  datatype Location = Location(x: int, y: int)

  /** The absence marker (-1, -1). */
  const Invalid: Location := Location(-1, -1)

  /** A location lies on the 9 x 10 board. */
  predicate IsLocationAvailable(loc: Location) {
    0 <= loc.x < Width && 0 <= loc.y < Height
  }

  /** A piece together with the square it stands on. */
  datatype PawnOnBoard = PawnOnBoard(pawn: Pawn, location: Location)

  /** A square together with its (optional) occupant. */
  datatype BoardLocation = BoardLocation(location: Location, pawn: Option<Pawn>)

  /** A move record: the squares moved between and whatever occupied the
      destination before the move (needed to undo a capture). */
  datatype GameOperation = GameOperation(from: Location, to: Location, targetPawn: Option<Pawn>)

  /** The "no move" operation: both squares invalid, no target. */
  const NoneOperation: GameOperation := GameOperation(Invalid, Invalid, None)
}
