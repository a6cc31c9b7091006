/**
 * The chess rules library the game delegates to, taken as a capability.
 * Nothing about chess is modelled: every theorem of the project holds for
 * every `Engine` value, so the fields behave as uninterpreted functions.
 * `P` is the library's notion of a position (its `*chess.Game` state).
 */
module ChessEngine {
  import opened Results

  datatype Color = White | Black

  function Other(c: Color): (other: Color) {
    if c == White then Black else White
  }

  /** The outcome string the library reports while a game is undecided. */
  const NoOutcome: string := "*"

  datatype Engine<!P> = Engine(
    start: P,                             // chess.NewGame(): the initial position
    turn: P -> Color,                     // Position().Turn(): the side to move
    moveStr: (P, string) -> Option<P>,    // MoveStr: None when the notation is rejected
    outcome: P -> string,                 // Outcome().String()
    fen: P -> string,                     // FEN()
    parseFen: string -> Result<P, string> // chess.FEN followed by chess.NewGame
  )
}
