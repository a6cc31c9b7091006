/**
 * The per-game record and its move state machine (internal/core/domain).
 * Durations and timestamps are integers counting nanoseconds, as Go's
 * time.Duration does; the wall clock is the parameter `now`.
 */
module Domain {
  import opened Results
  import opened ChessEngine

  /** A game identifier: a UUID, kept as its text form. */
  type GameId = string

  /** time.Second: one second in nanoseconds. */
  const Second: int := 1_000_000_000

  /** Initial budget and per-move increment, both in whole seconds. */
  datatype TimeControl = TimeControl(initialTime: int, increment: int)

  datatype PlayerStatus = Online | Offline

  /** A player of one game; `timeRemaining` is a duration in nanoseconds. */
  datatype Participant = Participant(userId: string, status: PlayerStatus, timeRemaining: int)

  /** One entry of the move history. */
  datatype Move = Move(fenBefore: string, notation: string, playerId: string, timestamp: int)

  /** How the text of a rejected move begins. */
  const InvalidMovePrefix: string := "invalid move: "

  /** The four errors MakeMove can return. */
  datatype MoveError = AlreadyFinished | NotYourTurn | OutOfTime | InvalidMove(notation: string)
  {
    /** The text of the Go error value: only a rejected move's text starts with
        the invalid-move prefix, and what follows it is the notation sent. */
    function Text(): (text: string)
      ensures |InvalidMovePrefix| <= |text|
      ensures text[..|InvalidMovePrefix|] == InvalidMovePrefix <==> this.InvalidMove?
      ensures this.InvalidMove? ==> text[|InvalidMovePrefix|..] == notation
    {
      match this
      case AlreadyFinished =>
        var text := "game is already finished";
        assert text[..|InvalidMovePrefix|][0] != InvalidMovePrefix[0];
        text
      case NotYourTurn =>
        var text := "it is not your turn";
        assert text[..|InvalidMovePrefix|][1] != InvalidMovePrefix[1];
        text
      case OutOfTime =>
        var text := "game over: player ran out of time";
        assert text[..|InvalidMovePrefix|][0] != InvalidMovePrefix[0];
        text
      case InvalidMove(n) => InvalidMovePrefix + n
    }
  }

  /** The error text alone tells which error was returned, and for a rejected move
      which notation. */
  lemma ErrorTextIdentifiesError(e1: MoveError, e2: MoveError)
    requires e1.Text() == e2.Text()
    ensures e1 == e2
  {
  }

  /** The JSON-visible fields of a game: everything but the engine. */
  datatype GameView = GameView(
    id: GameId,
    white: Participant,
    black: Participant,
    settings: TimeControl,
    history: seq<Move>,
    createdAt: int,
    updatedAt: int)

  /** The fields of a game that MakeMove may change. */
  datatype Snapshot<P> = Snapshot(
    white: Participant,
    black: Participant,
    history: seq<Move>,
    updatedAt: int,
    position: P)
  {
    /** The participant playing colour `c`. */
    function Side(c: Color): Participant {
      if c == White then white else black
    }
  }

  /** The state after one MakeMove call, with the error it returned, if any. */
  datatype Stepped<P> = Stepped(next: Snapshot<P>, err: Option<MoveError>)

  /** The engine reports an outcome for the current position. */
  predicate Finished<P>(rules: Engine<P>, s: Snapshot<P>) {
    rules.outcome(s.position) != NoOutcome
  }

  /** The call gets past the finished-game guard and the turn check. */
  predicate Charged<P>(rules: Engine<P>, s: Snapshot<P>, playerId: string) {
    !Finished(rules, s) && playerId == s.Side(rules.turn(s.position)).userId
  }

  /**
   * One call of MakeMove as a function of the fields it may change. The clock
   * is charged before the timeout check and the engine move, so a call that
   * fails at either of those still leaves the adjusted clock behind.
   */
  function Step<P>(rules: Engine<P>, settings: TimeControl, s: Snapshot<P>,
                   playerId: string, notation: string, now: int): (r: Stepped<P>)
    // a finished game refuses the move and changes nothing
    ensures Finished(rules, s) ==> r == Stepped(s, Some(AlreadyFinished))
    // a player other than the one to move is refused before any change
    ensures !Finished(rules, s) && playerId != s.Side(rules.turn(s.position)).userId ==>
              r == Stepped(s, Some(NotYourTurn))
    // only the mover's clock moves: minus the time since the last update, plus the increment
    ensures Charged(rules, s, playerId) ==>
              var c := rules.turn(s.position);
              && r.next.Side(c) == s.Side(c).(timeRemaining := s.Side(c).timeRemaining
                                                - (now - s.updatedAt) + settings.increment * Second)
              && r.next.Side(Other(c)) == s.Side(Other(c))
    // after the charge, either clock at or below zero refuses the move
    ensures r.err == Some(OutOfTime) <==>
              Charged(rules, s, playerId) &&
              (r.next.white.timeRemaining <= 0 || r.next.black.timeRemaining <= 0)
    ensures r.err == Some(InvalidMove(notation)) <==>
              && Charged(rules, s, playerId)
              && r.next.white.timeRemaining > 0 && r.next.black.timeRemaining > 0
              && rules.moveStr(s.position, notation).None?
    ensures r.err.None? <==>
              && Charged(rules, s, playerId)
              && r.next.white.timeRemaining > 0 && r.next.black.timeRemaining > 0
              && rules.moveStr(s.position, notation).Some?
    // a refused move leaves position, history and the last-update time alone
    ensures r.err.Some? ==>
              r.next.history == s.history && r.next.position == s.position &&
              r.next.updatedAt == s.updatedAt
    // an accepted move takes the engine's new position and appends exactly one entry,
    // whose fenBefore is the position after the move
    ensures r.err.None? ==>
              && rules.moveStr(s.position, notation) == Some(r.next.position)
              && r.next.updatedAt == now
              && r.next.history == s.history + [Move(rules.fen(r.next.position), notation, playerId, now)]
  {
    if Finished(rules, s) then Stepped(s, Some(AlreadyFinished))
    else
      var thinkTime := now - s.updatedAt;
      var bonus := settings.increment * Second;
      if rules.turn(s.position) == White && playerId != s.white.userId then
        Stepped(s, Some(NotYourTurn))
      else if rules.turn(s.position) == Black && playerId != s.black.userId then
        Stepped(s, Some(NotYourTurn))
      else
        var charged :=
          if rules.turn(s.position) == White
          then s.(white := s.white.(timeRemaining := s.white.timeRemaining - thinkTime + bonus))
          else s.(black := s.black.(timeRemaining := s.black.timeRemaining - thinkTime + bonus));
        if charged.white.timeRemaining <= 0 || charged.black.timeRemaining <= 0 then
          Stepped(charged, Some(OutOfTime))
        else
          match rules.moveStr(charged.position, notation)
          case None => Stepped(charged, Some(InvalidMove(notation)))
          case Some(p) =>
            Stepped(charged.(position := p,
                             history := charged.history + [Move(rules.fen(p), notation, playerId, now)],
                             updatedAt := now),
                    None)
  }

  /** One MakeMove call: who calls, with which notation, at which time. */
  datatype Attempt = Attempt(playerId: string, notation: string, now: int)

  /** The fields after a series of MakeMove calls on one game, refused ones included. */
  function Replay<P>(rules: Engine<P>, settings: TimeControl, s: Snapshot<P>,
                     attempts: seq<Attempt>): (last: Snapshot<P>)
    decreases |attempts|
  {
    if attempts == [] then s
    else
      var a := attempts[0];
      Replay(rules, settings, Step(rules, settings, s, a.playerId, a.notation, a.now).next, attempts[1..])
  }

  /** Whatever calls are made, the history only grows, by at most one entry per call. */
  lemma {:induction false} HistoryIsAppendOnly<P>(rules: Engine<P>, settings: TimeControl,
                                                  s: Snapshot<P>, attempts: seq<Attempt>)
    ensures var h := Replay(rules, settings, s, attempts).history;
            && |s.history| <= |h| <= |s.history| + |attempts|
            && h[..|s.history|] == s.history
    decreases |attempts|
  {
    if attempts != [] {
      var a := attempts[0];
      var t := Step(rules, settings, s, a.playerId, a.notation, a.now).next;
      HistoryIsAppendOnly(rules, settings, t, attempts[1..]);
      var h := Replay(rules, settings, t, attempts[1..]).history;
      assert t.history[..|s.history|] == s.history;
      assert h[..|s.history|] == h[..|t.history|][..|s.history|];
    }
  }

  /** Once the engine reports an outcome, no series of calls changes any field. */
  lemma {:induction false} FinishedGameIsFrozen<P>(rules: Engine<P>, settings: TimeControl,
                                                   s: Snapshot<P>, attempts: seq<Attempt>)
    requires Finished(rules, s)
    ensures Replay(rules, settings, s, attempts) == s
    decreases |attempts|
  {
    if attempts != [] {
      FinishedGameIsFrozen(rules, settings, s, attempts[1..]);
    }
  }

  /**
   * A timeout is not terminal: a mover whose clock was left at or below zero by
   * an earlier refused call is accepted again once the increment outweighs both
   * the deficit that call left on the clock and the time spent since the last
   * accepted move.
   */
  lemma FlaggedMoverCanMoveAgain<P>(rules: Engine<P>, settings: TimeControl, s: Snapshot<P>,
                                    notation: string, now: int)
    requires !Finished(rules, s)
    requires s.Side(rules.turn(s.position)).timeRemaining <= 0
    requires s.Side(rules.turn(s.position)).timeRemaining - (now - s.updatedAt)
               + settings.increment * Second > 0
    requires s.Side(Other(rules.turn(s.position))).timeRemaining > 0
    requires rules.moveStr(s.position, notation).Some?
    ensures Step(rules, settings, s, s.Side(rules.turn(s.position)).userId, notation, now).err.None?
  {
  }

  /** The game record (`*Game`); `position` is the engine the record owns. */
  class Game<P> {
    const id: GameId
    var white: Participant
    var black: Participant
    const settings: TimeControl
    var history: seq<Move>
    const createdAt: int
    var updatedAt: int
    var position: P

    /** The fields MakeMove may change. */
    function Snap(): (snap: Snapshot<P>)
      reads this
    {
      Snapshot(white, black, history, updatedAt, position)
    }

    /** Both players online with the full initial budget, no moves, the start position. */
    constructor NewGame(id: GameId, whiteId: string, blackId: string, tc: TimeControl,
                        now: int, rules: Engine<P>)
      ensures this.id == id && settings == tc
      ensures white == Participant(whiteId, Online, tc.initialTime * Second)
      ensures black == Participant(blackId, Online, tc.initialTime * Second)
      ensures white.timeRemaining == black.timeRemaining
      ensures history == [] && createdAt == now && updatedAt == now
      ensures position == rules.start
    {
      this.id := id;
      white := Participant(whiteId, Online, tc.initialTime * Second);
      black := Participant(blackId, Online, tc.initialTime * Second);
      settings := tc;
      history := [];
      createdAt := now;
      updatedAt := now;
      position := rules.start;
    }

    /** The FEN of the current position: what a successful MakeMove records. */
    function GetFEN(rules: Engine<P>): (fen: string)
      reads this
      ensures fen == rules.fen(Snap().position)
    {
      rules.fen(position)
    }

    /** The engine reports an outcome: the same guard Step applies to the fields. */
    function IsGameOver(rules: Engine<P>): (over: bool)
      reads this
      ensures over <==> Finished(rules, Snap())
    {
      rules.outcome(position) != NoOutcome
    }

    /** The engine's result string: the undecided marker exactly while the game is not over. */
    function GetResult(rules: Engine<P>): (result: string)
      reads this
      ensures result == NoOutcome <==> !IsGameOver(rules)
    {
      rules.outcome(position)
    }

    /** Validates and applies a move, step by step as the service does. */
    method MakeMove(rules: Engine<P>, playerId: string, moveNotation: string, now: int)
      returns (err: Option<MoveError>)
      modifies this
      ensures Stepped(Snap(), err) == Step(rules, settings, old(Snap()), playerId, moveNotation, now)
      ensures err.None? ==> history[|history| - 1].fenBefore == GetFEN(rules)
    {
      if IsGameOver(rules) {
        return Some(AlreadyFinished);
      }
      var thinkTime := now - updatedAt;
      var currentTurn := rules.turn(position);
      if currentTurn == White {
        if playerId != white.userId {
          return Some(NotYourTurn);
        }
        white := white.(timeRemaining := white.timeRemaining - thinkTime);
        white := white.(timeRemaining := white.timeRemaining + settings.increment * Second);
      } else {
        if playerId != black.userId {
          return Some(NotYourTurn);
        }
        black := black.(timeRemaining := black.timeRemaining - thinkTime);
        black := black.(timeRemaining := black.timeRemaining + settings.increment * Second);
      }
      if white.timeRemaining <= 0 || black.timeRemaining <= 0 {
        return Some(OutOfTime);
      }
      var moved := rules.moveStr(position, moveNotation);
      if moved.None? {
        return Some(InvalidMove(moveNotation));
      }
      position := moved.value;
      history := history + [Move(GetFEN(rules), moveNotation, playerId, now)];
      updatedAt := now;
      return None;
    }

    /** Replaces the engine by one at the given position, only if the string parses. */
    method RehydrateEngine(rules: Engine<P>, fen: string) returns (err: Option<string>)
      modifies this`position
      ensures rules.parseFen(fen).Err? ==>
                err == Some(rules.parseFen(fen).error) && position == old(position)
      ensures rules.parseFen(fen).Ok? ==> err == None && position == rules.parseFen(fen).value
    {
      var parsed := rules.parseFen(fen);
      if parsed.Err? {
        return Some(parsed.error);
      }
      position := parsed.value;
      return None;
    }
  }
}
