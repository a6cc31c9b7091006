# Gameplay service core, modelled in Dafny

This project models three sequential parts of a Go chess gameplay service and proves properties of them.

- **The per-game move state machine** (`internal/core/domain/game.go`). A `Game` holds two participants with clocks, a time control, an append-only move history, timestamps, and the chess engine's position. `MakeMove` runs these steps in order: a finished-game guard, a turn check, a clock charge on the mover, a timeout check on both clocks, the engine move, then the history append. `RehydrateEngine` replaces the position from a FEN string, and only when the string parses. `GetFEN`, `IsGameOver` and `GetResult` are read-only queries to the engine.
- **The room registry and event fan-out** (`internal/adapters/handler/http/ws_handler.go`). A table maps each game to the clients connected to it. Each client's `Send` channel is modelled as a sequence of queued messages, its *outbox*. The model covers registration, unregistration with its `PLAYER_DISCONNECTED` notice, broadcasts, error replies, the handling of one inbound frame, and the sync message a new connection gets.
- **The in-memory active store** (`internal/adapters/repository/memory/game_repository.go`). This is a map from game identifier to the game object. `FindByID` returns the stored object itself, so a caller's later changes go to the stored game.

Modules: `Results` (Option and Result), `ChessEngine` (the rules library as a capability), `Domain` (types.go and game.go), `MemoryRepository`, `WsHub`.

How the model is set up:

- **The chess library.** It is the record `ChessEngine.Engine<P>` of total functions: start position, side to move, `MoveStr`, outcome string, FEN, FEN parsing. `P` is the engine's position type. Every theorem holds for every engine, so no chess rule is assumed.
- **Time.** Durations and timestamps are integers counting nanoseconds, like Go's `time.Duration`. `Second` is 10^9. The clock reading `now` is a parameter.
- **MakeMove.** `Domain.Game.MakeMove` changes the object's fields step by step. Its contract ties the new fields and the returned error to the function `Domain.Step` of the old fields. The contract of `Step` states what the source does.

The model follows the code where it departs from the service's design notes:

- The first move is not exempt from the clock. Its think time is `now` minus the creation time.
- Clocks are never clamped at zero.
- The game record has no finished, winner or reason fields.
- A timeout only returns an error. The mover's adjusted clock stays in the object, and the game is not ended. A later call can succeed again once the increment covers both the deficit already on the clock and the time spent since the last accepted move (`FlaggedMoverCanMoveAgain`).
- The history entry's `fenBefore` is read after the engine has applied the move, so it holds the position *after* the move.

## Model

| member | source | states |
|---|---|---|
| `Domain.Game.NewGame` | internal/core/domain/game.go:26-37 | Both participants are online with the same budget, `InitialTime` seconds in nanoseconds. The history is empty, both timestamps are the creation time, and the position is the engine's start position. |
| `Domain.Step` | internal/core/domain/game.go:40-89 | If the engine reports an outcome, the call fails with AlreadyFinished and changes nothing. A player who is not on move fails with NotYourTurn before any change. Otherwise only the mover's clock changes, by `increment*Second - (now - updatedAt)`. The call then fails with OutOfTime exactly when either clock is at or below zero, and with InvalidMove(notation) exactly when the clocks are positive and the engine rejects the move. Every failure keeps history, position and `updatedAt`. A success takes the engine's position and appends exactly one entry (`fen` of the new position, the notation, the player, `now`), and sets `updatedAt` to `now`. |
| `Domain.Game.MakeMove` | internal/core/domain/game.go:40-89 | The imperative method. Its new fields and returned error are exactly what `Step` gives for the old fields. After a success, the new history entry's `fenBefore` is what `GetFEN` reports for the game at that point, the position after the move. |
| `Domain.HistoryIsAppendOnly` | internal/core/domain/game.go:79-85 | After any series of MakeMove calls, refused ones included, the old history is a prefix of the new one. The history grows by at most one entry per call. |
| `Domain.FinishedGameIsFrozen` | internal/core/domain/game.go:41-43 | Once the engine reports an outcome, no series of calls changes any field. |
| `Domain.FlaggedMoverCanMoveAgain` | internal/core/domain/game.go:57-71 | A mover whose clock an earlier refused call left at or below zero is accepted again, provided the increment exceeds that deficit plus the time since the last accepted move, the opponent's clock is positive and the engine accepts the move. |
| `Domain.MoveError.Text` | internal/core/domain/game.go:41-77 | The four Go error texts. Only a rejected move's text starts with `invalid move: `, and the rest of that text is the notation sent. |
| `Domain.ErrorTextIdentifiesError` | internal/core/domain/game.go:41-77 | Two errors with the same text are the same error, so a client can tell from the text which check refused its move and which notation was rejected. |
| `Domain.Game.GetFEN` | internal/core/domain/game.go:92-94 | The engine's FEN of the game's current position, the position `Step` works on. |
| `Domain.Game.IsGameOver` | internal/core/domain/game.go:96-99 | True exactly when the finished-game guard of `Step` holds for the game's fields. So a game for which it holds refuses every move with AlreadyFinished (`Step`) and never changes again (`FinishedGameIsFrozen`). |
| `Domain.Game.GetResult` | internal/core/domain/game.go:96-104 | The result string is the engine's undecided marker exactly when `IsGameOver` is false. |
| `Domain.Game.RehydrateEngine` | internal/core/domain/game.go:106-115 | An unparsable FEN returns the parser's error and keeps the position. A parsable one replaces the position with the parsed one and returns no error. |
| `MemoryRepository.InMemoryGameRepository.constructor` | internal/adapters/repository/memory/game_repository.go:16-20 | The store starts empty. |
| `MemoryRepository.InMemoryGameRepository.Save` | internal/adapters/repository/memory/game_repository.go:21-26 | The game is stored under its own id, overwriting any earlier entry. Every other id keeps its entry, and the call returns no error. |
| `MemoryRepository.InMemoryGameRepository.FindByID` | internal/adapters/repository/memory/game_repository.go:27-35 | A stored id returns the stored object itself. An id never stored returns the error "game not found" and no game. The method only reads the map. |
| `MemoryRepository.InMemoryGameRepository.Update` | internal/adapters/repository/memory/game_repository.go:37-43 | Same effect as Save, also for an id that is absent: that id is inserted. Every other id keeps its entry, and the call returns no error. |
| `MemoryRepository.SaveThenFind` | internal/adapters/repository/memory/game_repository.go:21-35 | After Save(g), FindByID(g.id) returns g. |
| `WsHub.Client.constructor` | internal/adapters/handler/http/ws_handler.go:63-68 | A client has its game id, its player id and an empty outbox. |
| `WsHub.WsHandler.constructor` | internal/adapters/handler/http/ws_handler.go:41-46 | The handler starts with no rooms. |
| `WsHub.WsHandler.RegisterClient` | internal/adapters/handler/http/ws_handler.go:190-194 | The client is appended to the end of its game's room, which is created if absent. There is no duplicate check, and every other room is unchanged. |
| `WsHub.RemoveFirst` | internal/adapters/handler/http/ws_handler.go:199-203 | The room without the first occurrence of the client. It is one entry shorter exactly when the client was in the room. |
| `WsHub.IndexOfClient` | internal/adapters/handler/http/ws_handler.go:199-201 | The search loop returns the index of the first occurrence of the client, or none exactly when the client is absent. |
| `WsHub.RemoveFirstAt` | internal/adapters/handler/http/ws_handler.go:199-203 | Removing the first occurrence at index i is the splice `room[..i] + room[i+1..]`, so the others keep their order. |
| `WsHub.RemoveAbsent` | internal/adapters/handler/http/ws_handler.go:199-211 | Removing a client that is not in the room leaves the room unchanged. |
| `WsHub.RemoveFirstWithin` | internal/adapters/handler/http/ws_handler.go:203 | Removal adds no client to the room. |
| `WsHub.RemoveFirstMultiset` | internal/adapters/handler/http/ws_handler.go:203 | Removal takes away exactly one entry of the leaver and no entry of anyone else. |
| `WsHub.RemoveFirstDistinct` | internal/adapters/handler/http/ws_handler.go:203 | Removal never creates a repeat: a room without repeated clients still has none after a removal. |
| `WsHub.DistinctCountsOnce` | internal/adapters/handler/http/ws_handler.go:222-224 | In a room without repeated clients, each member has exactly one entry, so a broadcast reaches it exactly once. |
| `WsHub.DistinctRemoveCounts` | internal/adapters/handler/http/ws_handler.go:203-208 | In a room without repeats, after the leaver's removal the leaver has no entry and every other member has exactly one. So the PLAYER_DISCONNECTED broadcast reaches each remaining member once and the leaver not at all. |
| `WsHub.WsHandler.BroadcastToRoom` | internal/adapters/handler/http/ws_handler.go:213-225 | One identical `{type, payload}` message is enqueued once per room entry, in room order. Each client gets as many copies as it has entries, so clients outside the room get none, including every client of another game. The rooms map is unchanged. |
| `WsHub.WsHandler.SendError` | internal/adapters/handler/http/ws_handler.go:226-232 | Exactly one ERROR message goes to this client only. Its payload is the text between double quotes, not escaped. |
| `WsHub.WsHandler.DropFromRoom` | internal/adapters/handler/http/ws_handler.go:199-203 | The room update of unregisterClient. The client's first occurrence, at index i, is spliced out of its own room. Every other room is unchanged, and a room without repeats keeps none. |
| `WsHub.WsHandler.UnregisterClient` | internal/adapters/handler/http/ws_handler.go:196-212 | If the client is absent, the rooms and every outbox are unchanged. Otherwise its first occurrence is removed. Every entry of the remaining room then gets one PLAYER_DISCONNECTED message carrying the leaver's player id, and a leaver registered once gets none. A room without repeated clients still has none afterwards, so the exactly-once counts of `DistinctCountsOnce` and `DistinctRemoveCounts` go on holding after every departure. |
| `WsHub.WsHandler.HandleInbound` | internal/adapters/handler/http/ws_handler.go:120-145 | An undecodable frame, or a type other than MOVE, changes no outbox. A refused MOVE enqueues one ERROR to the sender only. An accepted MOVE enqueues GAME_UPDATE with the returned game to every room entry, then GAME_OVER to every entry exactly when the game is over. So in each outbox the update comes before the game-over notice. |
| `WsHub.WsHandler.Connect` | internal/adapters/handler/http/ws_handler.go:49-92 | A connection is refused, with no registration, when the game id does not parse, the player id is empty or the upgrade fails. Otherwise a fresh client is appended to its room first. Then only its own outbox receives the current game as GAME_UPDATE. If the lookup fails, it stays registered with no message. A room without repeated clients still has none after the join. |

## Left out

- The chess rules (`MoveStr`, `Position().Turn()`, `Outcome()`, `FEN()`, `chess.FEN`) are an external library. They are the parameter `Engine`, and no chess is modelled.
- `time.Now()` is the parameter `now`. `NewGame` reads the clock twice, for `CreatedAt` and `UpdatedAt`. The model uses one reading for both, although the two may differ by nanoseconds.
- `uuid.New()` is the `id` parameter of `NewGame`. `uuid.Parse` in `HandleWS` is the `Option` parameter `gameId`.
- `Participant.SyncTime` and `TimeFormatted` are floating-point seconds and are not modelled.
- Domain.Step: int64 overflow of `time.Duration` arithmetic is not modelled, because integers here are unbounded. Neither is the saturation of `time.Time.Sub`. Both need durations near 292 years.
- JSON marshalling is a library call. Envelopes and payloads are datatypes, not bytes. In Go, an error text that holds an unescaped double quote, a backslash that starts no valid JSON escape, or a control character makes the raw ERROR payload invalid JSON. `json.Marshal` of the envelope then fails, and an empty frame is sent. The model records the unescaped text and does not model JSON validity.
- A MOVE payload that does not decode leaves the move as `""`, because the decoding error is ignored. The model shows this as the `move` field of `Inbound`.
- The GAME_OVER payload reads `WinnerID` and `ResultReason`, which the game type does not have. The payload is the opaque `GameResult`.
- The game service that `readPump` and `HandleWS` call is external. The Go service in this repository is a stub. Its port's `MakeMove` (internal/core/ports/game_ports.go:19) takes a `domain.Move`, while ws_handler.go:131 passes a game id, a player id and a notation string. `GetGame` matches its call. Its answers are the parameters `reply` and `lookup`. No load, move and save sequence is modelled.
- Socket plumbing is network I/O and is not modelled: the upgrader, the `ReadMessage` loop, read and write deadlines, the pong handler, and `writePump` with its ping ticker.
- Mutexes and goroutines are not modelled; the registry is sequential. A sequential model cannot show four things. First, `unregisterClient` holds the write lock and calls `broadcastToRoom`, which asks for the read lock of the same non-reentrant `RWMutex`, so the Go code deadlocks on every successful removal. Second, a send on the 256-slot `Send` channel blocks when the channel is full. Third, `append(clients[:i], clients[i+1:]...)` shifts the shared backing array, which a concurrent broadcast may be iterating over. Fourth, `HandleWS` registers the client and starts its read loop before it sends the sync GAME_UPDATE, so a broadcast from another player's move can reach the new client before that sync message. `Connect` states the order of one uninterrupted call.
- The Redis and Mongo adapters, `cmd/server/main.go`, `game_handler.go`, `game_service.go`, `ports/game_ports.go` and `domain/events.go` are not part of this model. They are wrappers, bootstrap, HTTP routing, a stub and declarations.
