/**
 * The live-connection layer (internal/adapters/handler/http/ws_handler.go),
 * without sockets and JSON: a table from game identifier to the clients
 * watching that game, and one outbox per client standing for its Send channel.
 */
module WsHub {
  import opened Results
  import opened Domain

  const GameUpdate: string := "GAME_UPDATE"
  const GameOver: string := "GAME_OVER"
  const PlayerDisconnected: string := "PLAYER_DISCONNECTED"
  const ErrorEvent: string := "ERROR"
  const MoveEvent: string := "MOVE"

  /** What an envelope carries, before it is serialised. */
  datatype Payload =
    | GameState(game: GameView)        // GAME_UPDATE: the whole game
    | PlayerLeft(playerId: string)     // PLAYER_DISCONNECTED: {"player_id": ...}
    | RawText(raw: string)             // ERROR: bytes spliced in as they are
    | GameResult                       // GAME_OVER: fields the game type does not have

  /** The `{type, payload}` envelope of every socket message. */
  datatype Message = Message(kind: string, payload: Payload)

  /** One frame read from a socket: either it does not decode, or it is an envelope
      whose payload's "move" field is `move` ("" when that payload does not decode). */
  datatype Inbound = Undecodable | Envelope(kind: string, move: string)

  /** What the game service answers to a MOVE: the updated game and whether the
      engine reports it over, or the error text. */
  datatype ServiceReply = Moved(game: GameView, over: bool) | Rejected(message: string)

  /** `n` copies of `m`. */
  function Copies(m: Message, n: nat): (copies: seq<Message>)
  {
    seq(n, _ => m)
  }

  /** The room without the first occurrence of `c`: one entry shorter exactly
      when `c` is there. */
  function RemoveFirst(room: seq<Client>, c: Client): (rest: seq<Client>)
    ensures |rest| == if c in room then |room| - 1 else |room|
  {
    if room == [] then []
    else if room[0] == c then room[1..]
    else [room[0]] + RemoveFirst(room[1..], c)
  }

  /** Removing the first occurrence, at index `i`, splices it out and keeps the order. */
  lemma {:induction false} RemoveFirstAt(room: seq<Client>, c: Client, i: nat)
    requires i < |room| && room[i] == c && c !in room[..i]
    ensures RemoveFirst(room, c) == room[..i] + room[i + 1..]
  {
    if i > 0 {
      assert room[1..][..i - 1] == room[1..i];
      assert c !in room[1..][..i - 1];
      RemoveFirstAt(room[1..], c, i - 1);
      assert room[1..][i..] == room[i + 1..];
    }
  }

  /** Removal adds no one to the room. */
  lemma {:induction false} RemoveFirstWithin(room: seq<Client>, c: Client)
    ensures forall x: Client | x in RemoveFirst(room, c) :: x in room
  {
    if room != [] && room[0] != c {
      RemoveFirstWithin(room[1..], c);
    }
  }

  /** A client that is not in the room leaves it as it is. */
  lemma {:induction false} RemoveAbsent(room: seq<Client>, c: Client)
    requires c !in room
    ensures RemoveFirst(room, c) == room
  {
    if room != [] {
      RemoveAbsent(room[1..], c);
    }
  }

  /** Removal takes away exactly one membership of `c` and none of anyone else. */
  lemma {:induction false} RemoveFirstMultiset(room: seq<Client>, c: Client)
    requires c in room
    ensures multiset(RemoveFirst(room, c)) == multiset(room) - multiset{c}
  {
    if room[0] != c {
      RemoveFirstMultiset(room[1..], c);
      assert room == [room[0]] + room[1..];
    } else {
      assert room == [c] + room[1..];
    }
  }

  /** No client appears twice. */
  predicate Distinct(room: seq<Client>) {
    forall i, j | 0 <= i < j < |room| :: room[i] != room[j]
  }

  /** The tail of a room without repeats has none either, nor its head. */
  lemma DistinctTail(room: seq<Client>)
    requires Distinct(room) && room != []
    ensures Distinct(room[1..]) && room[0] !in room[1..]
  {
    forall i, j | 0 <= i < j < |room| - 1 ensures room[1..][i] != room[1..][j] {
      assert room[i + 1] != room[j + 1];
    }
    forall j | 1 <= j < |room| ensures room[j] != room[0] {
      assert room[0] != room[j];
    }
  }

  /** Removal never introduces a repeat: a room without repeats stays so. */
  lemma {:induction false} RemoveFirstDistinct(room: seq<Client>, c: Client)
    requires Distinct(room)
    ensures Distinct(RemoveFirst(room, c))
  {
    if room != [] {
      DistinctTail(room);
      if room[0] != c {
        RemoveFirstDistinct(room[1..], c);
        RemoveFirstWithin(room[1..], c);
        var tail := RemoveFirst(room[1..], c);
        var rest := [room[0]] + tail;
        forall i, j | 0 <= i < j < |rest| ensures rest[i] != rest[j] {
          assert rest[j] == tail[j - 1] && tail[j - 1] in tail;
          if i > 0 {
            assert rest[i] == tail[i - 1];
          }
        }
      }
    }
  }

  /** In a room without repeats, every member is counted exactly once. */
  lemma {:induction false} DistinctCountsOnce(room: seq<Client>, c: Client)
    requires Distinct(room) && c in room
    ensures multiset(room)[c] == 1
  {
    assert room == [room[0]] + room[1..];
    DistinctTail(room);
    if room[0] != c {
      DistinctCountsOnce(room[1..], c);
    }
  }

  /** After removing `c` from a room without repeats, `c` is counted no more and
      every other member still exactly once. */
  lemma DistinctRemoveCounts(room: seq<Client>, c: Client)
    requires Distinct(room) && c in room
    ensures multiset(RemoveFirst(room, c))[c] == 0
    ensures forall x: Client | x in room && x != c :: multiset(RemoveFirst(room, c))[x] == 1
  {
    DistinctCountsOnce(room, c);
    RemoveFirstMultiset(room, c);
    forall x: Client | x in room && x != c
      ensures multiset(RemoveFirst(room, c))[x] == 1
    {
      DistinctCountsOnce(room, x);
    }
  }

  /** The index of the first occurrence of `c` in `clients`, if any: the search loop
      of unregisterClient. */
  method IndexOfClient(clients: seq<Client>, c: Client) returns (found: Option<nat>)
    ensures found.Some? ==> found.value < |clients| && clients[found.value] == c &&
                            c !in clients[..found.value]
    ensures found.None? <==> c !in clients
  {
    for i := 0 to |clients|
      invariant c !in clients[..i]
    {
      if clients[i] == c {
        return Some(i);
      }
    }
    assert clients[..|clients|] == clients;
    return None;
  }

  /** A live connection: the game it watches, the player it speaks for, and the
      messages queued on its Send channel. */
  class Client {
    const gameId: GameId
    const playerId: string
    var outbox: seq<Message>

    constructor (gameId: GameId, playerId: string)
      ensures this.gameId == gameId && this.playerId == playerId && outbox == []
    {
      this.gameId := gameId;
      this.playerId := playerId;
      outbox := [];
    }
  }

  class WsHandler {
    var rooms: map<GameId, seq<Client>>

    /** Every client sits in the room of its own game. */
    ghost predicate Valid()
      reads this
    {
      forall g, c | g in rooms && c in rooms[g] :: c.gameId == g
    }

    /** rooms[g], which Go reads as an empty slice when the key is absent. */
    function Room(g: GameId): (room: seq<Client>)
      reads this
    {
      if g in rooms then rooms[g] else []
    }

    /** NewWsHandler: no rooms. */
    constructor ()
      ensures Valid() && rooms == map[]
    {
      rooms := map[];
    }

    /** Appends the client to its game's room, with no duplicate check. */
    method RegisterClient(c: Client)
      requires Valid()
      modifies this
      ensures Valid()
      ensures rooms == old(rooms)[c.gameId := old(Room(c.gameId)) + [c]]
    {
      rooms := rooms[c.gameId := Room(c.gameId) + [c]];
    }

    /** Enqueues one identical message per room entry, in room order: each client
        receives as many copies as it has entries in the room, so a client outside
        the room, and in particular a client of another game, receives none. */
    method BroadcastToRoom(gameId: GameId, kind: string, payload: Payload)
      requires Valid()
      modifies Room(gameId)
      ensures rooms == old(rooms)
      ensures forall x: Client | old(allocated(x)) ::
                x.outbox == old(x.outbox) + Copies(Message(kind, payload), multiset(Room(gameId))[x])
      ensures forall x: Client | old(allocated(x)) && x.gameId != gameId :: x.outbox == old(x.outbox)
    {
      var clients: seq<Client> := Room(gameId);
      var msg := Message(kind, payload);
      for i := 0 to |clients|
        invariant forall x: Client | x in clients ::
                    x.outbox == old(x.outbox) + Copies(msg, multiset(clients[..i])[x])
      {
        assert clients[..i + 1] == clients[..i] + [clients[i]];
        clients[i].outbox := clients[i].outbox + [msg];
      }
      assert clients[..|clients|] == clients;
      assert Copies(msg, 0) == [];
    }

    /** Queues an ERROR event for one client; the text is put between double quotes
        without escaping. */
    method SendError(c: Client, text: string)
      modifies c
      ensures c.outbox == old(c.outbox) + [Message(ErrorEvent, RawText("\"" + text + "\""))]
    {
      var payload := "\"" + text + "\"";
      c.outbox := c.outbox + [Message(ErrorEvent, RawText(payload))];
    }

    /** Splices the first occurrence of `c`, at index `i`, out of its room. */
    method DropFromRoom(c: Client, i: nat)
      requires Valid()
      requires i < |Room(c.gameId)| && Room(c.gameId)[i] == c && c !in Room(c.gameId)[..i]
      modifies this
      ensures Valid()
      ensures rooms == old(rooms)[c.gameId := RemoveFirst(old(Room(c.gameId)), c)]
      ensures Room(c.gameId) == old(Room(c.gameId))[..i] + old(Room(c.gameId))[i + 1..]
      ensures Distinct(old(Room(c.gameId))) ==> Distinct(Room(c.gameId))
    {
      var clients: seq<Client> := Room(c.gameId);
      RemoveFirstAt(clients, c, i);
      rooms := rooms[c.gameId := clients[..i] + clients[i + 1..]];
      assert Distinct(clients) ==> Distinct(Room(c.gameId)) by {
        if Distinct(clients) {
          RemoveFirstDistinct(clients, c);
        }
      }
    }

    /** Removes the first occurrence of the client from its room and tells the
        rest of the room; a client that is not there changes nothing. */
    method UnregisterClient(c: Client)
      requires Valid()
      modifies this, Room(c.gameId)
      ensures Valid()
      ensures c !in old(Room(c.gameId)) ==>
                rooms == old(rooms) &&
                forall x: Client | x in old(Room(c.gameId)) :: x.outbox == old(x.outbox)
      ensures c in old(Room(c.gameId)) ==>
                && rooms == old(rooms)[c.gameId := RemoveFirst(old(Room(c.gameId)), c)]
                && forall x: Client | x in old(Room(c.gameId)) ::
                     x.outbox == old(x.outbox) +
                       Copies(Message(PlayerDisconnected, PlayerLeft(c.playerId)),
                              multiset(Room(c.gameId))[x])
      // a leaver registered once hears nothing of its own departure
      ensures multiset(old(Room(c.gameId)))[c] == 1 ==> c.outbox == old(c.outbox)
      ensures Distinct(old(Room(c.gameId))) ==> Distinct(Room(c.gameId))
    {
      var clients: seq<Client> := Room(c.gameId);
      var found := IndexOfClient(clients, c);
      if found.None? {
        return;
      }
      var i := found.value;
      DropFromRoom(c, i);
      var rest: seq<Client> := Room(c.gameId);
      assert rest == clients[..i] + clients[i + 1..];
      label Removed:
      BroadcastToRoom(c.gameId, PlayerDisconnected, PlayerLeft(c.playerId));
      ghost var notice := Message(PlayerDisconnected, PlayerLeft(c.playerId));
      assert forall x: Client | x in clients ::
               x.outbox == old(x.outbox) + Copies(notice, multiset(rest)[x]) by {
        forall x: Client | x in clients
          ensures x.outbox == old(x.outbox) + Copies(notice, multiset(rest)[x])
        {
          assert old@Removed(x.outbox) == old(x.outbox);
        }
      }
      assert multiset(clients)[c] == 1 ==> c.outbox == old(c.outbox) by {
        RemoveFirstMultiset(clients, c);
        assert Copies(notice, 0) == [];
      }
    }

    /**
     * What the read loop does with one frame. Only a MOVE envelope matters: the
     * game service's answer `reply` to (c.gameId, c.playerId, frame.move) is
     * either an error text (for a move the game itself refuses, one of the
     * texts of `MoveError.Text`), queued for the sender alone, or the updated game,
     * broadcast to the room and followed by a GAME_OVER broadcast when the game
     * is over.
     */
    method HandleInbound(c: Client, frame: Inbound, reply: ServiceReply)
      requires Valid()
      modifies c, Room(c.gameId)
      ensures !(frame.Envelope? && frame.kind == MoveEvent) ==>
                c.outbox == old(c.outbox) &&
                forall x: Client | x in Room(c.gameId) :: x.outbox == old(x.outbox)
      ensures frame.Envelope? && frame.kind == MoveEvent && reply.Rejected? ==>
                && c.outbox == old(c.outbox) + [Message(ErrorEvent, RawText("\"" + reply.message + "\""))]
                && forall x: Client | x in Room(c.gameId) && x != c :: x.outbox == old(x.outbox)
      ensures frame.Envelope? && frame.kind == MoveEvent && reply.Moved? ==>
                && (forall x: Client | x in Room(c.gameId) ::
                      var n := multiset(Room(c.gameId))[x];
                      x.outbox == old(x.outbox) + Copies(Message(GameUpdate, GameState(reply.game)), n)
                                  + (if reply.over then Copies(Message(GameOver, GameResult), n) else []))
                && (c !in Room(c.gameId) ==> c.outbox == old(c.outbox))
    {
      if frame.Undecodable? || frame.kind != MoveEvent {
        return;
      }
      match reply
      case Rejected(message) =>
        SendError(c, message);
      case Moved(game, over) =>
        BroadcastToRoom(c.gameId, GameUpdate, GameState(game));
        if over {
          BroadcastToRoom(c.gameId, GameOver, GameResult);
        }
    }

    /**
     * A new connection (HandleWS). `gameId` is the parsed game_id parameter
     * (None when it is not a UUID), `upgraded` whether the websocket upgrade
     * succeeded, and `lookup` the game service's answer for that game. The
     * client is registered first; then only its own outbox gets the current game.
     */
    method Connect(gameId: Option<GameId>, playerId: string, upgraded: bool,
                   lookup: Result<GameView, string>)
      returns (client: Option<Client>)
      requires Valid()
      modifies this
      ensures Valid()
      ensures client.Some? <==> gameId.Some? && playerId != "" && upgraded
      ensures client.None? ==> rooms == old(rooms)
      ensures client.Some? ==>
                var c := client.value;
                && fresh(c) && c.gameId == gameId.value && c.playerId == playerId
                && rooms == old(rooms)[c.gameId := old(Room(gameId.value)) + [c]]
                && c.outbox == (if lookup.Ok? then [Message(GameUpdate, GameState(lookup.value))] else [])
      ensures client.Some? && Distinct(old(Room(gameId.value))) ==> Distinct(Room(gameId.value))
    {
      if gameId.None? || playerId == "" {
        return None;
      }
      if !upgraded {
        return None;
      }
      var c := new Client(gameId.value, playerId);
      RegisterClient(c);
      if lookup.Err? {
        return Some(c);
      }
      c.outbox := c.outbox + [Message(GameUpdate, GameState(lookup.value))];
      return Some(c);
    }
  }
}
