/**
 * The in-memory active store (internal/adapters/repository/memory): a map from
 * game identifier to the game object itself. FindByID hands out the stored
 * reference, so a caller that changes the game changes the stored game.
 */
module MemoryRepository {
  import opened Results
  import opened Domain

  class InMemoryGameRepository<P> {
    var games: map<GameId, Game<P>>

    /** NewInMemoryGameRepository: an empty store. */
    constructor ()
      ensures games == map[]
    {
      games := map[];
    }

    /** Stores `game` under its identifier, replacing any earlier entry; never fails. */
    method Save(game: Game<P>) returns (err: Option<string>)
      modifies this
      ensures games == old(games)[game.id := game]
      ensures forall id | id != game.id :: (id in games <==> id in old(games))
      ensures forall id | id in games && id != game.id :: games[id] == old(games)[id]
      ensures err == None
    {
      games := games[game.id := game];
      return None;
    }

    /** The stored game for `id`, or the error "game not found"; the map is only read. */
    method FindByID(id: GameId) returns (r: Result<Game<P>, string>)
      ensures id in games ==> r == Ok(games[id])
      ensures id !in games ==> r == Err("game not found")
    {
      if id !in games {
        return Err("game not found");
      }
      return Ok(games[id]);
    }

    /** The same write as Save: an absent identifier is inserted, not refused. */
    method Update(game: Game<P>) returns (err: Option<string>)
      modifies this
      ensures games == old(games)[game.id := game]
      ensures forall id | id != game.id :: (id in games <==> id in old(games))
      ensures forall id | id in games && id != game.id :: games[id] == old(games)[id]
      ensures err == None
    {
      games := games[game.id := game];
      return None;
    }
  }

  /** A saved game is found again under its identifier, as the very same object. */
  method SaveThenFind<P>(repo: InMemoryGameRepository<P>, game: Game<P>)
    returns (found: Result<Game<P>, string>)
    modifies repo
    ensures found == Ok(game)
  {
    var _ := repo.Save(game);
    found := repo.FindByID(game.id);
  }
}
