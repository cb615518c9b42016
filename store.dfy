/** The game store behind `db.GetDb()`. The database package is not part of this model;
    it is modelled as two maps: games by ID and registered players by ID. */
module Store {
  import opened Model

  class Database {
    var games: map<string, GameRecord>
    var players: map<string, Player>

    constructor (games: map<string, GameRecord>, players: map<string, Player>)
      ensures this.games == games && this.players == players
    {
      this.games := games;
      this.players := players;
    }

    /** LookupGameByID: a fresh copy of the stored game, or a lookup error. */
    method LookupGameByID(id: string) returns (game: Game?, err: Option<Error>)
      ensures id in games ==> game != null && fresh(game) && game.Record() == games[id] && err == None
      ensures id !in games ==> game == null && err == Some(Missing(id))
    {
      if id in games {
        game := new Game.FromRecord(games[id]);
        err := None;
      } else {
        game := null;
        err := Some(Missing(id));
      }
    }

    /** SaveGame: stores the value of the game under its own ID. */
    method SaveGame(game: Game)
      modifies this`games
      ensures games == old(games)[game.id := game.Record()]
    {
      games := games[game.id := game.Record()];
    }

    /** JoinGame: appends the registered player to the stored game's player list. */
    method JoinGame(gameID: string, playerID: string) returns (game: Game?, err: Option<Error>)
      modifies this`games
      ensures gameID !in old(games) ==> game == null && err == Some(Missing(gameID)) && games == old(games)
      ensures gameID in old(games) && playerID !in players ==>
                game == null && err == Some(Missing(playerID)) && games == old(games)
      ensures gameID in old(games) && playerID in players ==>
                var r := old(games[gameID]).(players := old(games[gameID]).players + [players[playerID]]);
                err == None && game != null && fresh(game) && game.Record() == r &&
                games == old(games)[gameID := r]
    {
      if gameID !in games {
        game, err := null, Some(Missing(gameID));
      } else if playerID !in players {
        game, err := null, Some(Missing(playerID));
      } else {
        var r := games[gameID].(players := games[gameID].players + [players[playerID]]);
        games := games[gameID := r];
        game := new Game.FromRecord(r);
        err := None;
      }
    }
  }
}
