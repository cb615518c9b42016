/** The request-level operations of server/uno.go: the two typed errors, the colour
    helper, membership and start, the password gate on joining, and the play, draw
    and deal entry points of this file, which only load the stored game. */
module Server {
  import opened Model
  import opened Store

  /** The text wrapped by the InvalidPlayerError of updateGame. */
  const NotInGameText := "Player not in game, cannot start"

  /** The text wrapped by the InvalidPasswordError of joinGame. */
  const InvalidPasswordText := "Invalid password"

  // ---------------------------------------------------------------------------
  // Errors
  // ---------------------------------------------------------------------------

  /** Error(): the text of an error. InvalidPasswordError appends ": " and the
      rejected password to its wrapped error's text; InvalidPlayerError reports its
      wrapped error's text unchanged. */
  function Message(e: Error): (text: string)
    ensures e.InvalidPassword? ==>
              && |text| >= |e.password| + 2
              && text[|text| - |e.password| - 2..|text| - |e.password|] == ": "
              && text[|text| - |e.password|..] == e.password
  {
    match e
    case Plain(text) => text
    case Missing(key) => "not found: " + key
    case InvalidPassword(password, inner) => Message(inner) + ": " + password
    case InvalidPlayer(inner) => Message(inner)
  }

  /** The text of an InvalidPasswordError starts with the wrapped error's text and
      ends with the rejected password, with ": " between them. */
  lemma InvalidPasswordMessageParts(password: string, inner: Error)
    ensures var m, w := Message(InvalidPassword(password, inner)), Message(inner);
      && |m| == |w| + 2 + |password|
      && m[..|w|] == w
      && m[|w|..|w| + 2] == ": "
      && m[|w| + 2..] == password
  {
  }

  /** Two password errors around the same error have the same text only when they
      carry the same password: the text identifies the rejected password. */
  lemma InvalidPasswordMessageInjective(p1: string, p2: string, inner: Error)
    requires Message(InvalidPassword(p1, inner)) == Message(InvalidPassword(p2, inner))
    ensures p1 == p2
  {
    var w := Message(inner);
    InvalidPasswordMessageParts(p1, inner);
    InvalidPasswordMessageParts(p2, inner);
  }

  /** The texts the server reports for its two typed errors. */
  lemma ServerErrorTexts(password: string)
    ensures Message(InvalidPlayer(Plain(NotInGameText))) == "Player not in game, cannot start"
    ensures Message(InvalidPassword(password, Plain(InvalidPasswordText))) == "Invalid password: " + password
  {
  }

  // ---------------------------------------------------------------------------
  // Utility functions
  // ---------------------------------------------------------------------------

  /** randColor: 0 to 3 name the four card colours, anything else gives "". */
  function RandColor(i: int): (color: string)
    ensures color != "" <==> 0 <= i < 4
    ensures 0 <= i < 4 ==> color in ["red", "blue", "green", "yellow"]
  {
    match i
    case 0 => "red"
    case 1 => "blue"
    case 2 => "green"
    case 3 => "yellow"
    case _ => ""
  }

  /** Different indices in [0, 4) give different colours, so every colour is hit once. */
  lemma RandColorInjective(i: int, j: int)
    requires 0 <= i < 4 && 0 <= j < 4 && i != j
    ensures RandColor(i) != RandColor(j)
  {
    assert RandColor(i)[0] != RandColor(j)[0] || |RandColor(i)| != |RandColor(j)|;
  }

  // ---------------------------------------------------------------------------
  // Game operations
  // ---------------------------------------------------------------------------

  /** Some player in the list has the ID. */
  predicate InGame(players: seq<Player>, id: string)
  {
    exists k :: 0 <= k < |players| && players[k].id == id
  }

  /** The membership loop of updateGame, with its `found` flag. */
  method FindPlayer(players: seq<Player>, id: string) returns (found: bool)
    ensures found == InGame(players, id)
  {
    found := false;
    var i := 0;
    while i < |players|
      invariant 0 <= i <= |players|
      invariant !found && forall j :: 0 <= j < i ==> players[j].id != id
    {
      var loopPlayer := players[i];
      if loopPlayer.id == id {
        found := true;
        break;
      }
      i := i + 1;
    }
  }

  /** updateGame as written: the stored game when the requesting player is in it,
      InvalidPlayerError otherwise. When the lookup fails it returns `err`, which is
      nil at that point, instead of the lookup error: neither a game nor an error. */
  method UpdateGame(db: Database, gameID: string, reqPlayer: Player) returns (game: Game?, err: Option<Error>)
    ensures gameID !in db.games ==> game == null && err == None
    ensures gameID in db.games && InGame(db.games[gameID].players, reqPlayer.id) ==>
              err == None && game != null && game.Record() == db.games[gameID]
    ensures gameID in db.games && !InGame(db.games[gameID].players, reqPlayer.id) ==>
              game == null && err == Some(InvalidPlayer(Plain(NotInGameText)))
  {
    var gameData, gameErr := db.LookupGameByID(gameID);
    if gameErr != None {
      return null, None;
    }
    var found := FindPlayer(gameData.players, reqPlayer.id);
    if !found {
      return null, Some(InvalidPlayer(Plain(NotInGameText)));
    }
    return gameData, None;
  }

  /** updateGame returning the lookup error, as its callers expect: every outcome has
      either a game or an error, never both and never neither. */
  method UpdateGameChecked(db: Database, gameID: string, reqPlayer: Player) returns (game: Game?, err: Option<Error>)
    ensures (game == null) != (err == None)
    ensures game != null ==> fresh(game)
    ensures gameID !in db.games ==> err == Some(Missing(gameID))
    ensures gameID in db.games && InGame(db.games[gameID].players, reqPlayer.id) ==>
              err == None && game != null && game.Record() == db.games[gameID]
    ensures gameID in db.games && !InGame(db.games[gameID].players, reqPlayer.id) ==>
              err == Some(InvalidPlayer(Plain(NotInGameText)))
  {
    var gameData, gameErr := db.LookupGameByID(gameID);
    if gameErr != None {
      return null, gameErr;
    }
    var found := FindPlayer(gameData.players, reqPlayer.id);
    if !found {
      return null, Some(InvalidPlayer(Plain(NotInGameText)));
    }
    return gameData, None;
  }

  /** startGame: a member of the game moves it to "Playing" and saves it; no other
      field changes, and a game already playing is saved unchanged. A failed check
      is returned and nothing is saved. It is built on UpdateGameChecked, so a missing
      game reports the lookup error where the code as written reads a nil game. */
  method StartGame(db: Database, gameID: string, player: Player) returns (game: Game?, err: Option<Error>)
    modifies db`games
    ensures gameID !in old(db.games) ==>
              game == null && err == Some(Missing(gameID)) && db.games == old(db.games)
    ensures gameID in old(db.games) && !InGame(old(db.games[gameID]).players, player.id) ==>
              game == null && err == Some(InvalidPlayer(Plain(NotInGameText))) && db.games == old(db.games)
    ensures gameID in old(db.games) && InGame(old(db.games[gameID]).players, player.id) ==>
              var g := old(db.games[gameID]);
              err == None && game != null && game.Record() == g.(status := "Playing") &&
              db.games == old(db.games)[g.id := g.(status := "Playing")] &&
              (g.status == "Playing" ==> game.Record() == g)
  {
    var gameData, updateErr := UpdateGameChecked(db, gameID, player);
    if updateErr != None {
      return null, updateErr;
    }
    if gameData.status != "Playing" {
      gameData.status := "Playing";
    }
    db.SaveGame(gameData);
    return gameData, None;
  }

  /** joinGame: a password other than the game's is refused with an
      InvalidPasswordError carrying the password given, before the store is asked to
      add the player; with the right password the store adds the player. */
  method JoinGame(db: Database, gameID: string, player: Player, password: string) returns (game: Game?, err: Option<Error>)
    modifies db`games
    ensures gameID !in old(db.games) ==>
              game == null && err == Some(Missing(gameID)) && db.games == old(db.games)
    ensures gameID in old(db.games) && password != old(db.games[gameID]).password ==>
              game == null && err == Some(InvalidPassword(password, Plain(InvalidPasswordText))) &&
              db.games == old(db.games)
    ensures gameID in old(db.games) && password == old(db.games[gameID]).password && player.id !in db.players ==>
              game == null && err == Some(Missing(player.id)) && db.games == old(db.games)
    ensures gameID in old(db.games) && password == old(db.games[gameID]).password && player.id in db.players ==>
              var g := old(db.games[gameID]);
              var r := g.(players := g.players + [db.players[player.id]]);
              err == None && game != null && game.Record() == r && db.games == old(db.games)[gameID := r]
  {
    var gameData, lookupErr := db.LookupGameByID(gameID);
    if lookupErr != None {
      return null, lookupErr;
    }
    if password != gameData.password {
      return null, Some(InvalidPassword(password, Plain(InvalidPasswordText)));
    }
    var joined, joinErr := db.JoinGame(gameID, player.id);
    if joinErr != None {
      return null, joinErr;
    }
    return joined, None;
  }

  /** playCard of this file: loads the game and returns it as stored. */
  method PlayCard(db: Database, gameID: string, player: Player, card: Card) returns (game: Game?, err: Option<Error>)
    ensures err == None && (game != null <==> gameID in db.games)
    ensures game != null ==> game.Record() == db.games[gameID]
  {
    var gameData, gameErr := db.LookupGameByID(gameID);
    if gameErr != None {
      return null, None;
    }
    return gameData, None;
  }

  /** drawCard of this file: loads the game and returns it as stored. */
  method DrawCard(db: Database, gameID: string, player: Player) returns (game: Game?, err: Option<Error>)
    ensures err == None && (game != null <==> gameID in db.games)
    ensures game != null ==> game.Record() == db.games[gameID]
  {
    var gameData, gameErr := db.LookupGameByID(gameID);
    if gameErr != None {
      return null, None;
    }
    return gameData, None;
  }

  /** dealCards of this file: loads the game and returns it as stored. */
  method DealCards(db: Database, gameID: string, player: Player) returns (game: Game?, err: Option<Error>)
    ensures err == None && (game != null <==> gameID in db.games)
    ensures game != null ==> game.Record() == db.games[gameID]
  {
    var gameData, gameErr := db.LookupGameByID(gameID);
    if gameErr != None {
      return null, None;
    }
    return gameData, None;
  }
}
