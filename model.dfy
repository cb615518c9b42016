/** The records of the game: cards, players and the game itself.
    The `model` package of the repository is not part of this model; its types are
    rebuilt here from how the server code uses their fields. */
module Model {

  datatype Option<+T> = None | Some(value: T)

  /** A card. Wild cards ("W", "W4") carry the colour the player chose when playing them. */
  datatype Card = Card(color: string, value: string)

  /** A player and the cards in their hand, in the order they were received. */
  datatype Player = Player(id: string, name: string, cards: seq<Card>)

  /** The value of a game as the store keeps it. Both piles have their top at the end. */
  datatype GameRecord = GameRecord(
    id: string,
    name: string,
    password: string,
    host: string,
    players: seq<Player>,
    currentPlayer: int,
    direction: bool,
    drawPile: seq<Card>,
    discardPile: seq<Card>,
    status: string)

  /** Go `error` values produced by the core. */
  datatype Error =
    | Plain(message: string)                        // errors.New(message)
    | Missing(key: string)                          // a store lookup that found nothing
    | InvalidPassword(password: string, err: Error) // InvalidPasswordError
    | InvalidPlayer(err: Error)                     // InvalidPlayerError

  /** A game loaded from the store; the engine updates its fields in place. */
  class Game {
    var id: string
    var name: string
    var password: string
    var host: string
    var players: seq<Player>
    var currentPlayer: int
    var direction: bool
    var drawPile: seq<Card>
    var discardPile: seq<Card>
    var status: string

    /** The value of this game, as SaveGame stores it. */
    function Record(): GameRecord
      reads this
    {
      GameRecord(id, name, password, host, players, currentPlayer, direction,
                 drawPile, discardPile, status)
    }

    constructor FromRecord(r: GameRecord)
      ensures Record() == r
    {
      id, name, password, host := r.id, r.name, r.password, r.host;
      players, currentPlayer, direction := r.players, r.currentPlayer, r.direction;
      drawPile, discardPile, status := r.drawPile, r.discardPile, r.status;
    }
  }
}
