/** The game service of server/service/uno.go. The engine's helpers update a loaded
    game in place; PlayCard and DrawCard load the game from the store, update it and
    save it back. Each is proved to do exactly what module Rules says. */
module Service {
  import opened Model
  import opened Store
  import Rules

  // ---------------------------------------------------------------------------
  // Utility functions
  // ---------------------------------------------------------------------------

  /** DrawCardHelper: the top card of the draw pile goes to the end of `player`'s
      hand. The player is passed in and handed back as a value. */
  method DrawCardHelper(game: Game, player: Player) returns (updated: Player)
    requires |game.drawPile| > 0
    modifies game`drawPile
    ensures game.drawPile + [Rules.Last(old(game.drawPile))] == old(game.drawPile)
    ensures updated == player.(cards := player.cards + [Rules.Last(old(game.drawPile))])
  {
    var lastIndex := |game.drawPile| - 1;
    var card := game.drawPile[lastIndex];
    updated := player.(cards := player.cards + [card]);
    game.drawPile := game.drawPile[..lastIndex];
  }

  /** GetPlayer: the first player of the game with the given ID, if any. */
  method GetPlayer(game: Game, playerID: string) returns (player: Option<Player>)
    ensures player == None <==> forall k :: 0 <= k < |game.players| ==> game.players[k].id != playerID
    ensures player.Some? ==>
              exists k :: (0 <= k < |game.players| && game.players[k] == player.value &&
                           player.value.id == playerID && forall j :: 0 <= j < k ==> game.players[j].id != playerID)
  {
    var i := 0;
    while i < |game.players|
      invariant 0 <= i <= |game.players|
      invariant forall j :: 0 <= j < i ==> game.players[j].id != playerID
    {
      var item := game.players[i];
      if playerID == item.id {
        return Some(item);
      }
      i := i + 1;
    }
    return None;
  }

  /** CardFromPlayer: the index of the first card in the hand with the same colour
      and value, or -1 when the player holds no such card. */
  method CardFromPlayer(player: Player, card: Card) returns (index: int)
    ensures index == -1 <==> forall k :: 0 <= k < |player.cards| ==> player.cards[k] != card
    ensures index != -1 ==>
              (0 <= index < |player.cards| && player.cards[index] == card &&
               forall j :: 0 <= j < index ==> player.cards[j] != card)
  {
    var i := 0;
    while i < |player.cards|
      invariant 0 <= i <= |player.cards|
      invariant forall j :: 0 <= j < i ==> player.cards[j] != card
    {
      var item := player.cards[i];
      if item.color == card.color && item.value == card.value {
        return i;
      }
      i := i + 1;
    }
    return -1;
  }

  /** CheckForCardInHand: some hand card has the requested value and either the same
      colour or a wild value ("W", "W4"), whose colour is chosen on playing. */
  method CheckForCardInHand(card: Card, hand: seq<Card>) returns (found: bool)
    ensures found == Rules.InHand(card, hand)
  {
    var i := 0;
    while i < |hand|
      invariant 0 <= i <= |hand|
      invariant forall j :: 0 <= j < i ==> !Rules.Holds(hand[j], card)
    {
      var c := hand[i];
      if c.value == card.value && (c.color == card.color || card.value == "W4" || card.value == "W") {
        return true;
      }
      i := i + 1;
    }
    return false;
  }

  /** GoToNextPlayer: one step forward (wrapping to 0) or backward (wrapping to the
      last player) according to the direction. */
  method GoToNextPlayer(game: Game)
    requires game.direction ==> |game.players| > 0
    modifies game`currentPlayer
    ensures game.currentPlayer == Rules.Next(old(game.currentPlayer), |game.players|, game.direction)
  {
    if game.direction {
      game.currentPlayer := game.currentPlayer + 1;
      game.currentPlayer := Rules.GoRem(game.currentPlayer, |game.players|);
    } else {
      game.currentPlayer := game.currentPlayer - 1;
      if game.currentPlayer < 0 {
        game.currentPlayer := |game.players| - 1;
      }
    }
  }

  /** DrawTopCard: pops the last card of the draw pile. */
  method DrawTopCard(game: Game) returns (drawnCard: Card)
    requires |game.drawPile| > 0
    modifies game`drawPile
    ensures game.drawPile + [drawnCard] == old(game.drawPile)
  {
    drawnCard := game.drawPile[|game.drawPile| - 1];
    game.drawPile := game.drawPile[..|game.drawPile| - 1];
  }

  /** DrawNCards: the current player takes `nCards` cards, one at a time off the top. */
  method DrawNCards(game: Game, nCards: nat)
    requires Rules.TurnValid(game.Record()) && nCards <= |game.drawPile|
    modifies game`drawPile, game`players
    ensures game.Record() == Rules.DrawN(old(game.Record()), nCards)
  {
    ghost var g := game.Record();
    Rules.DrawNoneIsIdentity(g);
    var i := 0;
    while i < nCards
      invariant 0 <= i <= nCards
      invariant game.Record() == Rules.DrawN(g, i)
    {
      Rules.DrawNStep(g, i);
      ghost var h := game.Record();
      var drawnCard := DrawTopCard(game);
      Rules.DrawOne(h, drawnCard, game.drawPile);
      var p := game.players[game.currentPlayer];
      game.players := game.players[game.currentPlayer := p.(cards := p.cards + [drawnCard])];
      i := i + 1;
    }
  }

  // ---------------------------------------------------------------------------
  // Game operations
  // ---------------------------------------------------------------------------

  /** The special-effect block of PlayCard (the checks on the played value before the
      closing GoToNextPlayer). */
  method ApplyEffect(game: Game, value: string)
    requires Rules.TurnValid(game.Record()) && |game.drawPile| >= Rules.Penalty(value)
    modifies game`players, game`currentPlayer, game`direction, game`drawPile
    ensures game.Record() == Rules.Effect(old(game.Record()), value)
  {
    if value == "S" {
      GoToNextPlayer(game);
    }
    if value == "D2" {
      GoToNextPlayer(game);
      DrawNCards(game, 2);
    }
    if value == "W4" {
      GoToNextPlayer(game);
      DrawNCards(game, 4);
    }
    if value == "R" {
      game.direction := !game.direction;
    }
  }

  /** The removal loop of PlayCard: the first hand card equal to the played card, or
      of the same wild kind, leaves the current player's hand. */
  method RemoveFromHand(game: Game, hand: seq<Card>, card: Card)
    requires Rules.TurnValid(game.Record()) && hand == Rules.Hand(game.Record())
    modifies game`players
    ensures game.Record() == Rules.WithHand(old(game.Record()), Rules.RemoveFirst(hand, card))
  {
    ghost var g := game.Record();
    var index := 0;
    while index < |hand|
      invariant 0 <= index <= |hand|
      invariant forall j :: 0 <= j < index ==> !Rules.Removes(hand[j], card)
      invariant game.players == g.players
    {
      var item := hand[index];
      if item == card || (item.value == "W" && card.value == "W") || (item.value == "W4" && card.value == "W4") {
        game.players := game.players[game.currentPlayer := game.players[game.currentPlayer].(cards := hand[..index] + hand[index + 1..])];
        assert index == Rules.FirstRemovable(hand, card);
        return;
      }
      index := index + 1;
    }
    assert g.players[g.currentPlayer := g.players[g.currentPlayer].(cards := hand)] == g.players;
  }

  /** The in-place part of PlayCard, between loading and saving the game: when it is
      the player's turn, the player holds the card and the card fits the discard top,
      the card goes on the discard pile, leaves the hand, its effect applies and the
      turn moves on; otherwise the game is left as it was. */
  method ApplyPlay(game: Game, playerID: string, card: Card)
    requires Rules.CanPlay(game.Record(), playerID, card)
    modifies game`players, game`currentPlayer, game`direction, game`drawPile, game`discardPile
    ensures game.Record() == Rules.Play(old(game.Record()), playerID, card)
  {
    ghost var g := game.Record();
    if game.players[game.currentPlayer].id == playerID {
      var hand := game.players[game.currentPlayer].cards;
      var held := CheckForCardInHand(card, hand);
      if held && (card.color == Rules.Last(game.discardPile).color || card.value == Rules.Last(game.discardPile).value
                  || card.value == "W4" || card.value == "W") {
        assert Rules.Legal(g, playerID, card);
        ghost var d := Rules.Discard(g, card);
        game.discardPile := game.discardPile + [card];
        RemoveFromHand(game, hand, card);
        assert game.Record() == d;
        ApplyEffect(game, card.value);
        GoToNextPlayer(game);
        assert Rules.Play(g, playerID, card) == Rules.Advance(Rules.Effect(d, card.value));
      }
    }
  }

  /** PlayCard: loads the game, applies the play (which leaves the game unchanged when
      it is rejected) and saves the game either way. A game missing from the store
      gives neither game nor error. */
  method PlayCard(db: Database, gameID: string, playerID: string, card: Card)
      returns (game: Game?, err: Option<Error>)
    requires gameID in db.games ==> Rules.CanPlay(db.games[gameID], playerID, card)
    modifies db`games
    ensures err == None
    ensures gameID !in old(db.games) ==> game == null && db.games == old(db.games)
    ensures gameID in old(db.games) ==>
              var g := old(db.games[gameID]);
              var r := Rules.Play(g, playerID, card);
              game != null && game.Record() == r && db.games == old(db.games)[g.id := r]
  {
    var lookupErr;
    game, lookupErr := db.LookupGameByID(gameID);
    if lookupErr != None {
      return null, None;
    }
    ApplyPlay(game, playerID, card);
    db.SaveGame(game);
    return game, None;
  }

  /** DrawCard: only the current player may draw; that player takes the top card of
      the draw pile and the turn moves on one step. A game missing from the store
      gives neither game nor error; the wrong player gets "Wrong player" and nothing
      is saved. */
  method DrawCard(db: Database, gameID: string, playerID: string) returns (game: Game?, err: Option<Error>)
    requires gameID in db.games ==>
               var g := db.games[gameID];
               Rules.TurnValid(g) && (Rules.IsTurnOf(g, playerID) ==> |g.drawPile| > 0)
    modifies db`games
    ensures gameID !in old(db.games) ==> game == null && err == None && db.games == old(db.games)
    ensures gameID in old(db.games) && !Rules.IsTurnOf(old(db.games[gameID]), playerID) ==>
              game == null && err == Some(Plain("Wrong player")) && db.games == old(db.games)
    ensures gameID in old(db.games) && Rules.IsTurnOf(old(db.games[gameID]), playerID) ==>
              var g := old(db.games[gameID]);
              var r := Rules.Draw(g);
              err == None && game != null && game.Record() == r && db.games == old(db.games)[g.id := r]
  {
    var lookupErr;
    game, lookupErr := db.LookupGameByID(gameID);
    if lookupErr != None {
      return null, None;
    }
    if game.players[game.currentPlayer].id != playerID {
      return null, Some(Plain("Wrong player"));
    }
    ghost var g := game.Record();
    var drawnCard := DrawTopCard(game);
    var p := game.players[game.currentPlayer];
    game.players := game.players[game.currentPlayer := p.(cards := p.cards + [drawnCard])];
    assert Rules.TopCards(g.drawPile, 1) == [drawnCard];
    assert game.Record() == Rules.DrawN(g, 1);
    GoToNextPlayer(game);
    db.SaveGame(game);
    return game, None;
  }

  /** The inner loop of DealCards: seven cards popped off the draw pile, in the
      order they are popped. */
  method DealHand(game: Game) returns (cards: seq<Card>)
    requires |game.drawPile| >= Rules.HandSize
    modifies game`drawPile
    ensures cards == Rules.TopCards(old(game.drawPile), Rules.HandSize)
    ensures game.drawPile == old(game.drawPile)[..|old(game.drawPile)| - Rules.HandSize]
  {
    ghost var pile := game.drawPile;
    cards := [];
    var i := 0;
    while i < Rules.HandSize
      invariant 0 <= i <= Rules.HandSize
      invariant game.drawPile == pile[..|pile| - i]
      invariant cards == Rules.TopCards(pile, i)
    {
      Rules.TopCardsStep(pile, i);
      var drawnCard := DrawTopCard(game);
      cards := cards + [drawnCard];
      i := i + 1;
    }
  }

  /** DealCards: picks the starting player, takes a fresh shuffled deck as the draw
      pile, replaces every hand with seven cards popped off it, puts one more card on
      the discard pile, marks the game "Playing" and saves it. The deck and the
      starting index stand for generateShuffledDeck and rand.Intn. */
  method DealCards(db: Database, game: Game, deck: seq<Card>, start: int) returns (result: Game?, err: Option<Error>)
    requires Rules.CanDeal(game.Record(), deck, start)
    modifies game`currentPlayer, game`drawPile, game`players, game`discardPile, game`status, db`games
    ensures result == game && err == None
    ensures game.Record() == Rules.Deal(old(game.Record()), deck, start)
    ensures db.games == old(db.games)[game.id := game.Record()]
  {
    ghost var g := game.Record();
    var n := |game.players|;
    game.currentPlayer := start;
    game.drawPile := deck;
    var k := 0;
    while k < n
      invariant 0 <= k <= n == |game.players|
      invariant game.drawPile == deck[..|deck| - Rules.HandSize * k]
      invariant forall j :: 0 <= j < k ==> game.players[j] == g.players[j].(cards := Rules.DealtHand(deck, j))
      invariant forall j :: k <= j < n ==> game.players[j] == g.players[j]
      invariant game.currentPlayer == start && game.discardPile == g.discardPile && game.status == g.status
      invariant db.games == old(db.games)
    {
      Rules.DealtHandAt(deck, k);
      var cards := DealHand(game);
      game.players := game.players[k := game.players[k].(cards := cards)];
      k := k + 1;
    }
    var drawnCard := DrawTopCard(game);
    game.discardPile := game.discardPile + [drawnCard];
    game.status := "Playing";
    assert game.players == Rules.Deal(g, deck, start).players;
    db.SaveGame(game);
    return game, None;
  }
}
