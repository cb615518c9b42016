/** The turn engine of server/service/uno.go stated as functions on game values:
    what a play, a draw and a deal do to a game. The methods of module Service are
    proved to update a game exactly as these functions say, and the lemmas below state
    what the rules promise (turn index in range, card counts conserved, rejected plays
    change nothing, the effect of each special card). */
module Rules {
  import opened Model

  /** Cards dealt to each player. */
  const HandSize: nat := 7

  function Last(s: seq<Card>): (top: Card)
    requires |s| > 0
  {
    s[|s| - 1]
  }

  // ---------------------------------------------------------------------------
  // Turn order
  // ---------------------------------------------------------------------------

  /** Go's `%` on int: the remainder has the sign of the dividend. */
  function GoRem(a: int, b: int): (r: int)
    requires b > 0
  {
    if a >= 0 then a % b else -((-a) % b)
  }

  /** The index GoToNextPlayer moves to from `i` among `n` players. Go divides by
      `n` only when moving forward, so only that direction needs a player. */
  function Next(i: int, n: int, forward: bool): (r: int)
    requires n >= 0 && (forward ==> n > 0)
    ensures 0 <= i < n ==> 0 <= r < n
    ensures 0 <= i < n && forward ==> r == if i == n - 1 then 0 else i + 1
    ensures 0 <= i < n && !forward ==> r == if i == 0 then n - 1 else i - 1
  {
    if forward then GoRem(i + 1, n) else if i - 1 < 0 then n - 1 else i - 1
  }

  /** One step each way returns to the starting player. */
  lemma NextThenBack(i: int, n: int, forward: bool)
    requires 0 <= i < n
    ensures Next(Next(i, n, forward), n, !forward) == i
  {
  }

  /** With two or more players a step always changes the current player. */
  lemma NextMoves(i: int, n: int, forward: bool)
    requires 0 <= i < n && n >= 2
    ensures Next(i, n, forward) != i
  {
  }

  predicate TurnValid(g: GameRecord)
  {
    0 <= g.currentPlayer < |g.players|
  }

  function Hand(g: GameRecord): (hand: seq<Card>)
    requires TurnValid(g)
  {
    g.players[g.currentPlayer].cards
  }

  /** The game with the current player's hand replaced. */
  function WithHand(g: GameRecord, cards: seq<Card>): (r: GameRecord)
    requires TurnValid(g)
  {
    g.(players := g.players[g.currentPlayer := g.players[g.currentPlayer].(cards := cards)])
  }

  /** GoToNextPlayer on a game value. */
  function Advance(g: GameRecord): (r: GameRecord)
    requires |g.players| > 0
  {
    g.(currentPlayer := Next(g.currentPlayer, |g.players|, g.direction))
  }

  predicate IsTurnOf(g: GameRecord, playerID: string)
    requires TurnValid(g)
  {
    g.players[g.currentPlayer].id == playerID
  }

  // ---------------------------------------------------------------------------
  // Cards
  // ---------------------------------------------------------------------------

  predicate IsWild(value: string)
  {
    value == "W4" || value == "W"
  }

  /** CheckForCardInHand's test of the hand card `c` against the requested `card`:
      same value, and same colour unless the request is a wild. */
  predicate Holds(c: Card, card: Card)
  {
    c.value == card.value && (c.color == card.color || IsWild(card.value))
  }

  /** CheckForCardInHand: some card of the hand holds the requested card. */
  predicate InHand(card: Card, hand: seq<Card>)
  {
    exists k :: 0 <= k < |hand| && Holds(hand[k], card)
  }

  /** A card may go on `top` when it shares its colour or value, or is a wild: a wild
      goes on any top, any other card needs the top's colour or value. */
  function Playable(card: Card, top: Card): (ok: bool)
    ensures IsWild(card.value) ==> ok
    ensures !IsWild(card.value) ==> (ok <==> card.color == top.color || card.value == top.value)
  {
    card.color == top.color || card.value == top.value || card.value == "W4" || card.value == "W"
  }

  /** PlayCard's test of which hand card leaves the hand: the card itself, or any
      card of the same wild kind whatever its colour. */
  predicate Removes(item: Card, card: Card)
  {
    item == card || (item.value == "W" && card.value == "W") || (item.value == "W4" && card.value == "W4")
  }

  /** Position of the first hand card that `card` removes, or |hand| if none. */
  function FirstRemovable(hand: seq<Card>, card: Card): (k: nat)
    ensures k <= |hand|
    ensures k < |hand| ==> Removes(hand[k], card)
    ensures forall j :: 0 <= j < k ==> !Removes(hand[j], card)
  {
    if hand == [] then 0
    else if Removes(hand[0], card) then 0
    else 1 + FirstRemovable(hand[1..], card)
  }

  /** The hand after playing `card`: the first card it removes is taken out. */
  function RemoveFirst(hand: seq<Card>, card: Card): (rest: seq<Card>)
  {
    var k := FirstRemovable(hand, card);
    if k < |hand| then hand[..k] + hand[k + 1..] else hand
  }

  /** A card that passes CheckForCardInHand is always found by the removal loop, and
      the card found has the played card's value (and is that very card unless it is
      a wild). */
  lemma FoundWhenHeld(hand: seq<Card>, card: Card)
    requires InHand(card, hand)
    ensures FirstRemovable(hand, card) < |hand|
    ensures hand[FirstRemovable(hand, card)].value == card.value
    ensures !IsWild(card.value) ==> hand[FirstRemovable(hand, card)] == card
  {
    var i :| 0 <= i < |hand| && Holds(hand[i], card);
    assert Removes(hand[i], card);
  }

  /** Playing a held card takes exactly that one card out of the hand. */
  lemma RemoveFirstOfHeld(hand: seq<Card>, card: Card)
    requires InHand(card, hand)
    ensures FirstRemovable(hand, card) < |hand|
    ensures |RemoveFirst(hand, card)| == |hand| - 1
    ensures multiset(RemoveFirst(hand, card)) + multiset{hand[FirstRemovable(hand, card)]} == multiset(hand)
  {
    FoundWhenHeld(hand, card);
    SplitAt(hand, FirstRemovable(hand, card));
  }

  /** Taking out the card at `k` leaves every other card. */
  lemma SplitAt(s: seq<Card>, k: nat)
    requires k < |s|
    ensures multiset(s[..k] + s[k + 1..]) + multiset{s[k]} == multiset(s)
  {
    assert s == s[..k] + [s[k]] + s[k + 1..];
  }

  // ---------------------------------------------------------------------------
  // Piles and card counts
  // ---------------------------------------------------------------------------

  /** The top `n` cards of `pile`, in the order they are popped. */
  function TopCards(pile: seq<Card>, n: nat): (r: seq<Card>)
    requires n <= |pile|
    ensures |r| == n
    ensures forall j :: 0 <= j < n ==> r[j] == pile[|pile| - 1 - j]
  {
    if n == 0 then [] else [Last(pile)] + TopCards(pile[..|pile| - 1], n - 1)
  }

  /** Popping one card more takes the next card down. */
  lemma TopCardsStep(pile: seq<Card>, n: nat)
    requires n < |pile|
    ensures TopCards(pile, n + 1) == TopCards(pile, n) + [pile[|pile| - 1 - n]]
  {
    var a, b := TopCards(pile, n + 1), TopCards(pile, n) + [pile[|pile| - 1 - n]];
    assert forall j :: 0 <= j < n + 1 ==> a[j] == b[j];
  }

  /** DrawNCards on a game value: the current player takes the top `n` cards, in the
      order they are popped; the draw pile keeps everything below them, and no other
      hand, the turn, the direction, the discard pile and the status do not change. */
  function DrawN(g: GameRecord, n: nat): (r: GameRecord)
    requires TurnValid(g) && n <= |g.drawPile|
    ensures TurnValid(r) && |r.players| == |g.players|
    ensures r.currentPlayer == g.currentPlayer && r.direction == g.direction
    ensures r.discardPile == g.discardPile && r.status == g.status
    ensures Hand(r) == Hand(g) + TopCards(g.drawPile, n)
    ensures |r.drawPile| == |g.drawPile| - n && r.drawPile == g.drawPile[..|r.drawPile|]
    ensures forall j :: 0 <= j < |g.players| && j != g.currentPlayer ==> r.players[j] == g.players[j]
  {
    WithHand(g, Hand(g) + TopCards(g.drawPile, n)).(drawPile := g.drawPile[..|g.drawPile| - n])
  }

  /** Drawing no cards changes nothing. */
  lemma DrawNoneIsIdentity(g: GameRecord)
    requires TurnValid(g)
    ensures DrawN(g, 0) == g
  {
    assert g.drawPile[..|g.drawPile|] == g.drawPile;
    assert Hand(g) + TopCards(g.drawPile, 0) == Hand(g);
    assert g.players[g.currentPlayer := g.players[g.currentPlayer]] == g.players;
  }

  /** Drawing one card moves the top of the draw pile to the end of the current hand. */
  lemma DrawOne(g: GameRecord, c: Card, rest: seq<Card>)
    requires TurnValid(g) && g.drawPile == rest + [c]
    ensures DrawN(g, 1) == WithHand(g, Hand(g) + [c]).(drawPile := rest)
  {
    assert TopCards(g.drawPile, 1) == [c];
    assert g.drawPile[..|g.drawPile| - 1] == rest;
  }

  /** Drawing n + 1 cards is drawing n cards and then one more. */
  lemma DrawNStep(g: GameRecord, n: nat)
    requires TurnValid(g) && n < |g.drawPile|
    ensures TurnValid(DrawN(g, n)) && |DrawN(g, n).drawPile| > 0
    ensures DrawN(g, n + 1) == DrawN(DrawN(g, n), 1)
  {
    var p := g.drawPile;
    var h := DrawN(g, n);
    TopCardsStep(p, n);
    assert TopCards(h.drawPile, 1) == [p[|p| - 1 - n]];
    assert Hand(h) + TopCards(h.drawPile, 1) == Hand(g) + TopCards(p, n + 1);
    assert h.drawPile[..|h.drawPile| - 1] == p[..|p| - n - 1];
  }

  /** The number of cards in all hands together. */
  function HandsTotal(ps: seq<Player>): (total: nat)
  {
    if ps == [] then 0 else |ps[0].cards| + HandsTotal(ps[1..])
  }

  /** All cards of a game: draw pile, discard pile and every hand. */
  function TotalCards(g: GameRecord): (total: nat)
  {
    |g.drawPile| + |g.discardPile| + HandsTotal(g.players)
  }

  /** Replacing one player changes the hand total by the change in that hand. */
  lemma {:induction false} HandsTotalUpdate(ps: seq<Player>, k: nat, p: Player)
    requires k < |ps|
    ensures HandsTotal(ps[k := p]) == HandsTotal(ps) - |ps[k].cards| + |p.cards|
  {
    if k == 0 {
      assert ps[k := p][1..] == ps[1..];
    } else {
      HandsTotalUpdate(ps[1..], k - 1, p);
      assert ps[k := p][1..] == ps[1..][k - 1 := p];
    }
  }

  /** When every hand holds `c` cards, the hands hold `c` per player. */
  lemma {:induction false} HandsTotalUniform(ps: seq<Player>, c: nat)
    requires forall k :: 0 <= k < |ps| ==> |ps[k].cards| == c
    ensures HandsTotal(ps) == c * |ps|
  {
    if ps != [] {
      HandsTotalUniform(ps[1..], c);
    }
  }

  /** Same game, same seats: everything but hands, piles, turn and status is kept,
      and every seat keeps its player ID and name. */
  predicate SameTable(a: GameRecord, b: GameRecord)
  {
    && a.id == b.id && a.name == b.name && a.password == b.password && a.host == b.host
    && |a.players| == |b.players|
    && (forall k :: 0 <= k < |a.players| ==>
          a.players[k].id == b.players[k].id && a.players[k].name == b.players[k].name)
  }

  /** Drawing moves cards from the draw pile to the current hand and loses none. */
  lemma DrawNConserves(g: GameRecord, n: nat)
    requires TurnValid(g) && n <= |g.drawPile|
    ensures var r := DrawN(g, n);
      && TurnValid(r) && SameTable(g, r) && r.status == g.status
      && r.currentPlayer == g.currentPlayer && r.direction == g.direction
      && r.discardPile == g.discardPile
      && TotalCards(r) == TotalCards(g)
  {
    HandsTotalUpdate(g.players, g.currentPlayer, g.players[g.currentPlayer].(cards := Hand(g) + TopCards(g.drawPile, n)));
  }

  // ---------------------------------------------------------------------------
  // Playing a card (PlayCard)
  // ---------------------------------------------------------------------------

  /** Cards the next player takes for a draw card. */
  function Penalty(value: string): (cards: nat)
  {
    if value == "D2" then 2 else if value == "W4" then 4 else 0
  }

  /** PlayCard accepts the play: it is the player's turn, the player holds the card,
      and the card may go on the discard top. */
  predicate Legal(g: GameRecord, playerID: string, card: Card)
    requires TurnValid(g)
  {
    IsTurnOf(g, playerID) && InHand(card, Hand(g)) && |g.discardPile| > 0 && Playable(card, Last(g.discardPile))
  }

  /** What PlayCard needs not to index out of range: a current player, a discard
      top once the hand check has passed, and enough cards for a draw card. */
  predicate CanPlay(g: GameRecord, playerID: string, card: Card)
  {
    && TurnValid(g)
    && (IsTurnOf(g, playerID) && InHand(card, Hand(g)) ==> |g.discardPile| > 0)
    && (Legal(g, playerID, card) ==> |g.drawPile| >= Penalty(card.value))
  }

  /** The played card goes on the discard pile and leaves the hand; the turn and the
      draw pile are untouched. */
  function Discard(g: GameRecord, card: Card): (d: GameRecord)
    requires TurnValid(g)
    ensures TurnValid(d) && |d.players| == |g.players| && d.currentPlayer == g.currentPlayer
    ensures d.drawPile == g.drawPile && d.discardPile == g.discardPile + [card]
  {
    WithHand(g, RemoveFirst(Hand(g), card)).(discardPile := g.discardPile + [card])
  }

  /** The special effect of a played card, applied before the turn's closing step:
      "S" takes an extra step, "D2" and "W4" step to the next player and make them
      draw 2 or 4 cards, "R" flips the direction. */
  function Effect(d: GameRecord, value: string): (r: GameRecord)
    requires TurnValid(d) && |d.drawPile| >= Penalty(value)
    ensures TurnValid(r) && |r.players| == |d.players|
    ensures r.discardPile == d.discardPile && r.status == d.status
  {
    if value == "S" then Advance(d)
    else if value == "D2" then DrawN(Advance(d), 2)
    else if value == "W4" then DrawN(Advance(d), 4)
    else if value == "R" then d.(direction := !d.direction)
    else d
  }

  /** PlayCard on a game value: a rejected play changes nothing; an accepted one puts
      the card on the discard pile, applies its effect and passes the turn. Only the
      player's hand and, for a draw card, the next player's hand change. */
  function Play(g: GameRecord, playerID: string, card: Card): (r: GameRecord)
    requires CanPlay(g, playerID, card)
    ensures TurnValid(r) && |r.players| == |g.players| && r.status == g.status
    ensures !Legal(g, playerID, card) ==> r == g
    ensures Legal(g, playerID, card) ==> r.discardPile == g.discardPile + [card]
    ensures Legal(g, playerID, card) ==>
              forall j ::
                (0 <= j < |g.players| && j != g.currentPlayer &&
                 (Penalty(card.value) > 0 ==> j != Next(g.currentPlayer, |g.players|, g.direction))) ==>
                r.players[j] == g.players[j]
  {
    if !Legal(g, playerID, card) then g
    else Advance(Effect(Discard(g, card), card.value))
  }

  /** A play that is out of turn, of a card not held, or of a card that does not
      match the discard top changes nothing. */
  lemma PlayRejected(g: GameRecord, playerID: string, card: Card)
    requires CanPlay(g, playerID, card)
    requires !IsTurnOf(g, playerID) || !InHand(card, Hand(g)) || !Playable(card, Last(g.discardPile))
    ensures Play(g, playerID, card) == g
  {
  }

  /** Discarding keeps the table and the card count. */
  lemma DiscardConserves(g: GameRecord, card: Card)
    requires TurnValid(g) && InHand(card, Hand(g))
    ensures var d := Discard(g, card);
      && TurnValid(d) && SameTable(g, d) && d.status == g.status
      && d.currentPlayer == g.currentPlayer && d.direction == g.direction
      && d.drawPile == g.drawPile
      && TotalCards(d) == TotalCards(g)
  {
    RemoveFirstOfHeld(Hand(g), card);
    HandsTotalUpdate(g.players, g.currentPlayer, g.players[g.currentPlayer].(cards := RemoveFirst(Hand(g), card)));
  }

  /** A card's special effect keeps the table and the card count. */
  lemma EffectConserves(d: GameRecord, value: string)
    requires TurnValid(d) && |d.drawPile| >= Penalty(value)
    ensures var e := Effect(d, value);
      SameTable(d, e) && e.status == d.status && e.discardPile == d.discardPile && TotalCards(e) == TotalCards(d)
  {
    if value == "D2" || value == "W4" {
      DrawNConserves(Advance(d), Penalty(value));
    }
  }

  /** Every play keeps the turn index in range, the seats and the number of cards. */
  lemma PlayConserves(g: GameRecord, playerID: string, card: Card)
    requires CanPlay(g, playerID, card)
    ensures var r := Play(g, playerID, card);
      TurnValid(r) && SameTable(g, r) && r.status == g.status && TotalCards(r) == TotalCards(g)
  {
    if Legal(g, playerID, card) {
      DiscardConserves(g, card);
      EffectConserves(Discard(g, card), card.value);
    }
  }

  /** An accepted play puts the card on the discard pile and takes one card from the
      player's hand: the first one equal to it, or of the same wild kind. With two or
      more players nothing is added to that hand; a lone player who plays "D2" or
      "W4" is the next player and takes the 2 or 4 cards into the same hand. */
  lemma PlayDiscards(g: GameRecord, playerID: string, card: Card)
    requires CanPlay(g, playerID, card) && Legal(g, playerID, card)
    ensures var r := Play(g, playerID, card); var h := Hand(g); var k := FirstRemovable(h, card);
      && k < |h| && Removes(h[k], card)
      && r.discardPile == g.discardPile + [card]
      && Last(r.discardPile) == card
      && (|g.players| >= 2 || Penalty(card.value) == 0 ==>
            r.players[g.currentPlayer].cards == h[..k] + h[k + 1..])
      && (|g.players| == 1 && Penalty(card.value) > 0 ==>
            r.players[0].cards == RemoveFirst(h, card) + TopCards(g.drawPile, Penalty(card.value)))
  {
    RemoveFirstOfHeld(Hand(g), card);
    var d := Discard(g, card);
    assert d.players[g.currentPlayer].cards == RemoveFirst(Hand(g), card);
    EffectKeepsHand(d, card.value);
  }

  /** A card's effect leaves the discard pile alone, and with two or more players
      it does not touch the hand of the player who played it. */
  lemma EffectKeepsHand(d: GameRecord, value: string)
    requires TurnValid(d) && |d.drawPile| >= Penalty(value)
    ensures var e := Effect(d, value);
      && e.discardPile == d.discardPile
      && (|d.players| >= 2 || Penalty(value) == 0 ==> e.players[d.currentPlayer] == d.players[d.currentPlayer])
  {
    if |d.players| >= 2 {
      NextMoves(d.currentPlayer, |d.players|, d.direction);
    }
  }

  /** How far each kind of card moves the turn. "S" moves two steps, "R" flips the
      direction and moves one step that way, "D2" and "W4" move two steps and take
      2 or 4 cards off the draw pile, any other card moves one step. */
  lemma PlayTurnEffect(g: GameRecord, playerID: string, card: Card)
    requires CanPlay(g, playerID, card) && Legal(g, playerID, card)
    ensures var r := Play(g, playerID, card); var i, n, fwd := g.currentPlayer, |g.players|, g.direction;
      && (card.value == "R" ==> r.direction == !fwd && r.currentPlayer == Next(i, n, !fwd))
      && (card.value != "R" ==> r.direction == fwd)
      && (card.value in {"S", "D2", "W4"} ==> r.currentPlayer == Next(Next(i, n, fwd), n, fwd))
      && (card.value !in {"S", "D2", "W4", "R"} ==> r.currentPlayer == Next(i, n, fwd))
      && r.drawPile == g.drawPile[..|g.drawPile| - Penalty(card.value)]
  {
  }

  /** The penalty of "D2" and "W4" goes to the player one step ahead, who takes the
      top 2 or 4 cards of the draw pile; no other player's hand changes. */
  lemma PenaltyGoesToNextPlayer(g: GameRecord, playerID: string, card: Card)
    requires CanPlay(g, playerID, card) && Legal(g, playerID, card)
    requires Penalty(card.value) > 0 && |g.players| >= 2
    ensures var r := Play(g, playerID, card); var v := Next(g.currentPlayer, |g.players|, g.direction);
      && |r.players| == |g.players|
      && r.players[v].cards == g.players[v].cards + TopCards(g.drawPile, Penalty(card.value))
      && (forall j :: 0 <= j < |g.players| && j != v && j != g.currentPlayer ==> r.players[j] == g.players[j])
  {
    NextMoves(g.currentPlayer, |g.players|, g.direction);
  }

  // ---------------------------------------------------------------------------
  // Drawing a card (DrawCard)
  // ---------------------------------------------------------------------------

  /** DrawCard by the current player on a game value: the draw pile loses its top
      card and the turn moves one step. */
  function Draw(g: GameRecord): (r: GameRecord)
    requires TurnValid(g) && |g.drawPile| > 0
    ensures TurnValid(r) && |r.players| == |g.players|
    ensures r.drawPile + [Last(g.drawPile)] == g.drawPile
    ensures r.currentPlayer == Next(g.currentPlayer, |g.players|, g.direction)
  {
    Advance(DrawN(g, 1))
  }

  /** Drawing moves the top card of the draw pile to the end of the current hand
      and passes the turn one step; no card is lost. */
  lemma DrawMovesTopCard(g: GameRecord)
    requires TurnValid(g) && |g.drawPile| > 0
    ensures var r := Draw(g);
      && r.players[g.currentPlayer].cards == Hand(g) + [Last(g.drawPile)]
      && r.drawPile + [Last(g.drawPile)] == g.drawPile
      && r.discardPile == g.discardPile
      && r.currentPlayer == Next(g.currentPlayer, |g.players|, g.direction)
      && TurnValid(r) && SameTable(g, r) && TotalCards(r) == TotalCards(g)
  {
    DrawNConserves(g, 1);
  }

  // ---------------------------------------------------------------------------
  // Dealing (DealCards)
  // ---------------------------------------------------------------------------

  /** The hand player `k` is dealt: the seven cards popped after the 7k before it. */
  function DealtHand(deck: seq<Card>, k: nat): (hand: seq<Card>)
    requires HandSize * (k + 1) <= |deck|
  {
    TopCards(deck[..|deck| - HandSize * k], HandSize)
  }

  /** Dealing player `k` leaves the deck cut 7 cards lower. */
  lemma DealtHandAt(deck: seq<Card>, k: nat)
    requires HandSize * (k + 1) <= |deck|
    ensures var top := deck[..|deck| - HandSize * k];
      DealtHand(deck, k) == TopCards(top, HandSize) && |top| >= HandSize &&
      top[..|top| - HandSize] == deck[..|deck| - HandSize * (k + 1)]
  {
  }

  /** What DealCards needs: a player to start (rand.Intn panics on 0), a starting
      index from [0, players) and a deck with a hand per player and a discard. */
  predicate CanDeal(g: GameRecord, deck: seq<Card>, start: int)
  {
    |g.players| >= 1 && 0 <= start < |g.players| && |deck| >= HandSize * |g.players| + 1
  }

  /** DealCards on a game value, with the shuffled deck and the starting player given:
      the chosen player starts, every player is dealt a hand, the next card goes on top
      of the old discard pile, the direction is kept and the game is playing. */
  function Deal(g: GameRecord, deck: seq<Card>, start: int): (r: GameRecord)
    requires CanDeal(g, deck, start)
    ensures TurnValid(r) && r.currentPlayer == start && r.status == "Playing"
    ensures |r.players| == |g.players|
    ensures forall k :: 0 <= k < |r.players| ==> r.players[k].cards == DealtHand(deck, k)
    ensures r.discardPile == g.discardPile + [deck[|deck| - HandSize * |g.players| - 1]]
    ensures r.direction == g.direction
  {
    var n := |g.players|;
    var rest := |deck| - HandSize * n;
    g.(currentPlayer := start,
       players := seq(n, k requires 0 <= k < n => g.players[k].(cards := DealtHand(deck, k))),
       drawPile := deck[..rest - 1],
       discardPile := g.discardPile + [deck[rest - 1]],
       status := "Playing")
  }

  /** After dealing every hand holds seven cards, the draw pile is what is left of the
      deck, one card went to the discard pile, and the total card count is the deck size
      plus the old discard pile. */
  lemma DealShape(g: GameRecord, deck: seq<Card>, start: int)
    requires CanDeal(g, deck, start)
    ensures var r := Deal(g, deck, start);
      && TurnValid(r) && SameTable(g, r) && r.status == "Playing"
      && (forall k :: 0 <= k < |r.players| ==> |r.players[k].cards| == HandSize)
      && |r.drawPile| == |deck| - HandSize * |g.players| - 1
      && |r.discardPile| == |g.discardPile| + 1
      && TotalCards(r) == |deck| + |g.discardPile|
  {
    var r := Deal(g, deck, start);
    HandsTotalUniform(r.players, HandSize);
  }

  /** All cards held in the players' hands. */
  function HandCards(ps: seq<Player>): (cards: multiset<Card>)
  {
    if ps == [] then multiset{} else HandCards(ps[..|ps| - 1]) + multiset(ps[|ps| - 1].cards)
  }

  /** The cards popped are the top `n` cards of the pile. */
  lemma {:induction false} TopCardsMultiset(pile: seq<Card>, n: nat)
    requires n <= |pile|
    ensures multiset(TopCards(pile, n)) == multiset(pile[|pile| - n..])
  {
    if n > 0 {
      var p := pile[..|pile| - 1];
      TopCardsMultiset(p, n - 1);
      assert p[|p| - (n - 1)..] == pile[|pile| - n..|pile| - 1];
      assert pile[|pile| - n..] == pile[|pile| - n..|pile| - 1] + [Last(pile)];
    }
  }

  /** The hand player `k` is dealt holds the deck's cards from 7(k+1) to 7k below the top. */
  lemma DealtHandCards(deck: seq<Card>, k: nat)
    requires HandSize * (k + 1) <= |deck|
    ensures multiset(DealtHand(deck, k)) == multiset(deck[|deck| - HandSize * (k + 1)..|deck| - HandSize * k])
  {
    var top := deck[..|deck| - HandSize * k];
    TopCardsMultiset(top, HandSize);
    assert top[|top| - HandSize..] == deck[|deck| - HandSize * (k + 1)..|deck| - HandSize * k];
  }

  /** Players whose hands hold, seven by seven, the deck's cards from the top down
      hold together the top 7·N cards of the deck. */
  lemma {:induction false} HandsFromDeck(ps: seq<Player>, deck: seq<Card>)
    requires HandSize * |ps| <= |deck|
    requires forall k :: 0 <= k < |ps| ==>
               multiset(ps[k].cards) == multiset(deck[|deck| - HandSize * (k + 1)..|deck| - HandSize * k])
    ensures HandCards(ps) == multiset(deck[|deck| - HandSize * |ps|..])
  {
    if ps != [] {
      var m := |ps| - 1;
      HandsFromDeck(ps[..m], deck);
      var lower, upper := |deck| - HandSize * |ps|, |deck| - HandSize * m;
      assert deck[lower..] == deck[lower..upper] + deck[upper..];
    }
  }

  /** Dealing uses exactly the deck: the draw pile is the deck below the dealt cards,
      the new discard top is the card above it, and the hands, the draw pile and that
      card together are the deck's cards. */
  lemma DealUsesDeck(g: GameRecord, deck: seq<Card>, start: int)
    requires CanDeal(g, deck, start)
    ensures var r, rest := Deal(g, deck, start), |deck| - HandSize * |g.players|;
      && r.drawPile == deck[..rest - 1]
      && Last(r.discardPile) == deck[rest - 1]
      && HandCards(r.players) + multiset(r.drawPile) + multiset{Last(r.discardPile)} == multiset(deck)
  {
    var r, rest := Deal(g, deck, start), |deck| - HandSize * |g.players|;
    forall k | 0 <= k < |r.players|
      ensures multiset(r.players[k].cards) == multiset(deck[|deck| - HandSize * (k + 1)..|deck| - HandSize * k])
    {
      DealtHandCards(deck, k);
    }
    HandsFromDeck(r.players, deck);
    assert deck == deck[..rest - 1] + [deck[rest - 1]] + deck[rest..];
  }

  /** One player and a 108-card deck: seven in hand, 100 left, one discarded. */
  lemma DealOnePlayer(g: GameRecord, deck: seq<Card>)
    requires |g.players| == 1 && |deck| == 108 && g.discardPile == []
    ensures CanDeal(g, deck, 0)
    ensures var r := Deal(g, deck, 0);
      |r.players[0].cards| == 7 && |r.drawPile| == 100 && |r.discardPile| == 1
  {
    DealShape(g, deck, 0);
  }

  /** Five players and a 216-card deck: seven each, 180 left, one discarded. */
  lemma DealFivePlayers(g: GameRecord, deck: seq<Card>, start: int)
    requires |g.players| == 5 && |deck| == 216 && g.discardPile == [] && 0 <= start < 5
    ensures CanDeal(g, deck, start)
    ensures var r := Deal(g, deck, start);
      (forall k :: 0 <= k < 5 ==> |r.players[k].cards| == 7) && |r.drawPile| == 180 && |r.discardPile| == 1
  {
    DealShape(g, deck, start);
  }
}
