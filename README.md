# Uno game server: turn engine and request operations

This project models the game logic of an Uno server in Dafny and proves properties of the model.

A game is a record with these parts:
- a draw pile and a discard pile, each with its top at the end;
- an ordered list of players, each holding a hand of cards;
- the index of the current player;
- a direction of play (`true` is forward);
- a status string.

The model covers two files:
- `server/service/uno.go`, the turn engine. It pops cards, deals seven cards to each player, steps the turn with wrap-around, checks a card against the hand and the discard top, plays a card with its effect, and draws a card.
- `server/uno.go`, the request layer. It checks that a player belongs to a game, starts a game, guards joining with a password, formats its two typed errors, and maps integers to colours.

Modules:
- `Model` holds the records (`Card`, `Player`, `GameRecord`), the Go errors (`Error`) and the class `Game`. The engine updates the fields of a `Game` in place. `Game.Record()` is its value.
- `Store` holds the class `Database`, which stands in for the game store. It keeps a map from game ID to game and a map from player ID to player. Lookups return a fresh `Game`. `SaveGame` stores a game's value, and `JoinGame` appends a registered player.
- `Rules` specifies the engine on game values: `Next`, `DrawN`, `Play`, `Effect`, `Draw` and `Deal`. Its lemmas state the properties: turn indices stay in range, cards are conserved, a rejected play changes nothing, and each card moves the turn a fixed number of steps.
- `Service` holds the methods of `server/service/uno.go`. `GoToNextPlayer`, `DrawNCards`, `ApplyEffect`, `RemoveFromHand`, `ApplyPlay`, `PlayCard`, `DrawCard` and `DealCards` change a `Game` with the source's own loops. Each is proved to leave exactly the game value that the matching `Rules` function gives. `DrawTopCard`, `DrawCardHelper` and `DealHand` state the pile they leave directly. `GetPlayer`, `CardFromPlayer` and `CheckForCardInHand` change nothing; they are loops proved against a search specification.
- `Server` holds the functions of `server/uno.go`.

Randomness and the unseen deck generator are inputs:
- `Service.DealCards` takes the starting index (standing for `rand.Intn`) and the shuffled deck (standing for `generateShuffledDeck`).
- `Rules.CanDeal` requires at least one player, a start index in range, and at least 7·N + 1 cards in the deck.

Where Go would panic, the operation has a precondition that excludes the panic:
- indexing an empty pile;
- `%` by zero;
- `rand.Intn(0)`.

For most operations the precondition is exactly the non-panicking condition. `PlayCard` needs a non-empty discard pile only when the turn and hand checks pass, because Go's `&&` short-circuits before it reads the discard top. Four members ask for more: `Rules.DrawN`, `Service.DrawNCards`, `Rules.Effect` and `Service.ApplyEffect` require a valid current index even when no card is drawn, where Go indexes no player. `Server.StartGame` has no precondition for a missing game, because it uses the corrected `updateGame` (see "## Findings").

Go's truncating `%` is written out as `Rules.GoRem`. As a result `GoToNextPlayer` needs no range precondition.

On the deck size, the code and the tests decide:
- The tests expect 100 cards left for one player and 180 for five players.
- That fits a 108-card deck and a 216-card deck.
- The deck size is not fixed in the model. `Rules.DealOnePlayer` and `Rules.DealFivePlayers` prove those two counts.

## Model

| member | source | states |
|---|---|---|
| Rules.Next | server/service/uno.go:221-233 | With N players and 0 ≤ i < N, the next index is in [0, N). Forward gives i+1, wrapping from N−1 to 0. Backward gives i−1, wrapping from 0 to N−1. |
| Rules.NextThenBack | server/uno_test.go:277-288 | One step in one direction and then one step in the other returns to the starting player. |
| Rules.NextMoves | server/service/uno.go:221-233 | With two or more players, a step always changes the current player. |
| Service.GoToNextPlayer | server/service/uno.go:221-233 | The new current index is `Next(old index, N, direction)`. Only the current index changes. |
| Service.DrawTopCard | server/service/uno.go:283-287 | On a non-empty draw pile, returns the last card. The new draw pile followed by that card is the old pile. |
| Service.DrawCardHelper | server/service/uno.go:17-23 | The draw pile loses its last card, and the player's hand gains that card at the end. |
| Rules.TopCards | server/service/uno.go:283-287 | The n cards popped from a pile have length n. The j-th one is the card j places below the top. |
| Rules.TopCardsStep | server/service/uno.go:235-242 | Popping n+1 cards is popping n cards and then the next card down. |
| Rules.DrawNoneIsIdentity | server/service/uno.go:235-242 | Drawing zero cards leaves the game unchanged. |
| Rules.DrawOne | server/service/uno.go:235-242 | Drawing one card moves the draw pile's top to the end of the current hand and leaves the rest of the pile. |
| Rules.DrawNStep | server/service/uno.go:235-242 | Drawing n+1 cards is drawing n cards and then one more. |
| Rules.DrawN | server/service/uno.go:235-242 | The current hand gains the top n cards in pop order, and the draw pile keeps everything below them. No other hand changes, and neither do the turn, the direction, the discard pile or the status. |
| Service.DrawNCards | server/service/uno.go:235-242 | The loop leaves the game `Rules.DrawN(old, n)`. The current player's hand gains the top n cards in pop order, the draw pile loses them, and nothing else changes. |
| Rules.DrawNConserves | server/service/uno.go:235-242 | Drawing keeps the turn, direction, discard pile, status, seats and total card count. |
| Rules.HandsTotalUpdate | server/service/uno.go:145 | Replacing one player changes the total of all hands by the change in that player's hand. |
| Rules.HandsTotalUniform | server/service/uno.go:254-263 | When every hand holds c cards, all hands hold c·N cards together. |
| Service.CheckForCardInHand | server/service/uno.go:182-190 | True iff some hand card has the requested value and either the same colour or a requested value of "W" or "W4". Equals `Rules.InHand`. |
| Service.CardFromPlayer | server/service/uno.go:38-49 | Returns −1 iff no card matches in both colour and value. Otherwise returns the index of the first card that does. |
| Service.GetPlayer | server/service/uno.go:27-34 | Returns none iff no player has the ID. Otherwise returns a copy of the first player with that ID. |
| Rules.Playable | server/service/uno.go:138 | A "W" or "W4" may go on any discard top. Any other card may go on it iff it shares the top's colour or value. |
| Rules.FirstRemovable | server/service/uno.go:143-148 | The removal loop's index is the first hand card equal to the played card, or sharing its "W"/"W4" value. It is the hand's length when there is none. |
| Rules.FoundWhenHeld | server/service/uno.go:138-148 | A card that passes CheckForCardInHand is always found by the removal loop. The card found has the played value, and equals the played card unless that card is wild. |
| Rules.RemoveFirstOfHeld | server/service/uno.go:143-148 | Removing a held card shortens the hand by one. The remaining cards plus the removed card are the old hand as a multiset. |
| Service.RemoveFromHand | server/service/uno.go:143-148 | The loop sets the current hand to `Rules.RemoveFirst(hand, card)`. |
| Rules.Effect | server/service/uno.go:150-166 | Each effect keeps the turn index in range and the number of players. |
| Service.ApplyEffect | server/service/uno.go:150-166 | The sequence of `if` blocks leaves the game `Rules.Effect(old, value)`. |
| Rules.EffectConserves | server/service/uno.go:150-166 | An effect keeps the seats, status, discard pile and total card count. |
| Rules.EffectKeepsHand | server/service/uno.go:150-166 | An effect leaves the discard pile alone. With two or more players it does not touch the hand of the player who played the card. |
| Service.ApplyPlay | server/service/uno.go:136-170 | The in-place play leaves the game `Rules.Play(old, playerID, card)`. |
| Rules.Play | server/service/uno.go:136-170 | The turn index stays in range, and the number of players and the status are kept. A play that is not legal leaves the game unchanged. A legal play adds exactly the played card to the discard pile. It leaves every hand unchanged except the player's and, for "D2" or "W4", the next player's. |
| Rules.PlayRejected | server/service/uno.go:136-138 | A play out of turn, of a card not in the hand, or of a card that fits neither the discard top's colour or value nor is wild leaves the game unchanged. |
| Rules.DiscardConserves | server/service/uno.go:141-148 | Discarding a held card keeps the turn, direction, draw pile, seats and total card count. |
| Rules.PlayConserves | server/service/uno.go:136-170 | Every play, accepted or not, keeps the turn index in range, the seats, the status and the total card count. |
| Rules.PlayDiscards | server/service/uno.go:141-161 | An accepted play adds exactly the played card to the top of the discard pile. The player's hand loses exactly the first removable card. A lone player who plays "D2" or "W4" is also the next player: that hand loses the card and then gains the top 2 or 4 cards of the draw pile. |
| Rules.PlayTurnEffect | server/service/uno.go:150-168 | A plain card moves the turn one step. "S", "D2" and "W4" move it two steps. "R" flips the direction and moves one step the new way. The draw pile loses exactly the penalty. |
| Rules.PenaltyGoesToNextPlayer | server/service/uno.go:154-162 | With two or more players, the player one step ahead gains the top 2 ("D2") or 4 ("W4") cards. Every other hand apart from the player's is unchanged. |
| Service.PlayCard | server/service/uno.go:123-180 | Returns no error. A missing game gives no game. Otherwise the game saved and returned is `Rules.Play` of the stored one, and it is saved even when the play is rejected. |
| Rules.Draw | server/service/uno.go:210-214 | The draw pile loses exactly its top card, and the turn moves one step in the current direction. The turn index stays in range. |
| Rules.DrawMovesTopCard | server/service/uno.go:210-214 | Drawing moves the top draw card to the end of the current hand and moves the turn one step. Discard pile, seats and card count are kept. |
| Service.DrawCard | server/service/uno.go:193-219 | A missing game gives neither game nor error. The wrong player gets "Wrong player", and nothing is saved. Otherwise the game saved and returned is `Rules.Draw` of the stored one. |
| Rules.DealtHandAt | server/service/uno.go:254-263 | Dealing player k takes seven cards from the deck cut 7k cards down, which leaves the deck cut 7(k+1) down. |
| Service.DealHand | server/service/uno.go:256-260 | The seven pops return the top seven cards in pop order and shorten the draw pile by seven. |
| Rules.Deal | server/service/uno.go:245-269 | Dealing makes the chosen player current and sets the status to "Playing". It keeps the number of players and the direction, and player k's hand becomes the k-th dealt hand. The old discard pile stays, with the next deck card on top of it. |
| Service.DealCards | server/service/uno.go:245-281 | The game becomes `Rules.Deal(old, deck, start)` and is saved. |
| Rules.DealShape | server/service/uno.go:245-270 | After dealing, every hand holds seven cards and the status is "Playing". The draw pile holds deck − 7N − 1 cards, and one card went to the discard pile. The total card count is the deck size plus the old discard pile. |
| Rules.TopCardsMultiset | server/service/uno.go:256-260 | The cards popped off a pile are, as a multiset, the pile's top n cards. |
| Rules.DealtHandCards | server/service/uno.go:254-261 | Player k's hand holds, as a multiset, the deck's cards between 7(k+1) and 7k below the top. |
| Rules.HandsFromDeck | server/service/uno.go:254-262 | When each hand holds its own block of seven deck cards, all hands together hold the top 7·N cards of the deck. |
| Rules.DealUsesDeck | server/service/uno.go:251-267 | The draw pile is the deck below the dealt cards, and the new discard top is the card just above it. The hands, the draw pile and that card together are exactly the deck's cards, as a multiset. |
| Rules.DealOnePlayer | server/uno_test.go:143-146 | One player and a 108-card deck: 7 in hand, 100 left, 1 discarded. |
| Rules.DealFivePlayers | server/uno_test.go:172-177 | Five players and a 216-card deck: 7 in each hand, 180 left, 1 discarded. |
| Server.Message | server/uno.go:16-26 | The text of an InvalidPasswordError ends with ": " followed by the rejected password. |
| Server.InvalidPasswordMessageParts | server/uno.go:16-18 | The text of an InvalidPasswordError is the wrapped error's text, then ": ", then the password. |
| Server.InvalidPasswordMessageInjective | server/uno.go:16-18 | Two password errors around the same error have the same text only when they carry the same password. |
| Server.ServerErrorTexts | server/uno.go:24-26 | An InvalidPlayerError reports its wrapped text unchanged, "Player not in game, cannot start". A password error reads "Invalid password: " followed by the password. |
| Server.RandColor | server/uno.go:31-43 | Non-empty iff 0 ≤ i < 4, and then one of "red", "blue", "green", "yellow". |
| Server.RandColorInjective | server/uno.go:31-43 | Distinct indices in [0, 4) give distinct colours. |
| Server.FindPlayer | server/uno.go:75-82 | The `found` flag is set iff some player has the requested ID. |
| Server.UpdateGame | server/uno.go:62-90 | As written. A missing game gives neither game nor error. A non-member gets InvalidPlayerError. A member gets the stored game unchanged. |
| Server.UpdateGameChecked | server/uno.go:62-90 | Corrected. Exactly one of a game and an error is returned, and a missing game gives the lookup error. Otherwise it behaves as UpdateGame. |
| Server.StartGame | server/uno.go:92-115 | Built on the corrected `UpdateGameChecked`, so a missing game gives the lookup error. An error is returned without saving. A member gets the stored game with only the status changed to "Playing", saved. A game already "Playing" is saved unchanged. |
| Server.JoinGame | server/uno.go:144-165 | A missing game gives the lookup error. A wrong password gives InvalidPasswordError carrying that password, and the store is unchanged. With the right password the store appends the registered player, or reports a missing player. |
| Server.PlayCard | server/uno.go:167-198 | Returns the stored game unchanged, or neither game nor error when it is missing. |
| Server.DrawCard | server/uno.go:200-222 | Returns the stored game unchanged, or neither game nor error when it is missing. |
| Server.DealCards | server/uno.go:224-260 | Returns the stored game unchanged, or neither game nor error when it is missing. |

## Left out

- `db.GetDb` and database failures are not modelled; the store never fails, so `SaveGame`'s error is always nil here. In the code that error is checked by `Service.PlayCard` (`server/service/uno.go:173-177`) and by `startGame` (`server/uno.go:108-112`). `Service.DealCards` returns it alongside the game without checking it (`server/service/uno.go:278-280`), and `Service.DrawCard` ignores it (`server/service/uno.go:216`).
- The database package and `server/db/MockDB.go` are not part of this model. The store is the class `Store.Database` over two maps, and its missing-key error `Missing(key)` stands for whatever error the real store returns.
- `Server.Message`: the text of a store error (`Missing`) is a stand-in; only the two typed errors of `server/uno.go` have their exact texts.
- `GetGameUpdate`, `CreatePlayer`, `CreateNewGame`, `JoinGame` and `CheckGameExists` in `server/service/uno.go`, and `createNewGame` in `server/uno.go`, are thin store wrappers and are not modelled.
- `server/routeHandlers.go` (HTTP routing and JSON payloads) is not modelled.
- Reshuffling an empty draw pile and a winning condition that stops the turn are not modelled: no code implements them, only the tests expect them.
- The commented-out logic in the stubs of `server/uno.go` is not modelled.
- `Service.GetPlayer` returns a copy of the player, as Go's `&item` of the loop variable does; the model has no aliasing into the game at all.
- `Service.DrawCardHelper` takes and returns the player as a value rather than updating a `*model.Player` in place. No shown code calls it, so nothing depends on which player record it would update.
- `Service.RemoveFromHand`: `append(hand[:index], hand[index+1:]...)` reuses the hand's backing array; the model builds a new sequence, so the effect on other slices sharing that array is not captured.
- Integer width: `CurrentPlayer` is an unbounded `int`; 64-bit overflow of `CurrentPlayer++` is not modelled.
- The missing-game paths in `Service.PlayCard`, `Service.DrawCard` and the `Server` stubs return no game and no error, as the code does. They are modelled as written and not corrected. No shown code calls `Service.PlayCard` or `Service.DrawCard`. The stubs are called only by the HTTP handlers (`server/routeHandlers.go:213`, `234`), which are not modelled.
- `Server.StartGame` uses `Server.UpdateGameChecked`, not the `updateGame` as written. For a game missing from the store it returns the lookup error and saves nothing. The code as written gets neither a game nor an error from `updateGame` (`server/uno.go:71-73`), and then reads `Status` through the nil game at `server/uno.go:104`, which panics.

## Findings

| source | as written | input that shows it | evidently intended | confidence | as-written member | corrected member |
|---|---|---|---|---|---|---|
| server/uno.go:71-73 | On a failed lookup `updateGame` returns `nil, err`, where `err` is the nil error of `db.GetDb`, so the caller gets no game and no error | `startGame` with a game ID not in the store: `updateGame` returns `(nil, nil)`, `startGame` sees no error and dereferences the nil `gameData` to read `gameData.Status` | return the lookup error `gameErr`, so that exactly one of game and error is set | high (read from the code; not executed) | Server.UpdateGame | Server.UpdateGameChecked |
