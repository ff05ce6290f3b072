# UNO game sessions, modelled and proved in Dafny

The system is a Spring Boot back end for multiplayer UNO. Players are registered with
a unique name and a coin balance. A player creates a game under a six-digit code and
others join it. The game starts on its own once enough players are in. The session
engine then:

- builds the 108-card deck;
- deals seven cards to each active player;
- turns up an opening card;
- runs the turns: playing a card (with its skip, reverse and forced-draw effects),
  drawing, calling UNO and leaving;
- logs every step as a numbered event.

Snapshots of a game are sent to clients. Each snapshot shows only the viewer's own
hand. Frames go out over STOMP, and two small helpers make sure each frame ends in NUL.

The model, module by module:

- **Card rules** (`UnoGameRules`) are pure functions over a `Card` datatype.
- **Session engine.** A game is a `class Game` in `GameEntity`. Its fields hold the
  status, seats, direction, memberships (`seq<GamePlayer>`), cards (`seq<Card>`, a card's
  id being its index) and event log. `GameSetup`, `GameStart`, `GameLobby`, `GameDraw`
  and `GamePlay` hold the service operations as methods on that object. Each method is
  proved against a specification function (`Dealt`, `Drawn`, `Reshuffled`,
  `PlayedCards`, and the `TurnState` functions on a `Table` value). Lemmas then show that
  these functions keep the game invariant `Game.Valid()`:
  - seats in range, at most four, and players distinct;
  - every card consistent, at most one top card, and exactly one once play has begun;
  - events numbered 1..k.
- **Repository queries** are filter, sort and count functions over those sequences.
- **Snapshots** (`GameResponses`, `GamePlayerDtos`, `CardDtos`) are pure mappings.
- **Player registry.** `PlayerService.Registry` is a class over a table of rows
  (`seq<Player>`) and the next id to hand out.
- **STOMP helpers.** `StompFrame` covers the text frames. `StompProtocol` covers the byte
  arrays, with an `array` copy loop, and the re-termination step of `preSend`. The
  framing follows the STOMP Protocol Specification 1.2, sections "STOMP Frames" and
  "Header content-length".

Randomness is a parameter:

- `ORDER BY RANDOM()` is a caller-supplied permutation `rank` of the card ids, so any
  shuffle can be modelled.
- The game code generator receives its sequence of random draws.

Where the code departs from the usual UNO rules, the model follows the code:

- **Opening card.** The first non-wild card of the shuffled deck is turned up, so it may
  be a SKIP, REVERSE or DRAW_TWO. It is not the first NUMBER card.
- **Turn rotation.** The turn and the "next player" run over all memberships, inactive
  ones included. They do not run over the active ones only.
- **Draw cards.** A DRAW_TWO or WILD_DRAW_FOUR moves the turn three seats. The next seat
  draws and is skipped, and then the turn moves twice more (`TurnState.PlayTurn`).
  - With three players, seat 0 playing DRAW_TWO gets the turn back. It does not pass
    to seat 2.
  - With two players, REVERSE is not the same as SKIP (`TurnState.TwoSeatTurns`).
- **Start.** `startGame` does not reset `currentPlayerIndex` or the direction. They keep
  their values from before the start.
- **Short draw.** When the deck and discard pile together hold fewer cards than are
  drawn, the card counter still grows by the full count.
- **Forced draw before win check.** A DRAW_TWO or WILD_DRAW_FOUR played as the last card
  makes the next seat draw before the game is won.

## Model

| member | source | states |
|---|---|---|
| CardEntity.NewCard | src/main/java/com/example/demo/entity/Card.java:49-55 | a new card carries the given type, colour and value, lies in the deck, is not the top card, has no owner and no hand position |
| UnoGameRules.CanPlayCard | src/main/java/com/example/demo/util/UnoGameRules.java:13-42 | false when either card is absent; true for a wild candidate; for any other candidate, true exactly when it has the top card's colour, the same action type, or the same number as a NUMBER top card |
| UnoGameRules.WildAlwaysPlayable | src/main/java/com/example/demo/util/UnoGameRules.java:18-22 | a card needing a colour choice can be played on any top card |
| UnoGameRules.IsPlayableOn | src/main/java/com/example/demo/entity/Card.java:57-59 | a card's own playability test gives the same answer as the rule, and is false with no top card |
| UnoGameRules.IsValidColorChoice | src/main/java/com/example/demo/util/UnoGameRules.java:44-47 | true exactly for RED, BLUE, GREEN and YELLOW; never for WILD or an absent colour |
| UnoGameRules.CardKinds | src/main/java/com/example/demo/util/UnoGameRules.java:49-81 | action card ⇔ not NUMBER ⇔ not a valid opening card (lines 124-127); colour choice ⇔ wild; draw count 2 exactly for DRAW_TWO and 4 exactly for WILD_DRAW_FOUR; skip exactly for SKIP, DRAW_TWO, WILD_DRAW_FOUR; every drawing card skips; REVERSE neither skips nor draws |
| UnoGameRules.ShouldCallUnoRule | src/main/java/com/example/demo/util/UnoGameRules.java:83-85 | agrees with the membership's own test: one card left and no call yet |
| UnoGameRules.HasWonRule | src/main/java/com/example/demo/util/UnoGameRules.java:87-89 | agrees with the membership's own test: no card left on the counter |
| UnoGameRules.CanStartGame | src/main/java/com/example/demo/util/UnoGameRules.java:91-94 | agrees with the game's `canStart`: between minPlayers and maxPlayers memberships, inactive ones counted |
| UnoGameRules.IsGameFull | src/main/java/com/example/demo/util/UnoGameRules.java:96-98 | agrees with the game's `isFull`: at least maxPlayers memberships, inactive ones counted |
| UnoGameRules.HasPlayableCard | src/main/java/com/example/demo/util/UnoGameRules.java:100-102 | true exactly when some card of the hand may be played on the top card |
| UnoGameRules.GetCardPoints | src/main/java/com/example/demo/util/UnoGameRules.java:108-122 | a NUMBER card scores its number, SKIP/REVERSE/DRAW_TWO 20, a wild card 50 |
| UnoGameRules.CalculateScore | src/main/java/com/example/demo/util/UnoGameRules.java:104-106 | an empty hand scores 0; a hand of real cards scores between 0 and 50 per card |
| UnoGameRules.ScoreConcat | src/main/java/com/example/demo/util/UnoGameRules.java:104-106 | the score is additive: two hands together score the sum of their scores |
| UnoGameRules.ScoreExample | src/test/java/com/example/demo/util/UnoGameRulesTest.java:162-171 | RED 5, a SKIP and a WILD score 75 |
| UnoGameRules.GetCardDescription | src/main/java/com/example/demo/util/UnoGameRules.java:129-138 | the description is the card view's display name, so a wild card reads as its type whatever colour it was given |
| UnoGameRules.CanChallengeWildDrawFour | src/main/java/com/example/demo/util/UnoGameRules.java:140-149 | false unless the played card is WILD_DRAW_FOUR; then true exactly when the previous hand held a card of the top card's colour |
| CardDtos.FromEntity | src/main/java/com/example/demo/dto/CardDto.java:21-29 | the view copies the card's id, type, colour, number and hand position unchanged |
| CardDtos.DisplayName | src/main/java/com/example/demo/dto/CardDto.java:31-39 | "<COLOR> <number>" for a NUMBER card; the type name with underscores as spaces for a wild card; "<COLOR> <TYPE>" otherwise |
| CardDtos.GetDisplayName | src/main/java/com/example/demo/dto/CardDto.java:31-39 | a view's display name depends only on its type, colour and number |
| CardDtos.DisplayNameExamples | src/main/java/com/example/demo/dto/CardDto.java:31-39 | "WILD" and "WILD DRAW FOUR" whatever the colour; "RED DRAW TWO", "YELLOW SKIP", "GREEN 7" |
| CardDtos.DisplayNameInjective | src/main/java/com/example/demo/dto/CardDto.java:31-39 | equal display names of real faces mean the same type and, for cards that are not wild, the same colour and number |
| Deck.DeckComposition | src/main/java/com/example/demo/service/GameService.java:134-166 | the built deck holds, per colour, one 0, two of each 1-9 and two each of SKIP, REVERSE and DRAW_TWO, and four WILD and four WILD_DRAW_FOUR coloured WILD, and nothing else |
| Deck.StandardDeckNew | src/main/java/com/example/demo/service/GameService.java:134-166 | every card of a new deck is in the deck, not on top, nobody's and has its number exactly when it is a NUMBER card |
| GameSetup.BuildDeck | src/main/java/com/example/demo/service/GameService.java:135-161 | the nested loops produce exactly the standard deck, card by card |
| GameSetup.CreateDeck | src/main/java/com/example/demo/service/GameService.java:134-166 | the game's cards become the old cards followed by the standard deck; nothing else changes |
| GameStart.FreshDeck | src/main/java/com/example/demo/service/GameService.java:134-166 | the new deck has 108 cards, all in the deck, none on top, none in a hand |
| GameEntity.Game.constructor | src/main/java/com/example/demo/entity/Game.java:68-73 | a new game waits for players, with 4 seats, a minimum of 2, seat 0 current, clockwise, no winner, no memberships, cards or events |
| GameEntity.Game.GetCurrentPlayer | src/main/java/com/example/demo/entity/Game.java:83-88 | absent exactly when there is no membership or the index is past the last one; otherwise the membership at the index |
| GameEntity.Game.GetTopCard | src/main/java/com/example/demo/entity/Game.java:105-110 | the first card flagged as top, absent exactly when no card is |
| GameEntity.Game.MoveToNextPlayer | src/main/java/com/example/demo/entity/Game.java:90-98 | no move with no memberships; otherwise one seat on in the direction of play, staying in range; no other field changes |
| GameEntity.Game.ReverseDirection | src/main/java/com/example/demo/entity/Game.java:100-103 | the direction flips; no other field changes |
| GameEntity.JavaRem | src/main/java/com/example/demo/entity/Game.java:90-98 | Java's remainder agrees with the mathematical one on a non-negative dividend |
| GameEntity.NextIndexInRange | src/main/java/com/example/demo/entity/Game.java:90-98 | a seat in range stays in range; clockwise wraps from the last seat to 0, counter-clockwise from 0 to the last |
| GameEntity.NextIndexInverse | src/main/java/com/example/demo/entity/Game.java:90-98 | a clockwise move undone by a counter-clockwise move and vice versa |
| GameEntity.TwoSeatsSameNext | src/main/java/com/example/demo/entity/Game.java:90-98 | with two seats both directions reach the same seat |
| GameEntity.FlipTwice | src/main/java/com/example/demo/entity/Game.java:100-103 | reversing twice restores the direction |
| GamePlayerEntity.NewGamePlayer | src/main/java/com/example/demo/entity/GamePlayer.java:45-53 | a new membership is the given player's, at the given order, active, with no cards and no UNO call |
| GamePlayerEntity.GetHand | src/main/java/com/example/demo/entity/GamePlayer.java:55-67 | a permutation of the player's cards that are neither in the deck nor on top, ordered by hand position with unpositioned cards last |
| GamePlayerDtos.HandIds | src/main/java/com/example/demo/entity/GamePlayer.java:55-67 | the hand lists each held card exactly once and has the size of the hand query |
| GamePlayerDtos.HandView | src/main/java/com/example/demo/dto/GamePlayerDto.java:35-39 | the hand view is the hand, card view by card view, in hand order |
| GamePlayerDtos.HandViewIsHand | src/main/java/com/example/demo/dto/GamePlayerDto.java:35-39 | the hand view shows every held card once, nothing else, ordered by hand position |
| GamePlayerDtos.FromEntity | src/main/java/com/example/demo/dto/GamePlayerDto.java:25-42 | the membership's fields are copied, the stored card counter included; a hand is present exactly when asked for, and then is the hand view |
| GameResponses.PlayerViews | src/main/java/com/example/demo/dto/GameResponse.java:56-59 | one view per membership, in membership order, inactive ones included |
| GameResponses.FromEntity | src/main/java/com/example/demo/dto/GameResponse.java:34-72 | the scalar fields are copied. Each player view carries its membership's player, order, active flag, card counter and UNO flag. The hand is present exactly for the viewer, and it then holds the viewer's held cards in hand order. A top card is present exactly when the game has one. It is the first card flagged top, shown with that card's type, colour, number and position. The deck size is the number of deck cards |
| GameResponses.OnlyViewerSeesHand | src/main/java/com/example/demo/dto/GameResponse.java:55-59 | only the viewer's own membership carries a hand, and none does without a viewer |
| CardRepository.FindDeckCards | src/main/java/com/example/demo/repository/CardRepository.java:15 | exactly the game's cards in the deck, each once |
| CardRepository.FindPlayerHandCards | src/main/java/com/example/demo/repository/CardRepository.java:17 | exactly the player's cards neither in the deck nor on top, each once |
| CardRepository.FindTopCard | src/main/java/com/example/demo/repository/CardRepository.java:19 | a card exactly when some card is on top, and then the only one |
| CardRepository.FindDeckCardsRandomOrder | src/main/java/com/example/demo/repository/CardRepository.java:21-22 | a permutation of the deck cards, in the order the random ranks give |
| CardRepository.CountPlayerCards | src/main/java/com/example/demo/repository/CardRepository.java:24-25 | the size of the hand query |
| CardRepository.FindDiscardPileCards | src/main/java/com/example/demo/repository/CardRepository.java:27-28 | exactly the cards in no hand, not in the deck and not on top, each once |
| CardRepository.DiscardExcludesTopAndHands | src/main/java/com/example/demo/repository/CardRepository.java:27-28 | the discard pile never holds the top card nor a card of any hand |
| GamePlayerRepository.FindAllByOrder | src/main/java/com/example/demo/repository/GamePlayerRepository.java:15 | every membership once, ascending by playerOrder |
| GamePlayerRepository.FindByPlayer | src/main/java/com/example/demo/repository/GamePlayerRepository.java:17 | the player's membership, absent exactly when there is none, and the only one when players are distinct |
| GamePlayerRepository.FindActivePlayers | src/main/java/com/example/demo/repository/GamePlayerRepository.java:19-20 | exactly the active memberships, each once, ascending by playerOrder |
| GamePlayerRepository.CountActivePlayers | src/main/java/com/example/demo/repository/GamePlayerRepository.java:22-23 | the length of the active list |
| GamePlayerRepository.ExistsByPlayer | src/main/java/com/example/demo/repository/GamePlayerRepository.java:25 | true exactly when the player has a membership, active or not |
| GameEventRepository.FindOrdered | src/main/java/com/example/demo/repository/GameEventRepository.java:14 | all events, ascending by sequence number |
| GameEventRepository.FindByType | src/main/java/com/example/demo/repository/GameEventRepository.java:16 | exactly the events of the type, ascending by sequence number |
| GameEventRepository.GetLastSequenceNumber | src/main/java/com/example/demo/repository/GameEventRepository.java:18-19 | 0 on an empty log, otherwise the largest sequence number logged |
| GameEventRepository.FindEventsAfterSequence | src/main/java/com/example/demo/repository/GameEventRepository.java:21-22 | exactly the events numbered above the bound, ascending |
| GameEventRepository.LastOfNumbered | src/main/java/com/example/demo/repository/GameEventRepository.java:18-19 | on a log numbered 1..k the last number is k |
| GameEventRepository.AppendKeepsNumbered | src/main/java/com/example/demo/repository/GameEventRepository.java:18-19 | an event numbered last + 1 keeps the log numbered 1..k+1 |
| GameEventRepository.AfterOfNumbered | src/main/java/com/example/demo/repository/GameEventRepository.java:21-22 | on a numbered log the events after k are its suffix from position k, so after 0 is the whole log |
| GameRepository.FindByGameCode | src/main/java/com/example/demo/repository/GameRepository.java:16 | a game with the code, absent exactly when no game has it |
| GameRepository.ExistsByGameCode | src/main/java/com/example/demo/repository/GameRepository.java:18 | true exactly when the code lookup finds a game |
| GameRepository.FindByStatus | src/main/java/com/example/demo/repository/GameRepository.java:20 | exactly the games with the status, each once |
| GameRepository.FindAvailableGames | src/main/java/com/example/demo/repository/GameRepository.java:22-23 | exactly the games with the status and fewer memberships, inactive included, than seats |
| GameRepository.AvailableAreNotFull | src/main/java/com/example/demo/repository/GameRepository.java:22-23 | an available game is one of that status and is not full |
| GameRepository.FindPlayerActiveGames | src/main/java/com/example/demo/repository/GameRepository.java:25-26 | exactly the games the player has a membership of with a status in the list, each once |
| GameRepository.FindGamesByCreator | src/main/java/com/example/demo/repository/GameRepository.java:28-29 | exactly the games the player created, each once |
| EventLog.Logged | src/main/java/com/example/demo/service/GameService.java:214-218 | logging adds exactly one event |
| EventLog.LoggedNumbered | src/main/java/com/example/demo/service/GameService.java:214-218 | on a log numbered 1..k the new event is numbered k + 1 and the log stays numbered |
| EventLog.LogGameEvent | src/main/java/com/example/demo/service/GameService.java:214-218 | the game's log gains the event under the next sequence number; nothing else changes |
| Strings.SixDigitsRoundTrip | src/main/java/com/example/demo/service/GameService.java:206-212 | a draw below one million formats as six digits that read back as the draw |
| Strings.SixDigitsInjective | src/main/java/com/example/demo/service/GameService.java:206-212 | different draws give different codes |
| GameLobby.FirstUnused | src/main/java/com/example/demo/service/GameService.java:207-210 | the do-while stops at the first candidate not in use |
| GameLobby.GenerateGameCode | src/main/java/com/example/demo/service/GameService.java:206-212 | the code is the first drawn one not in use, six digits reading back as its draw |
| GameLobby.NewCodeFindsNewGame | src/main/java/com/example/demo/service/GameService.java:30-51 | a game saved under an unused code is the one the code lookup finds |
| GameLobby.NewGame | src/main/java/com/example/demo/service/GameService.java:30-51 | a waiting game with the requested seat limits, the creator's active membership in seat 0, and GAME_CREATED logged as event 1 |
| GameLobby.CreateGame | src/main/java/com/example/demo/service/GameService.java:30-51 | an unknown creator is refused; otherwise a valid new game under a code no game had, answered with the creator's view |
| GameLobby.JoinCheck | src/main/java/com/example/demo/service/GameService.java:57-72 | no refusal exactly when the player is registered and the game is waiting, not full and without a membership of the player; otherwise the first failing check's message |
| GameLobby.CheckJoin | src/main/java/com/example/demo/service/GameService.java:57-72 | the checks, on the game object, give the refusal `JoinCheck` names |
| GameLobby.SeatedKeepsInvariant | src/main/java/com/example/demo/service/GameService.java:74-82 | seating keeps the invariant; the joiner's membership is last, active, ordered after the active ones, and the only one of the player |
| GameLobby.SeatPlayer | src/main/java/com/example/demo/service/GameService.java:74-82 | the membership is added and PLAYER_JOINED logged, as `Seated` says |
| GameLobby.StartsAtMinimum | src/main/java/com/example/demo/service/GameService.java:99-102 | when nobody has left, the join reaching minPlayers starts the game and no earlier one does; with minPlayers above maxPlayers no join does |
| GameLobby.StartIfReady | src/main/java/com/example/demo/service/GameService.java:99-102 | the game starts exactly when `canStart` holds and enough memberships are active; otherwise it is unchanged; it stays valid |
| GameLobby.OpenedHands | src/main/java/com/example/demo/service/GameService.java:107-132 | in a freshly started game every active player holds seven cards, as the counter says |
| GameLobby.JoinOutcomeKeepsInvariant | src/main/java/com/example/demo/service/GameService.java:53-105 | a successful join keeps the invariant; the game is under way exactly when the join made enough players, then with seven cards per active player and one card up |
| GameLobby.JoinAction | src/main/java/com/example/demo/service/GameService.java:74-104 | the player is seated, the view is taken before the start, and the game starts if ready; it stays valid |
| GameLobby.JoinGame | src/main/java/com/example/demo/service/GameService.java:57-105 | a refusal leaves the game unchanged and returns the message; otherwise the outcome of `JoinAction`; the game stays valid |
| GameLobby.JoinGameByCode | src/main/java/com/example/demo/service/GameService.java:53-55 | "Game not found" and no change when no game has the code; otherwise the outcome of `JoinGame` on the game found, every other game unchanged |
| GameLobby.GetGame | src/main/java/com/example/demo/service/GameService.java:221-226 | "Game not found" exactly when no game has the code; otherwise a view of a game with that code |
| GameLobby.AvailableGamesSound | src/main/java/com/example/demo/service/GameService.java:228-234 | every listed view is of a waiting game with a free seat and shows no hand |
| GameLobby.AvailableGamesComplete | src/main/java/com/example/demo/service/GameService.java:228-234 | every waiting game that is not full is listed |
| GameLobby.PlayerGamesSound | src/main/java/com/example/demo/service/GameService.java:236-246 | every listed view is of a waiting or running game listing the player among its memberships |
| GameLobby.PlayerGamesComplete | src/main/java/com/example/demo/service/GameService.java:236-246 | every waiting or running game the player has a membership of is listed with the player's own view |
| GameLobby.ViewShowsMember | src/main/java/com/example/demo/service/GameService.java:236-246 | a game's view lists the viewer's own membership |
| CardMoves.DealtEffect | src/main/java/com/example/demo/service/GameService.java:168-188 | the m-th card of the shuffled deck goes to the (m / 7)-th active membership's player at position m mod 7; no other card changes; the deck shrinks by the number dealt |
| CardMoves.DealtFlags | src/main/java/com/example/demo/service/GameService.java:168-188 | the deal keeps every card consistent and changes no top flag |
| GameSetup.DealHand | src/main/java/com/example/demo/service/GameService.java:176-184 | the inner loop gives up to seven cards, at positions 0..6, while the deck order lasts |
| GameSetup.DealInOrder | src/main/java/com/example/demo/service/GameService.java:170-187 | the loops give card m of the order to listed membership m / 7 at position m mod 7, and set each listed counter to 7 |
| GameSetup.DealInitialCards | src/main/java/com/example/demo/service/GameService.java:168-188 | the cards become `Dealt` of the shuffled deck and every active counter becomes 7 |
| GameStart.DealtHands | src/main/java/com/example/demo/service/GameService.java:168-188 | after the deal on a fresh deck each active player holds exactly seven cards and every other player none |
| GameStart.DealtDeck | src/main/java/com/example/demo/service/GameService.java:168-188 | the deal takes seven deck cards per active membership, keeps cards consistent, and sets no top card |
| GameStart.DeckLeftAfterDeal | src/main/java/com/example/demo/service/GameService.java:168-204 | with at most four memberships the deck still holds a card for the opening card |
| GameStart.FirstNonWild | src/main/java/com/example/demo/service/GameService.java:194-198 | the first non-wild card of the order, absent exactly when every card listed is wild |
| GameStart.FirstCardId | src/main/java/com/example/demo/service/GameService.java:190-204 | a deck card, not wild unless every deck card is wild |
| GameStart.FirstCardEffect | src/main/java/com/example/demo/service/GameService.java:190-204 | the chosen card becomes the only top card, the deck loses one card, no hand changes |
| GameStart.SetFirstCard | src/main/java/com/example/demo/service/GameService.java:190-204 | the cards become `WithFirstCard` of the shuffled deck; nothing else changes |
| GameStart.StartingCardsFacts | src/main/java/com/example/demo/service/GameService.java:107-132 | a started game has 108 cards, exactly one on top, seven in each active player's hand and none in others, and 108 - 7k - 1 in the deck |
| GameStart.PrepareCards | src/main/java/com/example/demo/service/GameService.java:111-118 | building, dealing and turning up give the starting cards and set every active counter to 7 |
| GameStart.StartGame | src/main/java/com/example/demo/service/GameService.java:107-132 | the game is IN_PROGRESS with the starting cards and counters, GAME_STARTED is logged with the membership count, and it stays valid |
| CardMoves.ReshuffledEffect | src/main/java/com/example/demo/service/GameService.java:411-420 | exactly the discard pile goes back into the deck; hands and the top card stay |
| CardMoves.ReshuffledDeckCount | src/main/java/com/example/demo/service/GameService.java:411-420 | the new deck is the old deck plus the old discard pile |
| CardMoves.ReshuffledHands | src/main/java/com/example/demo/service/GameService.java:411-420 | a reshuffle leaves every hand as it was |
| CardMoves.ReshuffledOk | src/main/java/com/example/demo/service/GameService.java:411-420 | a reshuffle keeps every card consistent and the top card where it is |
| GameDraw.ReshuffleDiscardPile | src/main/java/com/example/demo/service/GameService.java:411-420 | the loop makes the cards `Reshuffled` and logs DECK_RESHUFFLED with the pile's size |
| GameDraw.GetNextPlayer | src/main/java/com/example/demo/service/GameService.java:356-364 | the seat `moveToNextPlayer` would move to, over all memberships, wrapping at either end |
| CardMoves.DrawnCountValue | src/main/java/com/example/demo/service/GameService.java:388-409 | a draw hands out `count` cards, or everything the deck and discard pile hold when that is less |
| CardMoves.DrawnCards | src/main/java/com/example/demo/service/GameService.java:397-405 | the cards handed out are the first of the draw order, at positions from the counter on; the deck shrinks by their number |
| CardMoves.DrawnHands | src/main/java/com/example/demo/service/GameService.java:388-409 | the drawing player's hand grows by the number handed out and no other hand changes |
| CardMoves.DrawnOk | src/main/java/com/example/demo/service/GameService.java:388-409 | a draw keeps every card consistent and the top card where it is |
| GameDraw.DrawDeckOrder | src/main/java/com/example/demo/service/GameService.java:389-395 | a reshuffle happens exactly when the deck is short, then the deck is taken in random order |
| GameDraw.GiveInOrder | src/main/java/com/example/demo/service/GameService.java:397-403 | the loop gives the first `count` cards of the order (fewer when short) to the player at consecutive positions |
| GameDraw.DrawCardsForPlayer | src/main/java/com/example/demo/service/GameService.java:388-409 | the cards become `Drawn`, the seat's counter grows by the full count, and the log gains CARD_DRAWN after any reshuffle entry |
| GameDraw.DrawLogNumbered | src/main/java/com/example/demo/service/GameService.java:388-409 | a draw's log entries keep the log numbered and end in CARD_DRAWN |
| GameDraw.DrawKeepsInvariant | src/main/java/com/example/demo/service/GameService.java:388-409 | a draw keeps the game invariant |
| CardPlay.OnTopCard | src/main/java/com/example/demo/service/GameService.java:286-304 | the played card is out of the deck and of the hand, on top, and recoloured exactly when wild with a colour chosen |
| CardPlay.PlayedCardsShape | src/main/java/com/example/demo/service/GameService.java:286-306 | the played card is on top; the only other card that changes is the previous top card, which is put down |
| CardPlay.PlayedCardsFlags | src/main/java/com/example/demo/service/GameService.java:286-306 | after a play the played card is the single top card and the previous one is on the discard pile |
| CardPlay.PlayedDeckCount | src/main/java/com/example/demo/service/GameService.java:286-306 | a play leaves the deck as it was |
| CardPlay.PlayedHandCount | src/main/java/com/example/demo/service/GameService.java:286-306 | a play takes one card from its hand and leaves every other hand as it was |
| CardPlay.PlayedPileCount | src/main/java/com/example/demo/service/GameService.java:286-306 | the discard pile gains the previous top card, if any |
| GamePlay.PutOnTop | src/main/java/com/example/demo/service/GameService.java:286-306 | the cards become `PlayedCards` and the card returned is the played one as on top |
| GamePlay.PutCardDown | src/main/java/com/example/demo/service/GameService.java:286-316 | the game becomes `CardDown`: card on top, counter down, UNO call reset, CARD_PLAYED logged |
| GamePlay.HandleCardEffect | src/main/java/com/example/demo/service/GameService.java:339-354 | the game becomes `Effect` of the played card |
| GamePlay.EndGame | src/main/java/com/example/demo/service/GameService.java:422-429 | the game is FINISHED with the winner and GAME_WON is logged; nothing else changes |
| GamePlay.FinishPlay | src/main/java/com/example/demo/service/GameService.java:321-334 | the game becomes `Finish`: won when the counter is 0, else the turn moves once or twice |
| GamePlay.PlayCardAction | src/main/java/com/example/demo/service/GameService.java:286-337 | the game becomes `PlayOutcome` and stays valid |
| GamePlay.CheckPlay | src/main/java/com/example/demo/service/GameService.java:248-284 | the guards, on the game object, give the refusal `PlayCardCheck` names |
| GamePlay.PlayCard | src/main/java/com/example/demo/service/GameService.java:252-284 | a refused play changes nothing and returns the message; otherwise the game becomes `PlayOutcome`; it stays valid |
| GamePlay.PlayCardByCode | src/main/java/com/example/demo/service/GameService.java:248-250 | "Game not found" and no change when no game has the code; otherwise the outcome of `PlayCard` on the game found, every other game unchanged |
| GamePlay.DrawCard | src/main/java/com/example/demo/service/GameService.java:370-386 | a refused draw changes nothing; otherwise the game becomes `DrawOutcome`; it stays valid |
| GamePlay.DrawCardByCode | src/main/java/com/example/demo/service/GameService.java:366-368 | "Game not found" and no change when no game has the code; otherwise the outcome of `DrawCard` on the game found, every other game unchanged |
| GamePlay.FlagUno | src/main/java/com/example/demo/service/GameService.java:446-450 | the game becomes `CallUnoOutcome` |
| GamePlay.CallUno | src/main/java/com/example/demo/service/GameService.java:435-453 | a refused call changes nothing; otherwise the membership is flagged; the game stays valid |
| GamePlay.CallUnoByCode | src/main/java/com/example/demo/service/GameService.java:431-433 | "Game not found" and no change when no game has the code; otherwise the outcome of `CallUno` on the game found, every other game unchanged |
| GamePlay.LeaveSeat | src/main/java/com/example/demo/service/GameService.java:459-473 | the game becomes `Left` |
| GamePlay.EndIfAbandoned | src/main/java/com/example/demo/service/GameService.java:475-489 | the game becomes `Abandoned` |
| GamePlay.LeaveGame | src/main/java/com/example/demo/service/GameService.java:459-492 | a refused leave changes nothing; otherwise the game becomes `LeaveOutcome`; it stays valid |
| GamePlay.LeaveGameByCode | src/main/java/com/example/demo/service/GameService.java:455-457 | "Game not found" and no change when no game has the code; otherwise the outcome of `LeaveGame` on the game found, every other game unchanged |
| TurnState.TopOf | src/main/java/com/example/demo/entity/Game.java:105-110 | a top card exactly when some card is on top |
| TurnState.PlayCardCheck | src/main/java/com/example/demo/service/GameService.java:248-284 | "Game is not in progress" when not running; no refusal exactly when running, the player's turn, the card held by the player, playable on the top card, and a valid colour chosen for a wild |
| TurnState.DrawCardCheck | src/main/java/com/example/demo/service/GameService.java:370-377 | no refusal exactly when the game is running and it is the player's turn |
| TurnState.CallUnoCheck | src/main/java/com/example/demo/service/GameService.java:435-444 | no refusal exactly when the game is running and the player has a membership with one card |
| TurnState.LeaveCheck | src/main/java/com/example/demo/service/GameService.java:459-460 | no refusal exactly when the player has a membership, whatever the status |
| TurnState.EffectKeepsInvariant | src/main/java/com/example/demo/service/GameService.java:339-354 | a card effect keeps the invariant, the status, the winner, the card count and the seating |
| TurnState.EffectTurn | src/main/java/com/example/demo/service/GameService.java:339-354 | REVERSE flips the direction; a drawing card moves the turn once, to the seat that drew |
| TurnState.EffectSparesPlayer | src/main/java/com/example/demo/service/GameService.java:339-354 | with two seats or more the seat that draws is another one |
| TurnState.CardDownKeepsInvariant | src/main/java/com/example/demo/service/GameService.java:286-316 | putting a held card on top keeps the invariant |
| TurnState.FinishKeepsInvariant | src/main/java/com/example/demo/service/GameService.java:321-334 | the end of a play keeps the invariant |
| TurnState.FinishTurn | src/main/java/com/example/demo/service/GameService.java:321-334 | the end of a play keeps the direction and, unless won, moves the turn once or twice |
| TurnState.PlayKeepsInvariant | src/main/java/com/example/demo/service/GameService.java:286-337 | a play keeps the invariant |
| TurnState.PlayTurn | src/main/java/com/example/demo/service/GameService.java:319-334 | unless won, the turn moves two seats after SKIP, three after DRAW_TWO or WILD_DRAW_FOUR, one otherwise, after REVERSE has flipped the direction |
| TurnState.PlayWin | src/main/java/com/example/demo/service/GameService.java:319-325 | a play wins exactly when it was the player's last card; the player is then the winner and GAME_WON the last event |
| TurnState.TwoSeatTurns | src/main/java/com/example/demo/service/GameService.java:319-334 | with two seats a drawing card gives the turn to the seat that drew, SKIP gives it back to the player, REVERSE passes it on |
| TurnState.DrawOutcomeKeepsInvariant | src/main/java/com/example/demo/service/GameService.java:366-386 | a voluntary draw keeps the invariant |
| TurnState.DrawOutcomeHands | src/main/java/com/example/demo/service/GameService.java:366-386 | the drawer's counter grows by one and the hand by the card drawn, if any; other hands stay; the turn moves once |
| TurnState.CallUnoKeepsInvariant | src/main/java/com/example/demo/service/GameService.java:431-453 | calling UNO keeps the invariant and the caller no longer should call it |
| TurnState.LeaveKeepsInvariant | src/main/java/com/example/demo/service/GameService.java:455-492 | leaving keeps the invariant |
| TurnState.LeaveMemberships | src/main/java/com/example/demo/service/GameService.java:462-473 | only the leaver's membership turns inactive; a waiting game is cancelled exactly when the creator leaves |
| TurnState.AbandonedEnds | src/main/java/com/example/demo/service/GameService.java:475-489 | a running game ends exactly when fewer than two memberships are active, won by an active member if any, and by the one left when only one is |
| TurnState.LeaveEnds | src/main/java/com/example/demo/service/GameService.java:455-492 | leaving a running game ends it exactly when fewer than two active memberships remain, never won by the leaver |
| PlayerEntity.AddInt | src/main/java/com/example/demo/service/PlayerService.java:79-86 | Java `int` addition: the exact sum when it fits, wrapped by 2^32 otherwise |
| PlayerRepository.RowOf | src/main/java/com/example/demo/service/PlayerService.java:39-44 | the row holding the id, absent exactly when no row does |
| PlayerRepository.ExistsIffFound | src/main/java/com/example/demo/repository/PlayerRepository.java:15-17 | a name exists exactly when the name lookup finds a player, and the found player has that name |
| PlayerRepository.NameLookupUnique | src/main/java/com/example/demo/entity/Player.java:19-20 | with unique names the name lookup finds the one player holding the name |
| PlayerRepository.LeaderboardSorted | src/main/java/com/example/demo/repository/PlayerRepository.java:19-20 | the leaderboard is a permutation of the table, richest first |
| PlayerRepository.LeaderboardOfSorted | src/main/java/com/example/demo/repository/PlayerRepository.java:19-20 | a table already richest first is its own leaderboard |
| PlayerRepository.MinCoinsExact | src/main/java/com/example/demo/repository/PlayerRepository.java:22-23 | a player is listed exactly when in the table with at least the minimum, as often as there |
| PlayerService.Responses | src/main/java/com/example/demo/dto/PlayerResponse.java:17-23 | one response per player, in order, each player's response present |
| PlayerService.CreateKeepsTable | src/main/java/com/example/demo/service/PlayerService.java:21-29 | a new row under the next id keeps names and ids unique and is found by name and id |
| PlayerService.UpdateKeepsTable | src/main/java/com/example/demo/service/PlayerService.java:53-68 | keeping the name or taking a free one keeps the table well formed and the row found by id and name |
| PlayerService.RenameClash | src/main/java/com/example/demo/service/PlayerService.java:57-62 | renaming to another player's name would break name uniqueness |
| PlayerService.DeleteKeepsTable | src/main/java/com/example/demo/service/PlayerService.java:88-93 | deleting keeps the table well formed, its id and name are no longer found, other rows still are |
| PlayerService.Registry.CreatePlayer | src/main/java/com/example/demo/service/PlayerService.java:21-29 | a taken name is refused with its message and nothing changes; otherwise a row with the next id, name and coins is added |
| PlayerService.Registry.AllPlayersListed | src/main/java/com/example/demo/service/PlayerService.java:31-37 | each listed player is what its id finds |
| PlayerService.Registry.GetPlayerById | src/main/java/com/example/demo/service/PlayerService.java:39-44 | the not-found error exactly when no row has the id; otherwise that row's player |
| PlayerService.Registry.GetPlayerByName | src/main/java/com/example/demo/service/PlayerService.java:46-51 | the not-found error exactly when the name does not exist; otherwise the player with that name |
| PlayerService.Registry.UpdatePlayer | src/main/java/com/example/demo/service/PlayerService.java:53-68 | an unknown id or a rename to a taken name is refused and nothing changes; otherwise the row gets the name and coins |
| PlayerService.Registry.UpdatePlayerCoins | src/main/java/com/example/demo/service/PlayerService.java:70-77 | an unknown id is refused; otherwise only the balance changes, to the given value |
| PlayerService.Registry.AddCoinsToPlayer | src/main/java/com/example/demo/service/PlayerService.java:79-86 | an unknown id is refused; otherwise only the balance changes, to the 32-bit sum |
| PlayerService.Registry.DeletePlayer | src/main/java/com/example/demo/service/PlayerService.java:88-93 | an unknown id is refused; otherwise the row is removed and the id lookup then fails |
| PlayerService.Registry.GetPlayersOrderByCoins | src/main/java/com/example/demo/service/PlayerService.java:95-101 | every player, with non-increasing balances |
| PlayerService.Registry.GetPlayersWithMinCoins | src/main/java/com/example/demo/service/PlayerService.java:103-109 | exactly the players holding at least the minimum |
| Utf8.Encode | src/main/java/com/example/demo/config/StompFrameHandler.java:98-101 | the UTF-8 encoding has the byte length the content-length header counts |
| Utf8.EncodeLastByte | src/main/java/com/example/demo/config/StompProtocolHandler.java:73-79 | a text's encoding ends in byte 0 exactly when the text ends in NUL |
| StompFrame.CommandName | src/main/java/com/example/demo/config/StompFrameHandler.java:86 | a command name is a non-empty single line |
| StompFrame.EnsureStompFrameTermination | src/main/java/com/example/demo/config/StompFrameHandler.java:65-77 | null and empty frames unchanged; otherwise the frame is a prefix of the result, which ends in NUL and is at most one longer, and unchanged when already terminated |
| StompFrame.TerminationIdempotent | src/main/java/com/example/demo/config/StompFrameHandler.java:65-77 | terminating twice is terminating once |
| StompFrame.ContentLengthHeader | src/main/java/com/example/demo/config/StompFrameHandler.java:89-101 | destination and content type appear in that order when present; content-length is present exactly when there is a body, last, and reads back as the body's UTF-8 length |
| StompFrame.CreateStompFrame | src/main/java/com/example/demo/config/StompFrameHandler.java:82-117 | the builder produces the command line, the header lines, a blank line, the body and one NUL |
| StompFrame.FrameRoundTrip | src/main/java/com/example/demo/config/StompFrameHandler.java:82-117 | a receiver reading the frame gets back the command, the headers in order and the body |
| StompProtocol.TerminatedBytes | src/main/java/com/example/demo/config/StompProtocolHandler.java:145-163 | empty unchanged; otherwise ends in 0, keeps the input as prefix, at most one longer, unchanged when already terminated |
| StompProtocol.TerminatedBytesIdempotent | src/main/java/com/example/demo/config/StompProtocolHandler.java:145-163 | terminating twice is terminating once |
| StompProtocol.TerminationCommutes | src/main/java/com/example/demo/config/StompProtocolHandler.java:145-163 | terminating text then encoding it equals encoding it then terminating the bytes |
| StompProtocol.EnsureStompFrameTermination | src/main/java/com/example/demo/config/StompProtocolHandler.java:145-163 | null stays null; the contents are the terminated bytes; a fresh array exactly when a 0 was appended, else the same array |
| StompProtocol.PreSend | src/main/java/com/example/demo/config/StompProtocolHandler.java:22-127 | a settled message is passed on unchanged; otherwise its payload becomes terminated bytes, and a MESSAGE frame gets content-length = new length - 1 |
| StompProtocol.TextContentLength | src/main/java/com/example/demo/config/StompProtocolHandler.java:69-99 | for a text payload the content-length set is the text's UTF-8 length |

## Left out

- Controllers, the WebSocket services, the STOMP interceptor and converter, the WebSocket configuration and the data initializer: HTTP/STOMP routing, broadcasting and start-up data; every broadcast in `GameService` is a no-op here.
- `StompFrameHandler.handleMessage` and its lifecycle overrides, and the header-accessor logging in `preSend`: Spring plumbing and console output.
- Timestamps (`createdAt`, `startedAt`, `finishedAt`, `joinedAt`): clock values, dropped.
- Randomness: `ORDER BY RANDOM()` is a permutation argument and `new Random()` a sequence of draws; nothing about their distribution is modelled.
- Event payloads: the JSON strings become a small `EventData` record; player names are left out of them.
- Concurrency and transactions: the model is sequential.
- Persistence: `save`, `findById` and lazy loading are the identity on the in-memory state; `ON DELETE` effects of deleting a player who has games are not modelled.
- Database ids: a game's cards and memberships are identified by their index; player ids are unbounded naturals rather than `Long`.
- The game snapshot refers to players by id; the name and coins of `PlayerResponse` are not copied into it.
- Java's signed bytes are shown as unsigned values 0..255.
- Strings are sequences of Unicode scalar values, not Java's UTF-16 code units: a lone surrogate, which `getBytes(UTF_8)` replaces by `?`, cannot be expressed, so `Utf8.Encode` covers well-formed text only.
- A NUMBER card without a number: the playability and scoring rules (`UnoGameRules.CanPlayCard`, `IsPlayableOn`, `HasPlayableCard`, `GetCardPoints`) require every NUMBER card to carry one. Java would accept such a card on a top card of the same colour and throw otherwise. No card the deck builder creates lacks a number.
- GameLobby.CreateGame: the request's seat limits are taken as validated (maxPlayers in 2..4, minPlayers at least 2), and some random draw must give a free code, because the source draws forever otherwise.
- GamePlay.PlayCard: a card id is looked up among the game's own cards only, and any other id is answered "Card not found". The source's `findById` searches the cards of every game and checks only who holds the card (GameService.java:261-266). For a card of another game, the source therefore refuses it as "Card does not belong to you" when another player holds it. It throws a NullPointerException when nobody holds it. It plays it when the same player holds it there and it matches the top card, which leaves both games inconsistent. None of these cases is modelled.
- TurnState.PlayWin: stated for games with two seats or more, because with one seat the forced draw of a DRAW_TWO or WILD_DRAW_FOUR lands on the player who just played.
- PlayerService.Registry.GetPlayersOrderByCoins: the order of players with equal balances is table order; the database leaves it unspecified.
- StompFrame.FrameRoundTrip: holds for destination and content type without a newline; the code does not escape header values as section "Value Encoding" of STOMP 1.2 requires.
- StompProtocol.PreSend: a byte payload is taken to be valid UTF-8; the replacement of malformed bytes when Java decodes them is not modelled.
