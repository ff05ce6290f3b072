/**
 * The moves of a running game session, as the service performs them on a `Game`:
 * playing a card, drawing, calling UNO and leaving. Each move checks its guards in
 * the service's order and either fails with the service's message, changing nothing,
 * or changes the game as the matching function of `TurnState` says.
 */
module GamePlay {
  import opened Wrappers
  import opened Seqs
  import opened Enums
  import opened CardEntity
  import opened GamePlayerEntity
  import opened GameEventEntity
  import opened CardRepository
  import opened GamePlayerRepository
  import opened GameEntity
  import opened CardMoves
  import opened EventLog
  import opened CardPlay
  import opened GameDraw
  import opened UnoGameRules
  import opened GameResponses
  import opened TurnState
  import opened GameRepository

  /** `endGame`: the game is finished, won by `winner`, and GAME_WON is logged. */
  method EndGame(g: Game, winner: PlayerId)
    modifies g`status, g`winner, g`events
    ensures unchanged(g`gameCode, g`maxPlayers, g`minPlayers, g`currentPlayerIndex, g`direction, g`createdBy, g`gamePlayers, g`cards)
    ensures g.status == Finished && g.winner == Some(winner)
    ensures g.events == Logged(old(g.events), Some(winner), GameWon, NoData)
  {
    g.status := Finished;
    g.winner := Some(winner);
    LogGameEvent(g, Some(winner), GameWon, NoData);
  }

  /** `handleCardEffect` of card `c`, played from the current seat. */
  method HandleCardEffect(g: Game, c: Card, rank1: seq<nat>, rank2: seq<nat>)
    requires Drawable(TableOf(g), rank1, rank2)
    modifies g`direction, g`cards, g`gamePlayers, g`events, g`currentPlayerIndex
    ensures unchanged(g`gameCode, g`createdBy)
    ensures TableOf(g) == Effect(old(TableOf(g)), c, rank1, rank2)
  {
    ghost var t0 := TableOf(g);
    if CausesReverse(c) {
      var player := g.gamePlayers[g.currentPlayerIndex].player;
      g.ReverseDirection();
      LogGameEvent(g, Some(player), DirectionReversed, NoData);
    }
    assert TableOf(g) == Reversed(t0, c);
    var drawCount := GetCardDrawCount(c);
    if drawCount > 0 {
      var next := GetNextPlayer(g);
      var victim := g.gamePlayers[next].player;
      DrawCardsForPlayer(g, next, drawCount, rank1, rank2);
      LogGameEvent(g, Some(victim), ForcedDraw, Count(drawCount));
      g.MoveToNextPlayer();
    }
  }

  /**
   * `playCardAction` on the cards: card `id` leaves its hand, the previous top card goes
   * down, and the card goes on top, recoloured when wild and a colour was chosen.
   */
  method PutOnTop(g: Game, id: nat, chosenColor: Option<CardColor>) returns (played: Card)
    requires id < |g.cards|
    modifies g`cards
    ensures g.cards == PlayedCards(old(g.cards), id, chosenColor)
    ensures played == OnTop(old(g.cards[id]), chosenColor)
  {
    g.cards := g.cards[id := TakenOut(g.cards[id])];
    var oldTop := g.GetTopCard();
    if oldTop.Some? {
      g.cards := g.cards[oldTop.value := PutDown(g.cards[oldTop.value])];
    }
    played := g.cards[id].(isTopCard := true);
    if (played.cardType == Wild || played.cardType == WildDrawFour) && chosenColor.Some? {
      played := played.(color := chosenColor.value);
    }
    g.cards := g.cards[id := played];
  }

  /**
   * The first part of `playCardAction`: the card goes on top, the player's counter goes
   * down, the UNO call is reset and CARD_PLAYED is logged.
   */
  method PutCardDown(g: Game, id: nat, chosenColor: Option<CardColor>) returns (played: Card)
    requires 0 <= g.currentPlayerIndex < |g.gamePlayers| && id < |g.cards|
    modifies g`cards, g`gamePlayers, g`events
    ensures unchanged(g`gameCode, g`createdBy)
    ensures TableOf(g) == CardDown(old(TableOf(g)), id, chosenColor)
    ensures played == OnTop(old(g.cards[id]), chosenColor)
  {
    var q := g.currentPlayerIndex;
    var gp := g.gamePlayers[q];
    played := PutOnTop(g, id, chosenColor);
    g.gamePlayers := g.gamePlayers[q := gp.(cardsCount := gp.cardsCount - 1, hasCalledUno := false)];
    LogGameEvent(g, Some(gp.player), CardPlayed, Played(played.cardType, played.color, played.value, chosenColor));
  }

  /**
   * The end of `playCardAction`: when the player of seat `q` has no card left, `endGame`
   * with that player as winner; otherwise the turn moves on twice after a skipping card
   * and once after any other.
   */
  method FinishPlay(g: Game, q: nat, played: Card)
    requires q < |g.gamePlayers|
    modifies g`status, g`winner, g`events, g`currentPlayerIndex
    ensures unchanged(g`gameCode, g`createdBy)
    ensures TableOf(g) == Finish(old(TableOf(g)), q, played)
  {
    if HasWonRule(g.gamePlayers[q]) {
      EndGame(g, g.gamePlayers[q].player);
      return;
    }
    ghost var i0 := g.currentPlayerIndex;
    ghost var n, d := |g.gamePlayers|, g.direction;
    assert Steps(i0, n, d, 1) == NextIndex(Steps(i0, n, d, 0), n, d);
    g.MoveToNextPlayer();
    if CausesSkip(played) {
      assert Steps(i0, n, d, 2) == NextIndex(Steps(i0, n, d, 1), n, d);
      g.MoveToNextPlayer();
    }
  }

  /** A game whose fields form a valid table is valid. */
  lemma ValidTable(g: Game)
    requires TableOk(TableOf(g))
    ensures g.Valid()
  {
  }

  /**
   * `playCardAction`: card `id`, held by the current player, is played; its effect is
   * applied; then either the player has won or the turn moves on.
   */
  method PlayCardAction(g: Game, id: nat, chosenColor: Option<CardColor>, rank1: seq<nat>, rank2: seq<nat>)
    requires g.Valid() && g.status == InProgress && id < |g.cards| && g.cards[id].owner.Some?
    requires IsRank(rank1, |g.cards|) && IsRank(rank2, |g.cards|)
    modifies g`status, g`winner, g`direction, g`cards, g`gamePlayers, g`events, g`currentPlayerIndex
    ensures unchanged(g`gameCode, g`createdBy)
    ensures TableOf(g) == PlayOutcome(old(TableOf(g)), id, chosenColor, rank1, rank2)
    ensures g.Valid()
  {
    ghost var t0 := TableOf(g);
    PlayKeepsInvariant(t0, id, chosenColor, rank1, rank2);
    assert CardOk(g.cards[id]);
    var q := g.currentPlayerIndex;
    var played := PutCardDown(g, id, chosenColor);
    HandleCardEffect(g, played, rank1, rank2);
    FinishPlay(g, q, played);
    ValidTable(g);
  }

  /** `getTopCard` followed by the card itself. */
  method TopCard(g: Game) returns (top: Option<Card>)
    ensures top == TopOf(g.cards)
  {
    var k := g.GetTopCard();
    top := if k.Some? then Some(g.cards[k.value]) else None;
  }

  /** The guards of `playCard`, checked one after the other as the service does. */
  method CheckPlay(g: Game, cardId: nat, player: PlayerId, chosenColor: Option<CardColor>) returns (check: Option<string>)
    requires g.Valid()
    ensures check == PlayCardCheck(TableOf(g), cardId, player, chosenColor)
  {
    if g.status != InProgress {
      return Some("Game is not in progress");
    }
    var current := g.GetCurrentPlayer();
    if current.None? || g.gamePlayers[current.value].player != player {
      return Some("It's not your turn");
    }
    if cardId >= |g.cards| {
      return Some("Card not found");
    }
    var card := g.cards[cardId];
    if card.owner.None? {
      return Some("NullPointerException");
    }
    if card.owner.value != player {
      return Some("Card does not belong to you");
    }
    var top := TopCard(g);
    if !CanPlayCard(Some(card), top) {
      return Some("Card cannot be played on current top card");
    }
    if RequiresColorChoice(card) && !IsValidColorChoice(chosenColor) {
      return Some("Valid color choice required for wild cards");
    }
    return None;
  }

  /**
   * `playCard`: the guards of `PlayCardCheck` in order, then the play; the answer is the
   * game as the player sees it.
   */
  method PlayCard(g: Game, cardId: nat, player: PlayerId, chosenColor: Option<CardColor>, rank1: seq<nat>, rank2: seq<nat>)
    returns (r: Result<GameResponse, string>)
    requires g.Valid() && IsRank(rank1, |g.cards|) && IsRank(rank2, |g.cards|)
    modifies g`status, g`winner, g`direction, g`cards, g`gamePlayers, g`events, g`currentPlayerIndex
    ensures unchanged(g`gameCode, g`createdBy)
    ensures var check := PlayCardCheck(old(TableOf(g)), cardId, player, chosenColor);
            match check
            case Some(message) => r == Err(message) && TableOf(g) == old(TableOf(g))
            case None => r == Ok(FromEntity(g, Some(player)))
                         && TableOf(g) == PlayOutcome(old(TableOf(g)), cardId, chosenColor, rank1, rank2)
    ensures g.Valid()
  {
    var check := CheckPlay(g, cardId, player, chosenColor);
    if check.Some? {
      return Err(check.value);
    }
    PlayCardAction(g, cardId, chosenColor, rank1, rank2);
    r := Ok(FromEntity(g, Some(player)));
  }

  /** `drawCard`: the guards of `DrawCardCheck`, then one card for the current player and the turn moves on. */
  method DrawCard(g: Game, player: PlayerId, rank1: seq<nat>, rank2: seq<nat>) returns (r: Result<GameResponse, string>)
    requires g.Valid() && IsRank(rank1, |g.cards|) && IsRank(rank2, |g.cards|)
    modifies g`cards, g`gamePlayers, g`events, g`currentPlayerIndex
    ensures unchanged(g`gameCode, g`createdBy)
    ensures var check := DrawCardCheck(old(TableOf(g)), player);
            match check
            case Some(message) => r == Err(message) && TableOf(g) == old(TableOf(g))
            case None => r == Ok(FromEntity(g, Some(player))) && TableOf(g) == DrawOutcome(old(TableOf(g)), rank1, rank2)
    ensures g.Valid()
  {
    if g.status != InProgress {
      return Err("Game is not in progress");
    }
    var current := g.GetCurrentPlayer();
    if current.None? || g.gamePlayers[current.value].player != player {
      return Err("It's not your turn");
    }
    ghost var t0 := TableOf(g);
    DrawOutcomeKeepsInvariant(t0, rank1, rank2);
    DrawCardsForPlayer(g, current.value, 1, rank1, rank2);
    g.MoveToNextPlayer();
    r := Ok(FromEntity(g, Some(player)));
  }

  /** The membership `k` of the player is flagged as having called UNO and UNO_CALLED is logged. */
  method FlagUno(g: Game, player: PlayerId, k: nat)
    requires FindByPlayer(g.gamePlayers, player) == Some(k)
    modifies g`gamePlayers, g`events
    ensures unchanged(g`gameCode, g`createdBy)
    ensures TableOf(g) == CallUnoOutcome(old(TableOf(g)), player)
  {
    g.gamePlayers := g.gamePlayers[k := g.gamePlayers[k].(hasCalledUno := true)];
    LogGameEvent(g, Some(player), UnoCalled, NoData);
  }

  /** `callUno`: the guards of `CallUnoCheck`, then the player's membership is flagged. */
  method CallUno(g: Game, player: PlayerId) returns (r: Result<GameResponse, string>)
    requires g.Valid()
    modifies g`gamePlayers, g`events
    ensures unchanged(g`gameCode, g`createdBy)
    ensures var check := CallUnoCheck(old(TableOf(g)), player);
            match check
            case Some(message) => r == Err(message) && TableOf(g) == old(TableOf(g))
            case None => r == Ok(FromEntity(g, Some(player))) && TableOf(g) == CallUnoOutcome(old(TableOf(g)), player)
    ensures g.Valid()
  {
    if g.status != InProgress {
      return Err("Game is not in progress");
    }
    var k := FindByPlayer(g.gamePlayers, player);
    if k.None? {
      return Err("Player not in this game");
    }
    if g.gamePlayers[k.value].cardsCount != 1 {
      return Err("You can only call UNO when you have exactly 1 card");
    }
    CallUnoKeepsInvariant(TableOf(g), player);
    FlagUno(g, player, k.value);
    ValidTable(g);
    r := Ok(FromEntity(g, Some(player)));
  }

  /**
   * The first part of `leaveGame`: the membership `k` of the player turns inactive,
   * PLAYER_LEFT is logged, and a waiting game its creator leaves is cancelled.
   */
  method LeaveSeat(g: Game, player: PlayerId, k: nat)
    requires FindByPlayer(g.gamePlayers, player) == Some(k)
    modifies g`status, g`gamePlayers, g`events
    ensures unchanged(g`gameCode, g`createdBy)
    ensures TableOf(g) == Left(old(TableOf(g)), g.createdBy, player)
  {
    g.gamePlayers := g.gamePlayers[k := g.gamePlayers[k].(isActive := false)];
    LogGameEvent(g, Some(player), PlayerLeft, NoData);
    if g.status == WaitingForPlayers && g.createdBy == player {
      g.status := Cancelled;
    }
  }

  /**
   * The end of `leaveGame`: a running game with fewer than two active memberships is
   * finished, won by the first active one in seat order if any.
   */
  method EndIfAbandoned(g: Game)
    modifies g`status, g`winner, g`events
    ensures unchanged(g`gameCode, g`createdBy)
    ensures TableOf(g) == Abandoned(old(TableOf(g)))
  {
    ghost var t0 := TableOf(g);
    var activePlayers := CountActivePlayers(g.gamePlayers);
    if g.status == InProgress && activePlayers < 2 {
      g.status := Finished;
      var remaining := FirstActive(g.gamePlayers);
      if remaining.Some? {
        g.winner := remaining;
      }
      LogGameEvent(g, None, GameEndedInsufficientPlayers, NoData);
      assert TableOf(g) == Abandoned(t0);
    }
  }

  /**
   * `leaveGame`: the guard of `LeaveCheck`, then the membership turns inactive, a waiting
   * game its creator leaves is cancelled and a running game short of players ends.
   */
  method LeaveGame(g: Game, player: PlayerId) returns (r: Result<GameResponse, string>)
    requires g.Valid()
    modifies g`status, g`winner, g`gamePlayers, g`events
    ensures unchanged(g`gameCode, g`createdBy)
    ensures var check := LeaveCheck(old(TableOf(g)), player);
            match check
            case Some(message) => r == Err(message) && TableOf(g) == old(TableOf(g))
            case None => r == Ok(FromEntity(g, Some(player))) && TableOf(g) == LeaveOutcome(old(TableOf(g)), g.createdBy, player)
    ensures g.Valid()
  {
    var k := FindByPlayer(g.gamePlayers, player);
    if k.None? {
      return Err("Player not in this game");
    }
    LeaveKeepsInvariant(TableOf(g), g.createdBy, player);
    LeaveSeat(g, player, k.value);
    EndIfAbandoned(g);
    ValidTable(g);
    r := Ok(FromEntity(g, Some(player)));
  }

  /**
   * `playCard` as the service receives it, with the game named by its code: "Game not
   * found" when no game has the code, otherwise `PlayCard` on the game found, which is
   * the only game that may change.
   */
  method PlayCardByCode(games: seq<Game>, code: string, cardId: nat, player: PlayerId, chosenColor: Option<CardColor>,
                        rank1: seq<nat>, rank2: seq<nat>)
    returns (r: Result<GameResponse, string>)
    requires forall i :: 0 <= i < |games| ==> games[i].Valid()
    requires FindByGameCode(games, code).Some? ==>
               var g := games[FindByGameCode(games, code).value];
               IsRank(rank1, |g.cards|) && IsRank(rank2, |g.cards|)
    modifies games
    ensures match old(FindByGameCode(games, code))
            case None => r == Err("Game not found") && unchanged(games)
            case Some(i) =>
              (forall j :: 0 <= j < |games| && games[j] != games[i] ==> unchanged(games[j]))
              && old(games[i].Valid()) && games[i].Valid()
              && (match PlayCardCheck(old(TableOf(games[i])), cardId, player, chosenColor)
                  case Some(message) => r == Err(message) && TableOf(games[i]) == old(TableOf(games[i]))
                  case None => r == Ok(FromEntity(games[i], Some(player)))
                               && TableOf(games[i]) == PlayOutcome(old(TableOf(games[i])), cardId, chosenColor, rank1, rank2))
  {
    var found := FindByGameCode(games, code);
    if found.None? {
      return Err("Game not found");
    }
    r := PlayCard(games[found.value], cardId, player, chosenColor, rank1, rank2);
  }

  /** `drawCard` with the game named by its code: "Game not found", or `DrawCard` on the game found. */
  method DrawCardByCode(games: seq<Game>, code: string, player: PlayerId, rank1: seq<nat>, rank2: seq<nat>)
    returns (r: Result<GameResponse, string>)
    requires forall i :: 0 <= i < |games| ==> games[i].Valid()
    requires FindByGameCode(games, code).Some? ==>
               var g := games[FindByGameCode(games, code).value];
               IsRank(rank1, |g.cards|) && IsRank(rank2, |g.cards|)
    modifies games
    ensures match old(FindByGameCode(games, code))
            case None => r == Err("Game not found") && unchanged(games)
            case Some(i) =>
              (forall j :: 0 <= j < |games| && games[j] != games[i] ==> unchanged(games[j]))
              && old(games[i].Valid()) && games[i].Valid()
              && (match DrawCardCheck(old(TableOf(games[i])), player)
                  case Some(message) => r == Err(message) && TableOf(games[i]) == old(TableOf(games[i]))
                  case None => r == Ok(FromEntity(games[i], Some(player)))
                               && TableOf(games[i]) == DrawOutcome(old(TableOf(games[i])), rank1, rank2))
  {
    var found := FindByGameCode(games, code);
    if found.None? {
      return Err("Game not found");
    }
    r := DrawCard(games[found.value], player, rank1, rank2);
  }

  /** `callUno` with the game named by its code: "Game not found", or `CallUno` on the game found. */
  method CallUnoByCode(games: seq<Game>, code: string, player: PlayerId) returns (r: Result<GameResponse, string>)
    requires forall i :: 0 <= i < |games| ==> games[i].Valid()
    modifies games
    ensures match old(FindByGameCode(games, code))
            case None => r == Err("Game not found") && unchanged(games)
            case Some(i) =>
              (forall j :: 0 <= j < |games| && games[j] != games[i] ==> unchanged(games[j]))
              && old(games[i].Valid()) && games[i].Valid()
              && (match CallUnoCheck(old(TableOf(games[i])), player)
                  case Some(message) => r == Err(message) && TableOf(games[i]) == old(TableOf(games[i]))
                  case None => r == Ok(FromEntity(games[i], Some(player)))
                               && TableOf(games[i]) == CallUnoOutcome(old(TableOf(games[i])), player))
  {
    var found := FindByGameCode(games, code);
    if found.None? {
      return Err("Game not found");
    }
    r := CallUno(games[found.value], player);
  }

  /** `leaveGame` with the game named by its code: "Game not found", or `LeaveGame` on the game found. */
  method LeaveGameByCode(games: seq<Game>, code: string, player: PlayerId) returns (r: Result<GameResponse, string>)
    requires forall i :: 0 <= i < |games| ==> games[i].Valid()
    modifies games
    ensures match old(FindByGameCode(games, code))
            case None => r == Err("Game not found") && unchanged(games)
            case Some(i) =>
              (forall j :: 0 <= j < |games| && games[j] != games[i] ==> unchanged(games[j]))
              && old(games[i].Valid()) && games[i].Valid()
              && (match LeaveCheck(old(TableOf(games[i])), player)
                  case Some(message) => r == Err(message) && TableOf(games[i]) == old(TableOf(games[i]))
                  case None => r == Ok(FromEntity(games[i], Some(player)))
                               && TableOf(games[i]) == LeaveOutcome(old(TableOf(games[i])), games[i].createdBy, player))
  {
    var found := FindByGameCode(games, code);
    if found.None? {
      return Err("Game not found");
    }
    r := LeaveGame(games[found.value], player);
  }
}
