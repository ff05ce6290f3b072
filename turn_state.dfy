/**
 * The state a move in a running game changes, as a value (`Table`), and what the
 * moves of the session engine make of it: `handleCardEffect`, `playCardAction`,
 * `drawCard`, `callUno` and `leaveGame`, each with its guards in the order the
 * service checks them.
 */
module TurnState {
  import opened Wrappers
  import opened Seqs
  import opened Enums
  import opened CardEntity
  import opened GamePlayerEntity
  import opened GameEventEntity
  import opened CardRepository
  import opened GamePlayerRepository
  import opened GameEventRepository
  import opened GameEntity
  import opened CardMoves
  import opened EventLog
  import opened CardPlay
  import opened GameDraw
  import opened UnoGameRules

  /** The fields of a game that its moves read or change. */
  datatype Table = Table(
    status: GameStatus,
    maxPlayers: int,
    minPlayers: int,
    currentPlayerIndex: int,
    direction: GameDirection,
    winner: Option<PlayerId>,
    gamePlayers: seq<GamePlayer>,
    cards: seq<Card>,
    events: seq<GameEvent>)

  function TableOf(g: Game): Table
    reads g
  {
    Table(g.status, g.maxPlayers, g.minPlayers, g.currentPlayerIndex, g.direction, g.winner, g.gamePlayers, g.cards, g.events)
  }

  /** The game invariant on a table. */
  ghost predicate TableOk(t: Table)
  {
    GameInvariant(t.status, t.maxPlayers, t.minPlayers, t.currentPlayerIndex, t.winner, t.gamePlayers, t.cards, t.events)
  }

  /** A table a draw can be made on: a seat in range and random orders of its cards. */
  ghost predicate Drawable(t: Table, rank1: seq<nat>, rank2: seq<nat>)
  {
    0 <= t.currentPlayerIndex < |t.gamePlayers| && IsRank(rank1, |t.cards|) && IsRank(rank2, |t.cards|)
  }

  /** The seat reached from seat `i` of `n` after k moves in direction `d`. */
  function Steps(i: int, n: int, d: GameDirection, k: nat): int
    requires n > 0
  {
    if k == 0 then i else NextIndex(Steps(i, n, d, k - 1), n, d)
  }

  lemma {:induction false} StepsInRange(i: int, n: int, d: GameDirection, k: nat)
    requires 0 <= i < n
    ensures 0 <= Steps(i, n, d, k) < n
  {
    if k > 0 {
      StepsInRange(i, n, d, k - 1);
      NextIndexInRange(Steps(i, n, d, k - 1), n, d);
    }
  }

  /** The current membership's player. */
  function CurrentPlayer(t: Table): PlayerId
    requires 0 <= t.currentPlayerIndex < |t.gamePlayers|
  {
    t.gamePlayers[t.currentPlayerIndex].player
  }

  /** The first part of `handleCardEffect`: a REVERSE flips the direction and DIRECTION_REVERSED is logged. */
  function Reversed(t: Table, c: Card): (r: Table)
    requires 0 <= t.currentPlayerIndex < |t.gamePlayers|
  {
    if CausesReverse(c) then
      t.(direction := Flip(t.direction),
         events := Logged(t.events, Some(CurrentPlayer(t)), DirectionReversed, NoData))
    else t
  }

  /**
   * The second part of `handleCardEffect`: for a card that makes someone draw, the next
   * seat draws 2 or 4 cards, FORCED_DRAW is logged and the turn moves on once.
   */
  function ForcedDrawn(t: Table, c: Card, rank1: seq<nat>, rank2: seq<nat>): (r: Table)
    requires Drawable(t, rank1, rank2)
  {
    var count := GetCardDrawCount(c);
    if count == 0 then t
    else
      NextIndexInRange(t.currentPlayerIndex, |t.gamePlayers|, t.direction);
      var v := NextIndex(t.currentPlayerIndex, |t.gamePlayers|, t.direction);
      var gp := t.gamePlayers[v];
      t.(cards := Drawn(t.cards, gp.player, gp.cardsCount, count, rank1, rank2),
         gamePlayers := Counted(t.gamePlayers, v, count),
         events := Logged(DrawLog(t.events, t.cards, gp.player, count), Some(gp.player), ForcedDraw, Count(count)),
         currentPlayerIndex := v)
  }

  /** `handleCardEffect` of card `c` played from the current seat. */
  function Effect(t: Table, c: Card, rank1: seq<nat>, rank2: seq<nat>): (r: Table)
    requires Drawable(t, rank1, rank2)
  {
    ForcedDrawn(Reversed(t, c), c, rank1, rank2)
  }

  /** The table after the played card is on top, the counter is down and CARD_PLAYED is logged. */
  function CardDown(t: Table, id: nat, chosenColor: Option<CardColor>): (r: Table)
    requires 0 <= t.currentPlayerIndex < |t.gamePlayers| && id < |t.cards|
    ensures |r.cards| == |t.cards| && |r.gamePlayers| == |t.gamePlayers| && r.currentPlayerIndex == t.currentPlayerIndex
  {
    var q := t.currentPlayerIndex;
    var gp := t.gamePlayers[q];
    var c := OnTop(t.cards[id], chosenColor);
    t.(cards := PlayedCards(t.cards, id, chosenColor),
       gamePlayers := t.gamePlayers[q := gp.(cardsCount := gp.cardsCount - 1, hasCalledUno := false)],
       events := Logged(t.events, Some(gp.player), CardPlayed, Played(c.cardType, c.color, c.value, chosenColor)))
  }

  /**
   * The end of `playCardAction`: when the player's counter is 0 the game is FINISHED
   * with that player as winner and GAME_WON is logged; otherwise the turn moves on
   * twice after a skipping card and once after any other.
   */
  function Finish(t: Table, q: nat, c: Card): (r: Table)
    requires q < |t.gamePlayers| && |t.gamePlayers| > 0
  {
    var player := t.gamePlayers[q].player;
    if HasWon(t.gamePlayers[q]) then
      t.(status := Finished, winner := Some(player), events := Logged(t.events, Some(player), GameWon, NoData))
    else
      t.(currentPlayerIndex := Steps(t.currentPlayerIndex, |t.gamePlayers|, t.direction, if CausesSkip(c) then 2 else 1))
  }

  /** `playCardAction`: card `id` played from the current seat. */
  function PlayOutcome(t: Table, id: nat, chosenColor: Option<CardColor>, rank1: seq<nat>, rank2: seq<nat>): (r: Table)
    requires Drawable(t, rank1, rank2) && id < |t.cards|
  {
    var t1 := CardDown(t, id, chosenColor);
    Finish(Effect(t1, OnTop(t.cards[id], chosenColor), rank1, rank2), t.currentPlayerIndex, OnTop(t.cards[id], chosenColor))
  }

  /** `getTopCard`, as the card itself. */
  function TopOf(cards: seq<Card>): (r: Option<Card>)
    ensures r.Some? <==> exists j :: 0 <= j < |cards| && cards[j].isTopCard
    ensures r.Some? ==> r.value.isTopCard && r.value in cards
  {
    match FirstWhere(cards, IsTop)
    case Some(k) => Some(cards[k])
    case None => None
  }

  /**
   * The guards of `playCard`, in the order it checks them: the message of the first
   * one that fails, or nothing when the card may be played.
   */
  function PlayCardCheck(t: Table, cardId: nat, player: PlayerId, chosenColor: Option<CardColor>): (r: Option<string>)
    requires 0 <= t.currentPlayerIndex && CardsOk(t.cards)
    ensures t.status != InProgress ==> r == Some("Game is not in progress")
    ensures r.None? <==>
              t.status == InProgress && t.currentPlayerIndex < |t.gamePlayers| && CurrentPlayer(t) == player
              && cardId < |t.cards| && t.cards[cardId].owner == Some(player)
              && CanPlayCard(Some(t.cards[cardId]), TopOf(t.cards))
              && (RequiresColorChoice(t.cards[cardId]) ==> IsValidColorChoice(chosenColor))
    ensures r.None? ==> HeldBy(player)(t.cards[cardId])
  {
    if t.status != InProgress then Some("Game is not in progress")
    else if t.currentPlayerIndex >= |t.gamePlayers| || CurrentPlayer(t) != player then Some("It's not your turn")
    else if cardId >= |t.cards| then Some("Card not found")
    else if t.cards[cardId].owner.None? then Some("NullPointerException")
    else if t.cards[cardId].owner != Some(player) then Some("Card does not belong to you")
    else if !CanPlayCard(Some(t.cards[cardId]), TopOf(t.cards)) then Some("Card cannot be played on current top card")
    else if RequiresColorChoice(t.cards[cardId]) && !IsValidColorChoice(chosenColor) then Some("Valid color choice required for wild cards")
    else
      assert CardOk(t.cards[cardId]);
      None
  }

  /** The guards of `drawCard`: the game is running and it is the player's turn. */
  function DrawCardCheck(t: Table, player: PlayerId): (r: Option<string>)
    requires 0 <= t.currentPlayerIndex
    ensures r.None? <==> t.status == InProgress && t.currentPlayerIndex < |t.gamePlayers| && CurrentPlayer(t) == player
  {
    if t.status != InProgress then Some("Game is not in progress")
    else if t.currentPlayerIndex >= |t.gamePlayers| || CurrentPlayer(t) != player then Some("It's not your turn")
    else None
  }

  /** `drawCard`: the current seat draws one card and the turn moves on once. */
  function DrawOutcome(t: Table, rank1: seq<nat>, rank2: seq<nat>): (r: Table)
    requires Drawable(t, rank1, rank2)
  {
    var q := t.currentPlayerIndex;
    var gp := t.gamePlayers[q];
    t.(cards := Drawn(t.cards, gp.player, gp.cardsCount, 1, rank1, rank2),
       gamePlayers := Counted(t.gamePlayers, q, 1),
       events := DrawLog(t.events, t.cards, gp.player, 1),
       currentPlayerIndex := NextIndex(q, |t.gamePlayers|, t.direction))
  }

  /** The guards of `callUno`: the game is running, the player has a membership holding exactly one card. */
  function CallUnoCheck(t: Table, player: PlayerId): (r: Option<string>)
    ensures r.None? <==> t.status == InProgress && FindByPlayer(t.gamePlayers, player).Some?
                         && t.gamePlayers[FindByPlayer(t.gamePlayers, player).value].cardsCount == 1
  {
    if t.status != InProgress then Some("Game is not in progress")
    else if FindByPlayer(t.gamePlayers, player).None? then Some("Player not in this game")
    else if t.gamePlayers[FindByPlayer(t.gamePlayers, player).value].cardsCount != 1 then
      Some("You can only call UNO when you have exactly 1 card")
    else None
  }

  /** `callUno`: the player's membership is flagged and UNO_CALLED is logged. */
  function CallUnoOutcome(t: Table, player: PlayerId): (r: Table)
    requires FindByPlayer(t.gamePlayers, player).Some?
  {
    var k := FindByPlayer(t.gamePlayers, player).value;
    t.(gamePlayers := t.gamePlayers[k := t.gamePlayers[k].(hasCalledUno := true)],
       events := Logged(t.events, Some(player), UnoCalled, NoData))
  }

  /** The guard of `leaveGame`: the player has a membership, whatever the status. */
  function LeaveCheck(t: Table, player: PlayerId): (r: Option<string>)
    ensures r.None? <==> exists j :: 0 <= j < |t.gamePlayers| && t.gamePlayers[j].player == player
  {
    if FindByPlayer(t.gamePlayers, player).None? then Some("Player not in this game") else None
  }

  /**
   * The first part of `leaveGame`: the membership turns inactive and PLAYER_LEFT is
   * logged; a waiting game its creator leaves is CANCELLED.
   */
  function Left(t: Table, createdBy: PlayerId, player: PlayerId): (r: Table)
    requires FindByPlayer(t.gamePlayers, player).Some?
  {
    var k := FindByPlayer(t.gamePlayers, player).value;
    t.(status := if t.status == WaitingForPlayers && createdBy == player then Cancelled else t.status,
       gamePlayers := t.gamePlayers[k := t.gamePlayers[k].(isActive := false)],
       events := Logged(t.events, Some(player), PlayerLeft, NoData))
  }

  /**
   * The end of `leaveGame`: a running game left with fewer than two active memberships
   * is FINISHED, won by the active membership first in seat order if there is one, and
   * GAME_ENDED_INSUFFICIENT_PLAYERS is logged.
   */
  function Abandoned(t: Table): (r: Table)
  {
    if t.status == InProgress && CountActivePlayers(t.gamePlayers) < 2 then
      t.(status := Finished,
         winner := if FirstActive(t.gamePlayers).Some? then FirstActive(t.gamePlayers) else t.winner,
         events := Logged(t.events, None, GameEndedInsufficientPlayers, NoData))
    else t
  }

  /** The player of the first active membership in seat order, if any. */
  function FirstActive(gps: seq<GamePlayer>): (r: Option<PlayerId>)
  {
    var remaining := FindActivePlayers(gps);
    if remaining != [] then Some(gps[remaining[0]].player) else None
  }

  /** `leaveGame`. */
  function LeaveOutcome(t: Table, createdBy: PlayerId, player: PlayerId): (r: Table)
    requires FindByPlayer(t.gamePlayers, player).Some?
  {
    Abandoned(Left(t, createdBy, player))
  }


  /** Memberships with the same players in the same seats keep the seats valid. */
  lemma SamePlayersSeats(gps: seq<GamePlayer>, gps2: seq<GamePlayer>, maxPlayers: int, minPlayers: int, index: int)
    requires SeatsOk(gps, maxPlayers, minPlayers, index) && |gps2| == |gps|
    requires forall j :: 0 <= j < |gps| ==> gps2[j].player == gps[j].player
    ensures SeatsOk(gps2, maxPlayers, minPlayers, index)
  {
    assert DistinctPlayers(gps2) by {
      forall i, j | 0 <= i < j < |gps2| ensures gps2[i].player != gps2[j].player {
        assert gps[i].player != gps[j].player;
      }
    }
  }

  /** With two seats or more, a move always reaches another seat. */
  lemma NextIndexMoves(i: int, n: int, d: GameDirection)
    requires 0 <= i < n && 2 <= n
    ensures NextIndex(i, n, d) != i
  {
    NextIndexInRange(i, n, d);
  }

  /** k + 1 moves are one move followed by k. */
  lemma {:induction false} StepsShift(i: int, n: int, d: GameDirection, k: nat)
    requires n > 0
    ensures Steps(NextIndex(i, n, d), n, d, k) == Steps(i, n, d, k + 1)
  {
    if k > 0 {
      StepsShift(i, n, d, k - 1);
    }
  }

  /**
   * A card effect keeps the game invariant and changes neither the status, the winner,
   * the number of cards nor which player sits in which seat.
   */
  lemma EffectKeepsInvariant(t: Table, c: Card, rank1: seq<nat>, rank2: seq<nat>)
    requires TableOk(t) && Drawable(t, rank1, rank2)
    ensures var r := Effect(t, c, rank1, rank2);
            TableOk(r) && r.status == t.status && r.winner == t.winner && |r.cards| == |t.cards|
            && |r.gamePlayers| == |t.gamePlayers|
            && forall j :: 0 <= j < |t.gamePlayers| ==> r.gamePlayers[j].player == t.gamePlayers[j].player
  {
    var t1 := Reversed(t, c);
    if CausesReverse(c) {
      LoggedNumbered(t.events, Some(CurrentPlayer(t)), DirectionReversed, NoData);
    }
    assert TableOk(t1);
    var count := GetCardDrawCount(c);
    if count > 0 {
      var n := |t1.gamePlayers|;
      NextIndexInRange(t1.currentPlayerIndex, n, t1.direction);
      var v := NextIndex(t1.currentPlayerIndex, n, t1.direction);
      var gp := t1.gamePlayers[v];
      DrawKeepsInvariant(t1.status, t1.maxPlayers, t1.minPlayers, v, t1.winner,
                         t1.gamePlayers, t1.cards, t1.events, v, count, rank1, rank2);
      CountedSeats(t1.gamePlayers, v, count, t1.maxPlayers, t1.minPlayers, v);
      LoggedNumbered(DrawLog(t1.events, t1.cards, gp.player, count), Some(gp.player), ForcedDraw, Count(count));
    }
  }

  /** Putting a held card on top keeps the game invariant of a running game. */
  lemma CardDownKeepsInvariant(t: Table, id: nat, chosenColor: Option<CardColor>)
    requires TableOk(t) && t.status == InProgress && id < |t.cards| && t.cards[id].owner.Some?
    ensures var r := CardDown(t, id, chosenColor);
            TableOk(r) && r.status == t.status && r.winner == t.winner
            && forall j :: 0 <= j < |t.gamePlayers| ==> r.gamePlayers[j].player == t.gamePlayers[j].player
  {
    var q := t.currentPlayerIndex;
    var r := CardDown(t, id, chosenColor);
    PlayedCardsFlags(t.cards, id, chosenColor);
    SamePlayersSeats(t.gamePlayers, r.gamePlayers, t.maxPlayers, t.minPlayers, q);
    var c := OnTop(t.cards[id], chosenColor);
    LoggedNumbered(t.events, Some(t.gamePlayers[q].player), CardPlayed, Played(c.cardType, c.color, c.value, chosenColor));
  }

  /** The end of a play keeps the game invariant of a running game. */
  lemma FinishKeepsInvariant(t: Table, q: nat, c: Card)
    requires TableOk(t) && t.status == InProgress && q < |t.gamePlayers|
    ensures TableOk(Finish(t, q, c))
  {
    if HasWon(t.gamePlayers[q]) {
      LoggedNumbered(t.events, Some(t.gamePlayers[q].player), GameWon, NoData);
    } else {
      StepsInRange(t.currentPlayerIndex, |t.gamePlayers|, t.direction, if CausesSkip(c) then 2 else 1);
    }
  }

  /** Playing a held card in a running game keeps the game invariant. */
  lemma PlayKeepsInvariant(t: Table, id: nat, chosenColor: Option<CardColor>, rank1: seq<nat>, rank2: seq<nat>)
    requires TableOk(t) && t.status == InProgress && Drawable(t, rank1, rank2)
    requires id < |t.cards| && t.cards[id].owner.Some?
    ensures TableOk(PlayOutcome(t, id, chosenColor, rank1, rank2))
  {
    var q := t.currentPlayerIndex;
    var c := OnTop(t.cards[id], chosenColor);
    var t1 := CardDown(t, id, chosenColor);
    CardDownKeepsInvariant(t, id, chosenColor);
    EffectKeepsInvariant(t1, c, rank1, rank2);
    FinishKeepsInvariant(Effect(t1, c, rank1, rank2), q, c);
  }

  /** How many seats the turn moves after a card whose player does not win. */
  function Moves(c: Card): nat
  {
    match c.cardType
    case Skip => 2
    case DrawTwo => 3
    case WildDrawFour => 3
    case _ => 1
  }

  /**
   * Where a card effect leaves the turn: a REVERSE flips the direction; a card that
   * makes someone draw moves the turn once, to the seat that drew.
   */
  lemma EffectTurn(t: Table, c: Card, rank1: seq<nat>, rank2: seq<nat>)
    requires Drawable(t, rank1, rank2)
    ensures var r := Effect(t, c, rank1, rank2);
            |r.gamePlayers| == |t.gamePlayers| && r.status == t.status
            && r.direction == (if CausesReverse(c) then Flip(t.direction) else t.direction)
            && r.currentPlayerIndex == (if GetCardDrawCount(c) > 0 then NextIndex(t.currentPlayerIndex, |t.gamePlayers|, r.direction)
                                        else t.currentPlayerIndex)
  {
  }

  /** The end of a play keeps the direction and, unless the player has won, moves the turn once or twice. */
  lemma FinishTurn(t: Table, q: nat, c: Card)
    requires q < |t.gamePlayers| && t.status == InProgress
    ensures var r := Finish(t, q, c);
            r.direction == t.direction
            && (r.status == InProgress ==>
                  r.currentPlayerIndex == Steps(t.currentPlayerIndex, |t.gamePlayers|, t.direction, if CausesSkip(c) then 2 else 1))
  {
  }

  /**
   * Where the turn goes after a play: a REVERSE flips the direction; unless the player
   * has won, the turn then moves two seats after a SKIP, three after a DRAW_TWO or
   * WILD_DRAW_FOUR (the next seat draws and is skipped) and one after any other card.
   */
  lemma PlayTurn(t: Table, id: nat, chosenColor: Option<CardColor>, rank1: seq<nat>, rank2: seq<nat>)
    requires Drawable(t, rank1, rank2) && id < |t.cards| && t.status == InProgress
    ensures var r := PlayOutcome(t, id, chosenColor, rank1, rank2);
            var c := t.cards[id];
            r.direction == (if CausesReverse(c) then Flip(t.direction) else t.direction)
            && (r.status == InProgress ==>
                  r.currentPlayerIndex == Steps(t.currentPlayerIndex, |t.gamePlayers|, r.direction, Moves(c)))
  {
    var c := OnTop(t.cards[id], chosenColor);
    var t1 := CardDown(t, id, chosenColor);
    assert c.cardType == t.cards[id].cardType;
    EffectTurn(t1, c, rank1, rank2);
    FinishTurn(Effect(t1, c, rank1, rank2), t.currentPlayerIndex, c);
    if GetCardDrawCount(c) > 0 {
      StepsShift(t.currentPlayerIndex, |t.gamePlayers|, Effect(t1, c, rank1, rank2).direction, 2);
    }
  }

  /**
   * With two seats or more, a card effect leaves the current seat's membership, the
   * status and the winner as they were: the seat that draws is always another one.
   */
  lemma EffectSparesPlayer(t: Table, c: Card, rank1: seq<nat>, rank2: seq<nat>)
    requires Drawable(t, rank1, rank2) && 2 <= |t.gamePlayers|
    ensures var r := Effect(t, c, rank1, rank2);
            |r.gamePlayers| == |t.gamePlayers| && r.gamePlayers[t.currentPlayerIndex] == t.gamePlayers[t.currentPlayerIndex]
            && r.status == t.status && r.winner == t.winner
  {
    if GetCardDrawCount(c) > 0 {
      NextIndexMoves(t.currentPlayerIndex, |t.gamePlayers|, Reversed(t, c).direction);
    }
  }

  /**
   * With two seats or more, a play wins exactly when it was the player's last card;
   * the winner is then the player and GAME_WON is the last event.
   */
  lemma PlayWin(t: Table, id: nat, chosenColor: Option<CardColor>, rank1: seq<nat>, rank2: seq<nat>)
    requires Drawable(t, rank1, rank2) && id < |t.cards| && t.status == InProgress && 2 <= |t.gamePlayers|
    ensures var r := PlayOutcome(t, id, chosenColor, rank1, rank2);
            (r.status == Finished <==> t.gamePlayers[t.currentPlayerIndex].cardsCount == 1)
            && (r.status == Finished ==> r.winner == Some(CurrentPlayer(t)) && r.events[|r.events| - 1].eventType == GameWon)
            && (r.status != Finished ==> r.status == InProgress && r.winner == t.winner)
  {
    EffectSparesPlayer(CardDown(t, id, chosenColor), OnTop(t.cards[id], chosenColor), rank1, rank2);
  }

  /**
   * With two seats, the card effects that skip give the turn back in a way the rules of
   * the physical game do not: after a DRAW_TWO or WILD_DRAW_FOUR the seat that drew plays
   * next, and after a SKIP or a REVERSE the same player plays again only for SKIP.
   */
  lemma TwoSeatTurns(t: Table, id: nat, chosenColor: Option<CardColor>, rank1: seq<nat>, rank2: seq<nat>)
    requires Drawable(t, rank1, rank2) && id < |t.cards| && t.status == InProgress && |t.gamePlayers| == 2
    ensures var r := PlayOutcome(t, id, chosenColor, rank1, rank2);
            var q := t.currentPlayerIndex;
            r.status == InProgress ==>
              r.currentPlayerIndex == (if t.cards[id].cardType == Skip then q else 1 - q)
  {
    var q := t.currentPlayerIndex;
    var r := PlayOutcome(t, id, chosenColor, rank1, rank2);
    PlayTurn(t, id, chosenColor, rank1, rank2);
    var d := r.direction;
    NextIndexInRange(q, 2, d);
    NextIndexInRange(1 - q, 2, d);
    NextIndexInRange(q, 2, d);
    assert Steps(q, 2, d, 1) == 1 - q;
    assert Steps(q, 2, d, 2) == q;
    assert Steps(q, 2, d, 3) == 1 - q;
  }

  /** Drawing keeps the game invariant. */
  lemma DrawOutcomeKeepsInvariant(t: Table, rank1: seq<nat>, rank2: seq<nat>)
    requires TableOk(t) && Drawable(t, rank1, rank2)
    ensures TableOk(DrawOutcome(t, rank1, rank2))
  {
    var q := t.currentPlayerIndex;
    var n := |t.gamePlayers|;
    NextIndexInRange(q, n, t.direction);
    var v := NextIndex(q, n, t.direction);
    DrawKeepsInvariant(t.status, t.maxPlayers, t.minPlayers, v, t.winner, t.gamePlayers, t.cards, t.events, q, 1, rank1, rank2);
  }

  /**
   * A voluntary draw: the drawing seat's counter goes up by one, its player's hand by
   * the one card drawn (none when deck and discard pile are both empty), every other
   * hand stays as it was, and the turn moves on once.
   */
  lemma DrawOutcomeHands(t: Table, rank1: seq<nat>, rank2: seq<nat>, x: PlayerId)
    requires Drawable(t, rank1, rank2) && CardsOk(t.cards)
    ensures var r := DrawOutcome(t, rank1, rank2);
            var q := t.currentPlayerIndex;
            r.gamePlayers[q].cardsCount == t.gamePlayers[q].cardsCount + 1
            && CountPlayerCards(r.cards, x) ==
                 CountPlayerCards(t.cards, x) + (if x == CurrentPlayer(t) then DrawnCount(t.cards, 1, rank1, rank2) else 0)
            && DrawnCount(t.cards, 1, rank1, rank2) <= 1
            && r.currentPlayerIndex == NextIndex(q, |t.gamePlayers|, t.direction)
  {
    var gp := t.gamePlayers[t.currentPlayerIndex];
    DrawnHands(t.cards, gp.player, gp.cardsCount, 1, rank1, rank2, x);
    DrawnCountValue(t.cards, 1, rank1, rank2);
  }

  /** Calling UNO keeps the game invariant, and the caller no longer should call it. */
  lemma CallUnoKeepsInvariant(t: Table, player: PlayerId)
    requires TableOk(t) && FindByPlayer(t.gamePlayers, player).Some?
    ensures var r := CallUnoOutcome(t, player);
            TableOk(r) && !ShouldCallUno(r.gamePlayers[FindByPlayer(t.gamePlayers, player).value])
  {
    var r := CallUnoOutcome(t, player);
    SamePlayersSeats(t.gamePlayers, r.gamePlayers, t.maxPlayers, t.minPlayers, t.currentPlayerIndex);
    LoggedNumbered(t.events, Some(player), UnoCalled, NoData);
  }

  /** The first part of leaving keeps the game invariant. */
  lemma LeftKeepsInvariant(t: Table, createdBy: PlayerId, player: PlayerId)
    requires TableOk(t) && FindByPlayer(t.gamePlayers, player).Some?
    ensures TableOk(Left(t, createdBy, player))
  {
    var r := Left(t, createdBy, player);
    SamePlayersSeats(t.gamePlayers, r.gamePlayers, t.maxPlayers, t.minPlayers, t.currentPlayerIndex);
    LoggedNumbered(t.events, Some(player), PlayerLeft, NoData);
  }

  /** Ending an abandoned game keeps the game invariant. */
  lemma AbandonedKeepsInvariant(t: Table)
    requires TableOk(t)
    ensures TableOk(Abandoned(t))
  {
    LoggedNumbered(t.events, None, GameEndedInsufficientPlayers, NoData);
  }

  /** Leaving keeps the game invariant. */
  lemma LeaveKeepsInvariant(t: Table, createdBy: PlayerId, player: PlayerId)
    requires TableOk(t) && FindByPlayer(t.gamePlayers, player).Some?
    ensures TableOk(LeaveOutcome(t, createdBy, player))
  {
    LeftKeepsInvariant(t, createdBy, player);
    AbandonedKeepsInvariant(Left(t, createdBy, player));
  }

  /**
   * The membership part of leaving: the leaver's membership, and only it, turns
   * inactive; a waiting game left by its creator is cancelled, by anyone else not.
   */
  lemma LeaveMemberships(t: Table, createdBy: PlayerId, player: PlayerId)
    requires FindByPlayer(t.gamePlayers, player).Some?
    ensures var r := LeaveOutcome(t, createdBy, player);
            var k := FindByPlayer(t.gamePlayers, player).value;
            |r.gamePlayers| == |t.gamePlayers| && !r.gamePlayers[k].isActive
            && (forall j :: 0 <= j < |t.gamePlayers| && j != k ==> r.gamePlayers[j] == t.gamePlayers[j])
            && (t.status == WaitingForPlayers ==> r.status == (if createdBy == player then Cancelled else WaitingForPlayers))
  {
    var t1 := Left(t, createdBy, player);
    assert LeaveOutcome(t, createdBy, player).gamePlayers == t1.gamePlayers;
  }

  /**
   * An abandoned running game ends exactly when fewer than two active memberships are
   * left; a new winner is always the player of an active membership, and with one
   * left, its player wins.
   */
  lemma AbandonedEnds(t: Table)
    requires t.status == InProgress
    ensures var r := Abandoned(t);
            r.gamePlayers == t.gamePlayers
            && (r.status == Finished <==> CountActivePlayers(t.gamePlayers) < 2)
            && (r.winner != t.winner ==>
                  exists j :: 0 <= j < |t.gamePlayers| && t.gamePlayers[j].isActive && r.winner == Some(t.gamePlayers[j].player))
            && (CountActivePlayers(t.gamePlayers) == 1 ==>
                  exists j :: 0 <= j < |t.gamePlayers| && t.gamePlayers[j].isActive && r.winner == Some(t.gamePlayers[j].player))
  {
    var remaining := FindActivePlayers(t.gamePlayers);
    if |remaining| >= 1 {
      assert t.gamePlayers[remaining[0]].isActive;
      assert FirstActive(t.gamePlayers) == Some(t.gamePlayers[remaining[0]].player);
    }
  }

  /**
   * What leaving a running game does: it ends exactly when fewer than two active
   * memberships remain, won by the one left if there is one, and never by the leaver.
   */
  lemma LeaveEnds(t: Table, createdBy: PlayerId, player: PlayerId)
    requires DistinctPlayers(t.gamePlayers) && FindByPlayer(t.gamePlayers, player).Some?
    requires t.status == InProgress && t.winner.None?
    ensures var r := LeaveOutcome(t, createdBy, player);
            (r.status == Finished <==> CountActivePlayers(r.gamePlayers) < 2)
            && (CountActivePlayers(r.gamePlayers) == 1 ==>
                  exists j :: 0 <= j < |r.gamePlayers| && r.gamePlayers[j].isActive && r.winner == Some(r.gamePlayers[j].player))
            && r.winner != Some(player)
  {
    var t1 := Left(t, createdBy, player);
    var k := FindByPlayer(t.gamePlayers, player).value;
    AbandonedEnds(t1);
    forall j | 0 <= j < |t1.gamePlayers| && t1.gamePlayers[j].isActive
      ensures t1.gamePlayers[j].player != player
    {
      assert j != k;
    }
  }
}
