/**
 * Drawing in a running game: `getNextPlayer`, `reshuffleDiscardPile` and
 * `drawCardsForPlayer`, the loops that move cards between the discard pile, the deck
 * and a hand, with the log entries they write.
 */
module GameDraw {
  import opened Wrappers
  import opened Seqs
  import opened Enums
  import opened CardEntity
  import opened GamePlayerEntity
  import opened GameEventEntity
  import opened CardRepository
  import opened GamePlayerRepository
  import opened GameEventRepository
  import opened GameEntity
  import opened CardMoves
  import opened EventLog
  import opened CardPlay

  /**
   * `getNextPlayer`: the seat after the current one in the direction of play, over all
   * memberships, inactive ones included; the seat `moveToNextPlayer` moves to.
   */
  function GetNextPlayer(g: Game): (r: nat)
    reads g
    requires 0 <= g.currentPlayerIndex < |g.gamePlayers|
    ensures r < |g.gamePlayers| && r == NextIndex(g.currentPlayerIndex, |g.gamePlayers|, g.direction)
    ensures g.direction == Clockwise ==> r == if g.currentPlayerIndex == |g.gamePlayers| - 1 then 0 else g.currentPlayerIndex + 1
    ensures g.direction == CounterClockwise ==> r == if g.currentPlayerIndex == 0 then |g.gamePlayers| - 1 else g.currentPlayerIndex - 1
  {
    var n := |g.gamePlayers|;
    NextIndexInRange(g.currentPlayerIndex, n, g.direction);
    if g.direction == Clockwise then JavaRem(g.currentPlayerIndex + 1, n)
    else JavaRem(g.currentPlayerIndex - 1 + n, n)
  }

  /**
   * `reshuffleDiscardPile`: every card of the discard pile goes back into the deck and
   * DECK_RESHUFFLED is logged with the number of cards moved.
   */
  method ReshuffleDiscardPile(g: Game)
    modifies g`cards, g`events
    ensures unchanged(g`gameCode, g`status, g`maxPlayers, g`minPlayers, g`currentPlayerIndex, g`direction, g`winner, g`createdBy, g`gamePlayers)
    ensures g.cards == Reshuffled(old(g.cards))
    ensures g.events == Logged(old(g.events), None, DeckReshuffled, Count(|FindDiscardPileCards(old(g.cards))|))
  {
    var discardCards := FindDiscardPileCards(g.cards);
    ghost var c0 := g.cards;
    for k := 0 to |discardCards|
      invariant BackUpTo(g.cards, c0, discardCards, k)
      invariant g.events == old(g.events)
    {
      BackStep(g.cards, c0, discardCards, k);
      var card := discardCards[k];
      assert card !in discardCards[..k];
      g.cards := g.cards[card := g.cards[card].(isInDeck := true, owner := None)];
    }
    BackDone(g.cards, c0);
    LogGameEvent(g, None, DeckReshuffled, Count(|discardCards|));
  }

  /** The log after a draw of `count` cards by `player`: a reshuffle entry first when the deck is short. */
  function DrawLog(events: seq<GameEvent>, cards: seq<Card>, player: PlayerId, count: nat): (r: seq<GameEvent>)
  {
    var before := if DeckCount(cards) < count then Logged(events, None, DeckReshuffled, Count(|FindDiscardPileCards(cards)|)) else events;
    Logged(before, Some(player), CardDrawn, Count(count))
  }

  /** A draw log on a numbered log ends in CARD_DRAWN and stays numbered. */
  lemma DrawLogNumbered(events: seq<GameEvent>, cards: seq<Card>, player: PlayerId, count: nat)
    requires Numbered(events)
    ensures var r := DrawLog(events, cards, player, count);
            Numbered(r) && |r| == |events| + (if DeckCount(cards) < count then 2 else 1)
            && r[|r| - 1] == GameEvent(Some(player), CardDrawn, Count(count), |r|)
  {
    var d := Count(|FindDiscardPileCards(cards)|);
    if DeckCount(cards) < count {
      LoggedNumbered(events, None, DeckReshuffled, d);
      LoggedNumbered(Logged(events, None, DeckReshuffled, d), Some(player), CardDrawn, Count(count));
    } else {
      LoggedNumbered(events, Some(player), CardDrawn, Count(count));
    }
  }

  /** The memberships after seat `q` is dealt `count` more cards on its counter. */
  function Counted(gps: seq<GamePlayer>, q: nat, count: int): (r: seq<GamePlayer>)
    requires q < |gps|
    ensures |r| == |gps|
  {
    gps[q := gps[q].(cardsCount := gps[q].cardsCount + count)]
  }

  /** Changing a card counter keeps the seats valid. */
  lemma CountedSeats(gps: seq<GamePlayer>, q: nat, count: int, maxPlayers: int, minPlayers: int, index: int)
    requires q < |gps| && SeatsOk(gps, maxPlayers, minPlayers, index)
    ensures SeatsOk(Counted(gps, q, count), maxPlayers, minPlayers, index)
    ensures forall j :: 0 <= j < |gps| ==> Counted(gps, q, count)[j].player == gps[j].player
  {
  }

  /**
   * `drawCardsForPlayer`: when the deck holds fewer than `count` cards the discard pile
   * is reshuffled into it first; then the first `count` cards of a random deck order (or
   * all of them when fewer) go to the player of seat `q` at hand positions from the
   * seat's card counter on; the counter grows by the full `count`; CARD_DRAWN is logged.
   * The random orders before and after a reshuffle are `rank1` and `rank2`.
   */
  method DrawCardsForPlayer(g: Game, q: nat, count: nat, rank1: seq<nat>, rank2: seq<nat>)
    requires q < |g.gamePlayers| && IsRank(rank1, |g.cards|) && IsRank(rank2, |g.cards|)
    modifies g`cards, g`gamePlayers, g`events
    ensures unchanged(g`gameCode, g`status, g`maxPlayers, g`minPlayers, g`currentPlayerIndex, g`direction, g`winner, g`createdBy)
    ensures g.cards == Drawn(old(g.cards), old(g.gamePlayers[q].player), old(g.gamePlayers[q].cardsCount), count, rank1, rank2)
    ensures g.gamePlayers == Counted(old(g.gamePlayers), q, count)
    ensures g.events == DrawLog(old(g.events), old(g.cards), old(g.gamePlayers[q].player), count)
  {
    var deckCards := DrawDeckOrder(g, count, rank1, rank2);
    var player := g.gamePlayers[q].player;
    var base := g.gamePlayers[q].cardsCount;
    ghost var src := g.cards;
    GiveInOrder(g, deckCards, player, base, count);
    DrawnFrom(old(g.cards), player, base, count, rank1, rank2, src, deckCards, g.cards);
    g.gamePlayers := Counted(g.gamePlayers, q, count);
    LogGameEvent(g, Some(player), CardDrawn, Count(count));
  }

  /**
   * The first steps of `drawCardsForPlayer`: the deck in random order, after a
   * reshuffle of the discard pile when the deck holds fewer than `count` cards.
   */
  method DrawDeckOrder(g: Game, count: nat, rank1: seq<nat>, rank2: seq<nat>) returns (deckCards: seq<nat>)
    requires IsRank(rank1, |g.cards|) && IsRank(rank2, |g.cards|)
    modifies g`cards, g`events
    ensures unchanged(g`gameCode, g`status, g`maxPlayers, g`minPlayers, g`currentPlayerIndex, g`direction, g`winner, g`createdBy, g`gamePlayers)
    ensures g.cards == DrawSource(old(g.cards), count) && deckCards == DrawOrder(old(g.cards), count, rank1, rank2)
    ensures DeckOrder(g.cards, deckCards) && Min(count, |deckCards|) == DrawnCount(old(g.cards), count, rank1, rank2)
    ensures g.events == if DeckCount(old(g.cards)) < count
                        then Logged(old(g.events), None, DeckReshuffled, Count(|FindDiscardPileCards(old(g.cards))|))
                        else old(g.events)
  {
    ghost var c0 := g.cards;
    deckCards := FindDeckCardsRandomOrder(g.cards, rank1);
    if |deckCards| < count {
      ReshuffleDiscardPile(g);
      deckCards := FindDeckCardsRandomOrder(g.cards, rank2);
    }
    DrawStart(c0, count, rank1, rank2, g.cards, deckCards);
  }

  /** The card list and deck order the loop of `drawCardsForPlayer` starts from. */
  lemma DrawStart(c0: seq<Card>, count: nat, rank1: seq<nat>, rank2: seq<nat>, cards: seq<Card>, deckCards: seq<nat>)
    requires IsRank(rank1, |c0|) && IsRank(rank2, |c0|)
    requires |FindDeckCardsRandomOrder(c0, rank1)| < count ==> cards == Reshuffled(c0) && deckCards == FindDeckCardsRandomOrder(cards, rank2)
    requires |FindDeckCardsRandomOrder(c0, rank1)| >= count ==> cards == c0 && deckCards == FindDeckCardsRandomOrder(c0, rank1)
    ensures cards == DrawSource(c0, count) && deckCards == DrawOrder(c0, count, rank1, rank2)
    ensures DeckOrder(cards, deckCards) && Min(count, |deckCards|) == DrawnCount(c0, count, rank1, rank2)
  {
    WhereCount(c0, IsInDeck);
  }

  /** The cards the loop of `drawCardsForPlayer` leaves are the drawn ones. */
  lemma DrawnFrom(c0: seq<Card>, player: PlayerId, base: int, count: nat, rank1: seq<nat>, rank2: seq<nat>,
                  src: seq<Card>, deckCards: seq<nat>, result: seq<Card>)
    requires IsRank(rank1, |c0|) && IsRank(rank2, |c0|)
    requires src == DrawSource(c0, count) && deckCards == DrawOrder(c0, count, rank1, rank2)
    requires Min(count, |deckCards|) == DrawnCount(c0, count, rank1, rank2)
    requires var n := Min(count, |deckCards|);
             n <= |deckCards| && result == GiveSeq(src, deckCards[..n], Repeat(player, n), Ascending(base, n))
    ensures result == Drawn(c0, player, base, count, rank1, rank2)
  {
  }

  /**
   * The loop of `drawCardsForPlayer`: the first `count` cards of `deckCards` (all of
   * them when fewer) go to `player` at hand positions base, base + 1, ...
   */
  method GiveInOrder(g: Game, deckCards: seq<nat>, player: PlayerId, base: int, count: nat)
    requires DeckOrder(g.cards, deckCards)
    modifies g`cards
    ensures unchanged(g`gameCode, g`status, g`maxPlayers, g`minPlayers, g`currentPlayerIndex, g`direction, g`winner, g`createdBy, g`gamePlayers, g`events)
    ensures var n := Min(count, |deckCards|);
            g.cards == GiveSeq(old(g.cards), deckCards[..n], Repeat(player, n), Ascending(base, n))
  {
    ghost var src := g.cards;
    ghost var owners, positions := Repeat(player, |deckCards|), Ascending(base, |deckCards|);
    var i := 0;
    while i < count && i < |deckCards|
      invariant i <= |deckCards| && i <= count
      invariant g.cards == GiveSeq(src, deckCards[..i], owners[..i], positions[..i])
    {
      var card := deckCards[i];
      GiveSeqUnfold(src, deckCards, owners, positions, i);
      g.cards := g.cards[card := g.cards[card].(owner := Some(player), isInDeck := false, positionInHand := Some(base + i))];
      i := i + 1;
    }
    RepeatPrefix(player, |deckCards|, i);
    AscendingPrefix(base, |deckCards|, i);
  }

  /**
   * A draw keeps a running game valid: the cards stay consistent with the same single
   * top card, the seats only change a counter, and the log stays numbered.
   */
  lemma DrawKeepsInvariant(status: GameStatus, maxPlayers: int, minPlayers: int, index: int, winner: Option<PlayerId>,
                           gps: seq<GamePlayer>, cards: seq<Card>, events: seq<GameEvent>,
                           q: nat, count: nat, rank1: seq<nat>, rank2: seq<nat>)
    requires GameInvariant(status, maxPlayers, minPlayers, index, winner, gps, cards, events)
    requires q < |gps| && IsRank(rank1, |cards|) && IsRank(rank2, |cards|)
    ensures GameInvariant(status, maxPlayers, minPlayers, index, winner, Counted(gps, q, count),
                          Drawn(cards, gps[q].player, gps[q].cardsCount, count, rank1, rank2),
                          DrawLog(events, cards, gps[q].player, count))
  {
    DrawnOk(cards, gps[q].player, gps[q].cardsCount, count, rank1, rank2);
    CardsFitKept(status, cards, Drawn(cards, gps[q].player, gps[q].cardsCount, count, rank1, rank2));
    CountedSeats(gps, q, count, maxPlayers, minPlayers, index);
    DrawLogNumbered(events, cards, gps[q].player, count);
  }
}
