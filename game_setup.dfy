/**
 * Setting a game up: creating it under a fresh six-digit code, players joining, and
 * the start (building the deck, dealing seven cards to each active membership, and
 * turning up the first card).
 */
module GameSetup {
  import opened Wrappers
  import opened Seqs
  import opened Enums
  import opened CardEntity
  import opened GamePlayerEntity
  import opened GameEventEntity
  import opened CardRepository
  import opened GamePlayerRepository
  import opened GameEntity
  import opened Deck
  import opened CardMoves
  import opened EventLog

  /** `createDeck`: the 108 cards of a standard deck are added to the game, in building order. */
  method CreateDeck(g: Game)
    modifies g`cards
    ensures unchanged(g`gameCode, g`status, g`maxPlayers, g`minPlayers, g`currentPlayerIndex, g`direction, g`winner, g`createdBy, g`gamePlayers, g`events)
    ensures g.cards == old(g.cards) + StandardDeck
  {
    var deck := BuildDeck();
    g.cards := g.cards + deck;
  }

  /**
   * The loops of `createDeck`: per colour a 0, two of each of 1..9 and two each of
   * SKIP, REVERSE and DRAW_TWO; then four WILD and WILD_DRAW_FOUR pairs.
   */
  method BuildDeck() returns (deck: seq<Card>)
    ensures deck == StandardDeck
  {
    deck := [];
    var colors := [Red, Blue, Green, Yellow];
    for ci := 0 to 4
      invariant deck == ColorBlocks(colors[..ci])
    {
      var color := colors[ci];
      ghost var before := deck;
      deck := deck + [NewCard(Number, color, Some(0))];
      for i := 1 to TopNumber + 1
        invariant deck == before + [NumberCard(color, 0)] + NumberPairs(color, i - 1)
      {
        ghost var prev := deck;
        deck := deck + [NewCard(Number, color, Some(i))];
        deck := deck + [NewCard(Number, color, Some(i))];
        NumbersStep(before, color, i, prev, deck);
      }
      ghost var numbers := deck;
      deck := deck + [NewCard(Skip, color, None)];
      deck := deck + [NewCard(Skip, color, None)];
      deck := deck + [NewCard(Reverse, color, None)];
      deck := deck + [NewCard(Reverse, color, None)];
      deck := deck + [NewCard(DrawTwo, color, None)];
      deck := deck + [NewCard(DrawTwo, color, None)];
      ActionsAppended(numbers, color, deck);
      BlockClosed(before, color, deck);
      ColorBlocksSnoc(colors, ci);
    }
    ghost var blocks := deck;
    for i := 0 to WildPairCount
      invariant deck == blocks + WildPairs(i)
    {
      ghost var prev := deck;
      deck := deck + [NewCard(Wild, WildColor, None)];
      deck := deck + [NewCard(WildDrawFour, WildColor, None)];
      WildStep(blocks, i, prev, deck);
    }
    assert colors[..4] == PlayColors;
    DeckLayout(PlayColors, WildPairCount);
  }

  /** Two more cards of number i extend the number pairs of the colour by one pair. */
  lemma NumbersStep(before: seq<Card>, color: CardColor, i: nat, prev: seq<Card>, deck: seq<Card>)
    requires 1 <= i
    requires prev == before + [NumberCard(color, 0)] + NumberPairs(color, i - 1)
    requires deck == prev + [NewCard(Number, color, Some(i))] + [NewCard(Number, color, Some(i))]
    ensures deck == before + [NumberCard(color, 0)] + NumberPairs(color, i)
  {
  }

  /** A WILD and a WILD_DRAW_FOUR more extend the wild pairs by one pair. */
  lemma WildStep(blocks: seq<Card>, i: nat, prev: seq<Card>, deck: seq<Card>)
    requires prev == blocks + WildPairs(i)
    requires deck == prev + [NewCard(Wild, WildColor, None)] + [NewCard(WildDrawFour, WildColor, None)]
    ensures deck == blocks + WildPairs(i + 1)
  {
  }

  /** A zero, the number pairs and the actions of a colour make up its block. */
  lemma BlockClosed(before: seq<Card>, c: CardColor, deck: seq<Card>)
    requires deck == before + [NumberCard(c, 0)] + NumberPairs(c, TopNumber) + ActionCards(c)
    ensures deck == before + ColorBlock(c)
  {
    Assoc4(before, [NumberCard(c, 0)], NumberPairs(c, TopNumber), ActionCards(c));
  }

  lemma Assoc4(a: seq<Card>, b: seq<Card>, c: seq<Card>, d: seq<Card>)
    ensures a + b + c + d == a + (b + c + d)
  {
  }

  lemma ColorBlocksSnoc(cs: seq<CardColor>, ci: nat)
    requires ci < |cs|
    ensures ColorBlocks(cs[..ci + 1]) == ColorBlocks(cs[..ci]) + ColorBlock(cs[ci])
  {
    assert cs[..ci + 1][..ci] == cs[..ci];
  }

  lemma ActionsAppended(numbers: seq<Card>, c: CardColor, deck: seq<Card>)
    requires deck == numbers + [NewCard(Skip, c, None)] + [NewCard(Skip, c, None)]
                     + [NewCard(Reverse, c, None)] + [NewCard(Reverse, c, None)]
                     + [NewCard(DrawTwo, c, None)] + [NewCard(DrawTwo, c, None)]
    ensures deck == numbers + ActionCards(c)
  {
  }

  /** (7k + i) / 7 = k and (7k + i) mod 7 = i. */
  lemma DivSeven(k: nat, i: nat)
    requires i < 7
    ensures (7 * k + i) / 7 == k && (7 * k + i) % 7 == i
  {
  }

  /** The card list once the first n cards of the deck order have been dealt. */
  ghost predicate DealtUpTo(cards: seq<Card>, c0: seq<Card>, order: seq<nat>, gps: seq<GamePlayer>, players: seq<nat>, n: nat)
    requires n <= |order| && forall m :: 0 <= m < |order| ==> order[m] < |c0|
  {
    cards == GiveSeq(c0, order[..n], DealOwners(gps, players, |order|)[..n], DealPositions(|order|)[..n])
  }

  /** The k-th card of player k's seven goes to that player at position i. */
  lemma DealSlot(c0: seq<Card>, order: seq<nat>, gps: seq<GamePlayer>, players: seq<nat>, cards: seq<Card>, k: nat, i: nat, ci: nat)
    requires forall m :: 0 <= m < |order| ==> order[m] < |c0|
    requires k < |players| && players[k] < |gps| && i < 7 && ci == 7 * k + i && ci < |order|
    requires DealtUpTo(cards, c0, order, gps, players, ci)
    ensures DealtUpTo(cards[order[ci] := Given(cards[order[ci]], gps[players[k]].player, i)], c0, order, gps, players, ci + 1)
  {
    DivSeven(k, i);
    GiveSeqUnfold(c0, order, DealOwners(gps, players, |order|), DealPositions(|order|), ci);
  }

  /** The memberships once the first k of `players` have had their counter set to 7. */
  function SevenUpTo(gps: seq<GamePlayer>, players: seq<nat>, k: nat): (r: seq<GamePlayer>)
    requires k <= |players|
    ensures |r| == |gps|
    ensures forall q :: 0 <= q < |gps| ==> r[q].player == gps[q].player
  {
    seq(|gps|, q requires 0 <= q < |gps| => if q in players[..k] then gps[q].(cardsCount := 7) else gps[q])
  }

  lemma SevenStep(gps: seq<GamePlayer>, players: seq<nat>, k: nat)
    requires k < |players| && players[k] < |gps|
    ensures var prev := SevenUpTo(gps, players, k);
            prev[players[k] := prev[players[k]].(cardsCount := 7)] == SevenUpTo(gps, players, k + 1)
  {
    TakeNext(players, k);
  }

  lemma SevenDone(gps: seq<GamePlayer>)
    ensures SevenUpTo(gps, FindActivePlayers(gps), |FindActivePlayers(gps)|) == SevenEach(gps)
  {
    var players := FindActivePlayers(gps);
    assert players[..|players|] == players;
  }

  /** The memberships after the deal: every active one has its card counter set to 7. */
  function SevenEach(gps: seq<GamePlayer>): (r: seq<GamePlayer>)
    ensures |r| == |gps|
    ensures forall q :: 0 <= q < |gps| ==> r[q] == if gps[q].isActive then gps[q].(cardsCount := 7) else gps[q]
  {
    seq(|gps|, q requires 0 <= q < |gps| => if gps[q].isActive then gps[q].(cardsCount := 7) else gps[q])
  }

  /**
   * `dealInitialCards`: walking the deck in random order, seven cards to each active
   * membership in seat order, at hand positions 0..6, as long as the deck lasts; then
   * each active membership's counter is set to 7.
   */
  method DealInitialCards(g: Game, rank: seq<nat>)
    requires IsRank(rank, |g.cards|)
    modifies g`cards, g`gamePlayers
    ensures unchanged(g`gameCode, g`status, g`maxPlayers, g`minPlayers, g`currentPlayerIndex, g`direction, g`winner, g`createdBy, g`events)
    ensures g.cards == Dealt(old(g.cards), old(g.gamePlayers), rank)
    ensures g.gamePlayers == SevenEach(old(g.gamePlayers))
  {
    var deckCards := FindDeckCardsRandomOrder(g.cards, rank);
    var players := FindActivePlayers(g.gamePlayers);
    ghost var c0 := g.cards;
    WhereCount(c0, IsInDeck);
    DealInOrder(g, deckCards, players);
    SevenDone(old(g.gamePlayers));
  }

  /**
   * The loops of `dealInitialCards` over a given deck order and list of memberships:
   * card m of the order goes to membership m / 7 at position m mod 7, and each listed
   * membership's counter becomes 7.
   */
  method DealInOrder(g: Game, deckCards: seq<nat>, players: seq<nat>)
    requires DeckOrder(g.cards, deckCards)
    requires forall k :: 0 <= k < |players| ==> players[k] < |g.gamePlayers|
    modifies g`cards, g`gamePlayers
    ensures var n := Min(7 * |players|, |deckCards|);
            g.cards == GiveSeq(old(g.cards), deckCards[..n], DealOwners(old(g.gamePlayers), players, |deckCards|)[..n], DealPositions(|deckCards|)[..n])
    ensures g.gamePlayers == SevenUpTo(old(g.gamePlayers), players, |players|)
  {
    ghost var c0, gps0 := g.cards, g.gamePlayers;
    var cardIndex := 0;
    for k := 0 to |players|
      invariant cardIndex == Min(7 * k, |deckCards|)
      invariant DealtUpTo(g.cards, c0, deckCards, gps0, players, cardIndex)
      invariant g.gamePlayers == SevenUpTo(gps0, players, k)
    {
      var gp := players[k];
      var owner := g.gamePlayers[gp].player;
      assert owner == gps0[gp].player;
      cardIndex := DealHand(g, c0, deckCards, gps0, players, k, owner, cardIndex);
      SevenStep(gps0, players, k);
      g.gamePlayers := g.gamePlayers[gp := g.gamePlayers[gp].(cardsCount := 7)];
    }
  }

  /**
   * The inner loop of `dealInitialCards`: up to seven cards, at positions 0..6, to the
   * k-th listed membership's player, while the deck order lasts.
   */
  method DealHand(g: Game, ghost c0: seq<Card>, deckCards: seq<nat>, ghost gps0: seq<GamePlayer>, ghost players: seq<nat>,
                  k: nat, owner: PlayerId, start: nat) returns (cardIndex: nat)
    requires DeckOrder(c0, deckCards)
    requires k < |players| && players[k] < |gps0| && owner == gps0[players[k]].player
    requires start == Min(7 * k, |deckCards|)
    requires start <= |deckCards| && DealtUpTo(g.cards, c0, deckCards, gps0, players, start)
    modifies g`cards
    ensures unchanged(g`gameCode, g`status, g`maxPlayers, g`minPlayers, g`currentPlayerIndex, g`direction, g`winner, g`createdBy, g`gamePlayers, g`events)
    ensures cardIndex == Min(7 * k + 7, |deckCards|)
    ensures cardIndex <= |deckCards| && DealtUpTo(g.cards, c0, deckCards, gps0, players, cardIndex)
  {
    cardIndex := start;
    for i := 0 to 7
      invariant cardIndex == Min(7 * k + i, |deckCards|)
      invariant DealtUpTo(g.cards, c0, deckCards, gps0, players, cardIndex)
    {
      if cardIndex < |deckCards| {
        DealSlot(c0, deckCards, gps0, players, g.cards, k, i, cardIndex);
        var card := deckCards[cardIndex];
        cardIndex := cardIndex + 1;
        g.cards := g.cards[card := Given(g.cards[card], owner, i)];
      }
    }
  }
}
