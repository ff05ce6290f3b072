/**
 * The start of a game: turning up the opening card, and `startGame` as a whole
 * (status, a fresh deck, the deal, the opening card, the start event), with what a
 * freshly started game looks like: seven cards in each active hand, one top card,
 * and the rest in the deck.
 */
module GameStart {
  import opened Wrappers
  import opened Seqs
  import opened Enums
  import opened CardEntity
  import opened GamePlayerEntity
  import opened GameEventEntity
  import opened CardRepository
  import opened GamePlayerRepository
  import opened GameEntity
  import opened Deck
  import opened CardMoves
  import opened EventLog
  import opened GameSetup
  import opened GameEventRepository

  /** The position in `order` of the first card that is not wild, if there is one. */
  function FirstNonWild(cards: seq<Card>, order: seq<nat>): (r: Option<nat>)
    requires forall m :: 0 <= m < |order| ==> order[m] < |cards|
    ensures r.Some? ==> r.value < |order| && !IsWildType(cards[order[r.value]].cardType)
    ensures r.Some? ==> forall m :: 0 <= m < r.value ==> IsWildType(cards[order[m]].cardType)
    ensures r.None? ==> forall m :: 0 <= m < |order| ==> IsWildType(cards[order[m]].cardType)
  {
    if order == [] then None
    else if !IsWildType(cards[order[0]].cardType) then Some(0)
    else
      match FirstNonWild(cards, order[1..])
      case None => None
      case Some(k) => Some(k + 1)
  }

  /** The first non-wild card of `order`, or its first card when every card listed is wild. */
  function FirstCard(cards: seq<Card>, order: seq<nat>): (id: nat)
    requires |order| > 0 && forall m :: 0 <= m < |order| ==> order[m] < |cards|
    ensures id in order
    ensures !IsWildType(cards[id].cardType) || forall m :: 0 <= m < |order| ==> IsWildType(cards[order[m]].cardType)
  {
    match FirstNonWild(cards, order)
    case Some(k) => order[k]
    case None => order[0]
  }

  /** Every deck card appears in the random deck order. */
  lemma DeckCardListed(cards: seq<Card>, rank: seq<nat>, j: nat)
    requires IsRank(rank, |cards|) && j < |cards| && cards[j].isInDeck
    ensures j in FindDeckCardsRandomOrder(cards, rank)
  {
    var all := FindDeckCards(cards);
    assert j in all;
    assert j in multiset(all);
  }

  /**
   * The card `setFirstCard` turns up: a deck card, and not a wild one unless every
   * card of the deck is wild.
   */
  function FirstCardId(cards: seq<Card>, rank: seq<nat>): (id: nat)
    requires IsRank(rank, |cards|) && DeckCount(cards) > 0
    ensures id < |cards| && cards[id].isInDeck
    ensures !IsWildType(cards[id].cardType) ||
            forall j :: 0 <= j < |cards| && cards[j].isInDeck ==> IsWildType(cards[j].cardType)
  {
    var order := FindDeckCardsRandomOrder(cards, rank);
    var id := FirstCard(cards, order);
    assert !IsWildType(cards[id].cardType) ||
           forall j :: 0 <= j < |cards| && cards[j].isInDeck ==> IsWildType(cards[j].cardType) by {
      forall j | 0 <= j < |cards| && cards[j].isInDeck && !IsWildType(cards[id].cardType) == false
        ensures IsWildType(cards[j].cardType)
      {
        DeckCardListed(cards, rank, j);
      }
    }
    id
  }

  /** A card turned up as the opening card: out of the deck, on top, nobody's. */
  function TurnedUp(c: Card): Card
  {
    c.(isInDeck := false, isTopCard := true, owner := None)
  }

  /** The card list after `setFirstCard`. */
  function WithFirstCard(cards: seq<Card>, rank: seq<nat>): (r: seq<Card>)
    requires IsRank(rank, |cards|) && DeckCount(cards) > 0
    ensures |r| == |cards|
  {
    var id := FirstCardId(cards, rank);
    cards[id := TurnedUp(cards[id])]
  }

  /** No card is flagged as the top card. */
  ghost predicate NoTop(cards: seq<Card>)
  {
    forall j :: 0 <= j < |cards| ==> !cards[j].isTopCard
  }

  /**
   * Turning up the opening card on a card list with no top card: the chosen card
   * becomes the only top card, every other card is unchanged, the deck loses one card,
   * no hand changes, and the per-card invariant still holds.
   */
  lemma FirstCardEffect(cards: seq<Card>, rank: seq<nat>)
    requires IsRank(rank, |cards|) && DeckCount(cards) > 0 && CardsOk(cards) && NoTop(cards)
    ensures var r, id := WithFirstCard(cards, rank), FirstCardId(cards, rank);
            r[id].isTopCard && !r[id].isInDeck && r[id].owner.None? &&
            forall j :: 0 <= j < |cards| && j != id ==> r[j] == cards[j]
    ensures CardsOk(WithFirstCard(cards, rank)) && AtMostOneTop(WithFirstCard(cards, rank))
    ensures HasTop(WithFirstCard(cards, rank))
    ensures DeckCount(WithFirstCard(cards, rank)) == DeckCount(cards) - 1
    ensures forall x :: CountPlayerCards(WithFirstCard(cards, rank), x) == CountPlayerCards(cards, x)
  {
    var r, id := WithFirstCard(cards, rank), FirstCardId(cards, rank);
    CountUpdate(cards, id, TurnedUp(cards[id]), IsInDeck);
    forall x ensures CountPlayerCards(r, x) == CountPlayerCards(cards, x) {
      CountUpdate(cards, id, TurnedUp(cards[id]), HeldBy(x));
    }
    assert r[id].isTopCard;
  }

  /** `setFirstCard`: the first non-wild card of a random deck order (else its first card) is turned up. */
  method SetFirstCard(g: Game, rank: seq<nat>)
    requires IsRank(rank, |g.cards|) && DeckCount(g.cards) > 0
    modifies g`cards
    ensures unchanged(g`gameCode, g`status, g`maxPlayers, g`minPlayers, g`currentPlayerIndex, g`direction, g`winner, g`createdBy, g`gamePlayers, g`events)
    ensures g.cards == WithFirstCard(old(g.cards), rank)
  {
    var deckCards := FindDeckCardsRandomOrder(g.cards, rank);
    var firstCard := FirstCard(g.cards, deckCards);
    g.cards := g.cards[firstCard := g.cards[firstCard].(isInDeck := false, isTopCard := true, owner := None)];
  }

  /** Cards fresh from the box: all in the deck, none on top, in no hand. */
  lemma NewCardsFacts(d: seq<Card>)
    requires AllNew(d)
    ensures CardsOk(d) && NoTop(d)
    ensures DeckCount(d) == |d|
    ensures forall x :: CountPlayerCards(d, x) == 0
  {
    FilterAll(d, IsInDeck);
    forall x ensures CountPlayerCards(d, x) == 0 {
      FilterNone(d, HeldBy(x));
    }
  }

  /** A deck fresh from the box: all 108 cards in the deck, none on top, in no hand. */
  lemma FreshDeck()
    ensures |StandardDeck| == DeckSize
    ensures CardsOk(StandardDeck) && NoTop(StandardDeck)
    ensures DeckCount(StandardDeck) == DeckSize
    ensures forall x :: CountPlayerCards(StandardDeck, x) == 0
  {
    StandardDeckNew();
    NewCardsFacts(StandardDeck);
  }

  /**
   * The deal on a fresh deck with at most four memberships: seven cards per active
   * membership leave the deck, no top card appears, and the per-card invariant holds.
   */
  lemma DealtDeck(gps: seq<GamePlayer>, rank: seq<nat>)
    requires |gps| <= 4 && IsRank(rank, DeckSize)
    ensures |StandardDeck| == DeckSize
    ensures DealCount(StandardDeck, gps) == 7 * CountActivePlayers(gps)
    ensures DeckCount(Dealt(StandardDeck, gps, rank)) == DeckSize - 7 * CountActivePlayers(gps)
    ensures CardsOk(Dealt(StandardDeck, gps, rank)) && NoTop(Dealt(StandardDeck, gps, rank))
  {
    FreshDeck();
    DealtDeckOf(StandardDeck, gps, rank);
  }

  /** The deal on a full deck of fresh cards with at most four memberships. */
  lemma DealtDeckOf(d: seq<Card>, gps: seq<GamePlayer>, rank: seq<nat>)
    requires |gps| <= 4 && |d| == DeckSize && IsRank(rank, DeckSize)
    requires CardsOk(d) && NoTop(d) && DeckCount(d) == DeckSize
    ensures DealCount(d, gps) == 7 * CountActivePlayers(gps)
    ensures DeckCount(Dealt(d, gps, rank)) == DeckSize - 7 * CountActivePlayers(gps)
    ensures CardsOk(Dealt(d, gps, rank)) && NoTop(Dealt(d, gps, rank))
  {
    assert CountActivePlayers(gps) <= |gps|;
    DealtEffect(d, gps, rank);
    DealtFlags(d, gps, rank);
  }

  /** After the deal on a fresh deck the deck still holds cards. */
  lemma DeckLeftAfterDeal(gps: seq<GamePlayer>, rank: seq<nat>)
    requires |gps| <= 4 && IsRank(rank, DeckSize)
    ensures |StandardDeck| == DeckSize
    ensures DeckCount(Dealt(StandardDeck, gps, rank)) > 0
  {
    DealtDeck(gps, rank);
  }

  /** The owners of the first 7a dealt cards: seven times each of the first a listed memberships' players. */
  function DealtTo(gps: seq<GamePlayer>, players: seq<nat>, a: nat): (r: seq<PlayerId>)
    requires a <= |players| && forall i :: 0 <= i < |players| ==> players[i] < |gps|
    ensures |r| == 7 * a
  {
    if a == 0 then [] else DealtTo(gps, players, a - 1) + Repeat(gps[players[a - 1]].player, 7)
  }

  lemma {:induction false} DealOwnersPrefix(gps: seq<GamePlayer>, players: seq<nat>, n: nat, a: nat)
    requires a <= |players| && 7 * a <= n && forall i :: 0 <= i < |players| ==> players[i] < |gps|
    ensures DealOwners(gps, players, n)[..7 * a] == DealtTo(gps, players, a)
  {
    if a > 0 {
      var owners := DealOwners(gps, players, n);
      DealOwnersPrefix(gps, players, n, a - 1);
      forall m | 7 * (a - 1) <= m < 7 * a ensures owners[m] == gps[players[a - 1]].player {
        DivSeven(a - 1, m - 7 * (a - 1));
      }
      assert owners[..7 * a] == owners[..7 * (a - 1)] + owners[7 * (a - 1)..7 * a];
      assert owners[7 * (a - 1)..7 * a] == Repeat(gps[players[a - 1]].player, 7);
    }
  }

  /** With distinct players and no membership listed twice, each listed player gets seven cards, others none. */
  lemma {:induction false} DealtToCount(gps: seq<GamePlayer>, players: seq<nat>, a: nat, x: PlayerId)
    requires a <= |players| && forall i :: 0 <= i < |players| ==> players[i] < |gps|
    requires DistinctPlayers(gps) && NoDup(players)
    ensures multiset(DealtTo(gps, players, a))[x] ==
              if exists i :: 0 <= i < a && gps[players[i]].player == x then 7 else 0
  {
    if a > 0 {
      var p := gps[players[a - 1]].player;
      DealtToCount(gps, players, a - 1, x);
      RepeatCount(p, 7, x);
      assert multiset(DealtTo(gps, players, a)) == multiset(DealtTo(gps, players, a - 1)) + multiset(Repeat(p, 7));
      if x == p {
        forall i | 0 <= i < a - 1 ensures gps[players[i]].player != x {
          assert players[i] != players[a - 1];
        }
      }
    }
  }

  /** On a fresh deck with at most four memberships the deal hands out seven cards per active membership. */
  lemma ActiveDealCount(gps: seq<GamePlayer>)
    requires |gps| <= 4
    ensures DealCount(StandardDeck, gps) == 7 * |FindActivePlayers(gps)|
  {
    FreshDeck();
    assert CountActivePlayers(gps) <= |gps|;
  }

  /** Among the first 7k deal owners, k active memberships, each active player occurs seven times and no one else. */
  lemma OwnersCount(gps: seq<GamePlayer>, players: seq<nat>, n: nat, x: PlayerId)
    requires players == FindActivePlayers(gps) && 7 * |players| <= n && DistinctPlayers(gps)
    ensures multiset(DealOwners(gps, players, n)[..7 * |players|])[x] ==
              if exists q :: 0 <= q < |gps| && gps[q].isActive && gps[q].player == x then 7 else 0
  {
    DealOwnersPrefix(gps, players, n, |players|);
    DealtToCount(gps, players, |players|, x);
    if exists q :: 0 <= q < |gps| && gps[q].isActive && gps[q].player == x {
      var q :| 0 <= q < |gps| && gps[q].isActive && gps[q].player == x;
      assert q in players;
      var i :| 0 <= i < |players| && players[i] == q;
    }
  }

  /**
   * When the deck holds enough for everyone, the deal leaves each active membership's
   * player with seven more cards than before, and every other player as before.
   */
  lemma DealtHandsOf(cards: seq<Card>, gps: seq<GamePlayer>, rank: seq<nat>, x: PlayerId)
    requires IsRank(rank, |cards|) && CardsOk(cards) && DistinctPlayers(gps)
    requires DealCount(cards, gps) == 7 * |FindActivePlayers(gps)|
    ensures CountPlayerCards(Dealt(cards, gps, rank), x) == CountPlayerCards(cards, x) +
              if exists q :: 0 <= q < |gps| && gps[q].isActive && gps[q].player == x then 7 else 0
  {
    var order, players := FindDeckCardsRandomOrder(cards, rank), FindActivePlayers(gps);
    var n := 7 * |players|;
    var owners, positions := DealOwners(gps, players, |order|), DealPositions(|order|);
    PrefixDeckOrder(cards, order, n);
    GiveSeqHandCount(cards, order[..n], owners[..n], positions[..n], x);
    OwnersCount(gps, players, |order|, x);
  }

  /**
   * After the deal on a fresh deck each active membership's player holds exactly seven
   * cards, and every other player none.
   */
  lemma DealtHands(gps: seq<GamePlayer>, rank: seq<nat>, x: PlayerId)
    requires |gps| <= 4 && IsRank(rank, DeckSize) && DistinctPlayers(gps)
    ensures |StandardDeck| == DeckSize
    ensures CountPlayerCards(Dealt(StandardDeck, gps, rank), x) ==
              if exists q :: 0 <= q < |gps| && gps[q].isActive && gps[q].player == x then 7 else 0
  {
    FreshDeck();
    ActiveDealCount(gps);
    DealtHandsOf(StandardDeck, gps, rank, x);
  }

  /** The card list of a freshly started game: a fresh deck, dealt, with the opening card turned up. */
  function StartingCards(gps: seq<GamePlayer>, dealRank: seq<nat>, firstRank: seq<nat>): (r: seq<Card>)
    requires |gps| <= 4 && IsRank(dealRank, DeckSize) && IsRank(firstRank, DeckSize)
    ensures |r| == DeckSize
  {
    DealtDeck(gps, dealRank);
    WithFirstCard(Dealt(StandardDeck, gps, dealRank), firstRank)
  }

  /** The three stages of `startGame`'s card list, built, dealt and opened, make up the starting cards. */
  lemma StartingCardsStages(gps: seq<GamePlayer>, dealRank: seq<nat>, firstRank: seq<nat>,
                            deck: seq<Card>, dealt: seq<Card>, turned: seq<Card>)
    requires |gps| <= 4 && IsRank(dealRank, DeckSize) && IsRank(firstRank, DeckSize)
    requires deck == StandardDeck && dealt == Dealt(deck, gps, dealRank)
    requires DeckCount(dealt) > 0 && turned == WithFirstCard(dealt, firstRank)
    ensures turned == StartingCards(gps, dealRank, firstRank)
  {
  }

  /**
   * A freshly started game: 108 cards, exactly one of them on top, seven in the hand
   * of each active membership's player and none in any other hand, and the remaining
   * 108 - 7k - 1 in the deck, k being the number of active memberships.
   */
  lemma StartingCardsFacts(gps: seq<GamePlayer>, dealRank: seq<nat>, firstRank: seq<nat>)
    requires |gps| <= 4 && IsRank(dealRank, DeckSize) && IsRank(firstRank, DeckSize) && DistinctPlayers(gps)
    ensures CardsOk(StartingCards(gps, dealRank, firstRank)) && AtMostOneTop(StartingCards(gps, dealRank, firstRank))
    ensures HasTop(StartingCards(gps, dealRank, firstRank))
    ensures DeckCount(StartingCards(gps, dealRank, firstRank)) == DeckSize - 7 * CountActivePlayers(gps) - 1
    ensures forall x :: CountPlayerCards(StartingCards(gps, dealRank, firstRank), x) ==
              if exists q :: 0 <= q < |gps| && gps[q].isActive && gps[q].player == x then 7 else 0
  {
    DealtDeck(gps, dealRank);
    var d := Dealt(StandardDeck, gps, dealRank);
    FirstCardEffect(d, firstRank);
    forall x ensures CountPlayerCards(StartingCards(gps, dealRank, firstRank), x) ==
                       if exists q :: 0 <= q < |gps| && gps[q].isActive && gps[q].player == x then 7 else 0 {
      DealtHands(gps, dealRank, x);
    }
  }

  /** Setting every active membership's counter to 7 keeps the seats and the players. */
  lemma SevenEachSeats(gps: seq<GamePlayer>)
    requires DistinctPlayers(gps)
    ensures |SevenEach(gps)| == |gps| && DistinctPlayers(SevenEach(gps))
    ensures forall q :: 0 <= q < |gps| ==> SevenEach(gps)[q].player == gps[q].player
  {
  }

  /**
   * The card steps of `startGame` on a game without cards: build a fresh deck, deal
   * seven cards to each active membership and turn up the opening card.
   */
  method PrepareCards(g: Game, dealRank: seq<nat>, firstRank: seq<nat>)
    requires g.cards == [] && |g.gamePlayers| <= 4 && DistinctPlayers(g.gamePlayers)
    requires IsRank(dealRank, DeckSize) && IsRank(firstRank, DeckSize)
    modifies g`cards, g`gamePlayers
    ensures unchanged(g`gameCode, g`status, g`maxPlayers, g`minPlayers, g`currentPlayerIndex, g`direction, g`winner, g`createdBy, g`events)
    ensures g.cards == StartingCards(old(g.gamePlayers), dealRank, firstRank)
    ensures g.gamePlayers == SevenEach(old(g.gamePlayers))
    ensures |g.cards| == DeckSize && CardsOk(g.cards) && AtMostOneTop(g.cards) && HasTop(g.cards)
    ensures DeckCount(g.cards) == DeckSize - 7 * CountActivePlayers(old(g.gamePlayers)) - 1
    ensures forall x :: CountPlayerCards(g.cards, x) ==
              if exists q :: 0 <= q < |old(g.gamePlayers)| && old(g.gamePlayers)[q].isActive && old(g.gamePlayers)[q].player == x then 7 else 0
    ensures |g.gamePlayers| == |old(g.gamePlayers)| && DistinctPlayers(g.gamePlayers)
  {
    ghost var gps := g.gamePlayers;
    CreateDeck(g);
    ghost var deck := g.cards;
    assert deck == StandardDeck;
    DealInitialCards(g, dealRank);
    ghost var dealt := g.cards;
    assert dealt == Dealt(deck, gps, dealRank);
    DeckLeftAfterDeal(gps, dealRank);
    SetFirstCard(g, firstRank);
    StartingCardsStages(gps, dealRank, firstRank, deck, dealt, g.cards);
    StartingCardsFacts(gps, dealRank, firstRank);
    SevenEachSeats(gps);
  }

  /**
   * `startGame`: the game is IN_PROGRESS with a fresh deck of 108 cards, seven of them
   * in the hand of each active membership's player and none in any other hand, one
   * card turned up and the rest in the deck; every active membership's counter is 7;
   * GAME_STARTED is logged with the membership count; the game stays valid.
   */
  method StartGame(g: Game, dealRank: seq<nat>, firstRank: seq<nat>)
    requires g.Valid() && g.status == WaitingForPlayers
    requires IsRank(dealRank, DeckSize) && IsRank(firstRank, DeckSize)
    modifies g`status, g`cards, g`gamePlayers, g`events
    ensures unchanged(g`gameCode, g`maxPlayers, g`minPlayers, g`currentPlayerIndex, g`direction, g`winner, g`createdBy)
    ensures g.status == InProgress
    ensures g.cards == StartingCards(old(g.gamePlayers), dealRank, firstRank)
    ensures |g.cards| == DeckSize && HasTop(g.cards)
    ensures DeckCount(g.cards) == DeckSize - 7 * CountActivePlayers(old(g.gamePlayers)) - 1
    ensures forall x :: CountPlayerCards(g.cards, x) ==
              if exists q :: 0 <= q < |old(g.gamePlayers)| && old(g.gamePlayers)[q].isActive && old(g.gamePlayers)[q].player == x then 7 else 0
    ensures g.gamePlayers == SevenEach(old(g.gamePlayers))
    ensures g.events == Logged(old(g.events), None, GameStarted, Started(|old(g.gamePlayers)|))
    ensures g.Valid()
  {
    ghost var gps, ev := g.gamePlayers, g.events;
    g.status := InProgress;
    PrepareCards(g, dealRank, firstRank);
    LogGameEvent(g, None, GameStarted, Started(|g.gamePlayers|));
    LoggedNumbered(ev, None, GameStarted, Started(|gps|));
  }
}
