/**
 * The card queries of one game, over its card list. Rows are identified by their
 * index, so each query returns card ids.
 */
module CardRepository {
  import opened Wrappers
  import opened Seqs
  import opened CardEntity

  /** `findByGameIdAndIsInDeckTrue`: the ids of the cards in the draw deck, each once. */
  function FindDeckCards(cards: seq<Card>): (r: seq<nat>)
    ensures forall i :: 0 <= i < |r| ==> r[i] < |cards| && cards[r[i]].isInDeck
    ensures forall j :: 0 <= j < |cards| && cards[j].isInDeck ==> j in r
    ensures NoDup(r)
  {
    WhereNoDup(cards, IsInDeck);
    Where(cards, IsInDeck)
  }

  /** `findByGameIdAndPlayerIdAndIsInDeckFalseAndIsTopCardFalse`: the ids of the cards in a hand. */
  function FindPlayerHandCards(cards: seq<Card>, player: PlayerId): (r: seq<nat>)
    ensures forall i :: 0 <= i < |r| ==>
              r[i] < |cards| && cards[r[i]].owner == Some(player) && !cards[r[i]].isInDeck && !cards[r[i]].isTopCard
    ensures forall j :: 0 <= j < |cards| && HeldBy(player)(cards[j]) ==> j in r
    ensures NoDup(r)
  {
    WhereNoDup(cards, HeldBy(player));
    Where(cards, HeldBy(player))
  }

  /** `countPlayerCards`: the number of cards in a hand, the size of the hand query. */
  function CountPlayerCards(cards: seq<Card>, player: PlayerId): (r: nat)
    ensures r == |FindPlayerHandCards(cards, player)|
  {
    WhereCount(cards, HeldBy(player));
    |Filter(cards, HeldBy(player))|
  }

  /** At most one card is flagged as the top of the discard pile. */
  ghost predicate AtMostOneTop(cards: seq<Card>)
  {
    forall i, j :: 0 <= i < |cards| && 0 <= j < |cards| && cards[i].isTopCard && cards[j].isTopCard ==> i == j
  }

  /**
   * `findByGameIdAndIsTopCardTrue`: the single top card, if there is one. The query
   * is a single-result query, which fails when two rows match; the caller must
   * guarantee at most one.
   */
  function FindTopCard(cards: seq<Card>): (r: Option<nat>)
    requires AtMostOneTop(cards)
    ensures r.Some? <==> exists j :: 0 <= j < |cards| && cards[j].isTopCard
    ensures r.Some? ==> r.value < |cards| && cards[r.value].isTopCard
    ensures r.Some? ==> forall j :: 0 <= j < |cards| && cards[j].isTopCard ==> j == r.value
  {
    FirstWhere(cards, IsTop)
  }

  /**
   * `findDeckCardsRandomOrder`: the deck cards in an order chosen by the database's
   * `RANDOM()`. The order is the parameter `rank`, any permutation of the card ids.
   */
  function FindDeckCardsRandomOrder(cards: seq<Card>, rank: seq<nat>): (r: seq<nat>)
    requires IsRank(rank, |cards|)
    ensures forall i :: 0 <= i < |r| ==> r[i] < |cards| && cards[r[i]].isInDeck
    ensures multiset(r) == multiset(FindDeckCards(cards))
    ensures |r| == |Filter(cards, IsInDeck)|
    ensures NoDup(r)
  {
    RankOrderIsPermutation(cards, IsInDeck, rank);
    InRankOrder(cards, IsInDeck, rank)
  }

  /** `findDiscardPileCards`: the ids of the cards below the top of the discard pile. */
  function FindDiscardPileCards(cards: seq<Card>): (r: seq<nat>)
    ensures forall i :: 0 <= i < |r| ==>
              r[i] < |cards| && !cards[r[i]].isInDeck && !cards[r[i]].isTopCard && cards[r[i]].owner.None?
    ensures forall j :: 0 <= j < |cards| && InDiscardPile(cards[j]) ==> j in r
    ensures NoDup(r)
  {
    WhereNoDup(cards, InDiscardPile);
    Where(cards, InDiscardPile)
  }

  /** The discard pile never holds the top card nor a card of any hand. */
  lemma DiscardExcludesTopAndHands(cards: seq<Card>, player: PlayerId)
    ensures forall i :: 0 <= i < |FindDiscardPileCards(cards)| ==>
              FindDiscardPileCards(cards)[i] !in FindPlayerHandCards(cards, player)
    ensures forall j :: 0 <= j < |cards| && cards[j].isTopCard ==> j !in FindDiscardPileCards(cards)
  {
  }
}
