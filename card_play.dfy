/**
 * What playing a card does to a game's card list (`playCardAction`): the card leaves
 * its hand and becomes the top of the discard pile, the previous top card goes down
 * into the pile, and a wild card takes the chosen colour.
 */
module CardPlay {
  import opened Wrappers
  import opened Seqs
  import opened Enums
  import opened CardEntity
  import opened CardRepository
  import opened GameEntity
  import opened CardMoves

  /** The card once played: nobody's, no hand position, on top, recoloured when wild and a colour was chosen. */
  function OnTop(c: Card, chosenColor: Option<CardColor>): (r: Card)
  {
    var taken := c.(owner := None, positionInHand := None, isTopCard := true);
    if (c.cardType == Wild || c.cardType == WildDrawFour) && chosenColor.Some? then taken.(color := chosenColor.value)
    else taken
  }

  /** The card taken out of its hand, before it goes on top. */
  function TakenOut(c: Card): Card
  {
    c.(owner := None, positionInHand := None)
  }

  /** A top card put down into the discard pile. */
  function PutDown(c: Card): Card
  {
    c.(isTopCard := false)
  }

  /**
   * The card list after card `id` is played: taken out of the hand, the first top card
   * (as `getTopCard` finds it then) put down, and the card put on top.
   */
  function PlayedCards(cards: seq<Card>, id: nat, chosenColor: Option<CardColor>): (r: seq<Card>)
    requires id < |cards|
    ensures |r| == |cards|
  {
    var out := cards[id := TakenOut(cards[id])];
    var oldTop := FirstWhere(out, IsTop);
    var down := if oldTop.Some? then out[oldTop.value := PutDown(out[oldTop.value])] else out;
    down[id := OnTop(cards[id], chosenColor)]
  }

  /**
   * Playing a card held in a hand: the card is the only top card, recoloured when wild
   * and a colour was chosen; every other card is as it was except that the previous top
   * card is no longer on top.
   */
  lemma PlayedCardsShape(cards: seq<Card>, id: nat, chosenColor: Option<CardColor>)
    requires id < |cards| && CardsOk(cards) && AtMostOneTop(cards) && cards[id].owner.Some?
    ensures var r := PlayedCards(cards, id, chosenColor);
            r[id] == OnTop(cards[id], chosenColor)
            && (forall j :: 0 <= j < |cards| && j != id ==> r[j] == PutDown(cards[j]))
            && (forall j :: 0 <= j < |cards| && j != id && !cards[j].isTopCard ==> r[j] == cards[j])
  {
    assert CardOk(cards[id]);
  }

  /** The played card is out of the deck and on top; its colour is the chosen one exactly when it is wild and one was chosen. */
  lemma OnTopCard(c: Card, chosenColor: Option<CardColor>)
    requires CardOk(c) && c.owner.Some?
    ensures var p := OnTop(c, chosenColor);
            p.isTopCard && !p.isInDeck && p.owner.None? && p.positionInHand.None? && CardOk(p)
            && p.cardType == c.cardType && p.value == c.value
            && p.color == (if IsWildType(c.cardType) && chosenColor.Some? then chosenColor.value else c.color)
  {
  }

  /**
   * The flags after a play: every card consistent, the played card the single top
   * card, and the previous top card, if any, on the discard pile.
   */
  lemma PlayedCardsFlags(cards: seq<Card>, id: nat, chosenColor: Option<CardColor>)
    requires id < |cards| && CardsOk(cards) && AtMostOneTop(cards) && cards[id].owner.Some?
    ensures var r := PlayedCards(cards, id, chosenColor);
            CardsOk(r) && AtMostOneTop(r) && HasTop(r) && r[id].isTopCard
            && (forall j :: 0 <= j < |cards| && r[j].isTopCard ==> j == id)
            && (forall j :: 0 <= j < |cards| && cards[j].isTopCard ==> InDiscardPile(r[j]))
  {
    var r := PlayedCards(cards, id, chosenColor);
    PlayedCardsShape(cards, id, chosenColor);
    OnTopCard(cards[id], chosenColor);
    assert r[id].isTopCard;
  }

  /** The change a card update makes to the number of cards satisfying `p`. */
  function Delta(p: Card -> bool, before: Card, after: Card): int
  {
    (if p(after) then 1 else 0) - (if p(before) then 1 else 0)
  }

  /** Taking a card that is not on top out of its hand leaves the first top card where it is. */
  lemma TakenOutTop(cards: seq<Card>, id: nat)
    requires id < |cards| && !cards[id].isTopCard
    ensures FirstWhere(cards[id := TakenOut(cards[id])], IsTop) == FirstWhere(cards, IsTop)
  {
    var out := cards[id := TakenOut(cards[id])];
    assert forall j :: 0 <= j < |cards| ==> IsTop(out[j]) == IsTop(cards[j]);
  }

  /**
   * How a play changes the number of cards satisfying `p`: the played card and the
   * previous top card each count once as they were before and once as they are after.
   */
  lemma PlayedFilter(cards: seq<Card>, id: nat, chosenColor: Option<CardColor>, p: Card -> bool)
    requires id < |cards| && !cards[id].isTopCard
    ensures var t := FirstWhere(cards, IsTop);
            |Filter(PlayedCards(cards, id, chosenColor), p)| == |Filter(cards, p)| + Delta(p, cards[id], OnTop(cards[id], chosenColor))
              + (if t.Some? then Delta(p, cards[t.value], PutDown(cards[t.value])) else 0)
  {
    var out := cards[id := TakenOut(cards[id])];
    TakenOutTop(cards, id);
    var oldTop := FirstWhere(out, IsTop);
    CountUpdate(cards, id, TakenOut(cards[id]), p);
    var down := if oldTop.Some? then out[oldTop.value := PutDown(out[oldTop.value])] else out;
    if oldTop.Some? {
      var t := oldTop.value;
      assert t != id && out[t] == cards[t];
      CountUpdate(out, t, PutDown(out[t]), p);
    }
    assert down[id] == TakenOut(cards[id]);
    CountUpdate(down, id, OnTop(cards[id], chosenColor), p);
  }

  /** A play leaves the draw deck as it was. */
  lemma PlayedDeckCount(cards: seq<Card>, id: nat, chosenColor: Option<CardColor>)
    requires id < |cards| && CardsOk(cards) && cards[id].owner.Some?
    ensures DeckCount(PlayedCards(cards, id, chosenColor)) == DeckCount(cards)
  {
    assert CardOk(cards[id]);
    PlayedFilter(cards, id, chosenColor, IsInDeck);
  }

  /** A play takes one card from the hand it came from and leaves every other hand as it was. */
  lemma PlayedHandCount(cards: seq<Card>, id: nat, chosenColor: Option<CardColor>, x: PlayerId)
    requires id < |cards| && CardsOk(cards) && cards[id].owner.Some?
    ensures CountPlayerCards(PlayedCards(cards, id, chosenColor), x) ==
              CountPlayerCards(cards, x) - (if cards[id].owner == Some(x) then 1 else 0)
  {
    assert CardOk(cards[id]);
    PlayedFilter(cards, id, chosenColor, HeldBy(x));
    var t := FirstWhere(cards, IsTop);
    if t.Some? {
      assert CardOk(cards[t.value]);
    }
  }

  /** A play adds the previous top card, if there was one, to the discard pile. */
  lemma PlayedPileCount(cards: seq<Card>, id: nat, chosenColor: Option<CardColor>)
    requires id < |cards| && CardsOk(cards) && cards[id].owner.Some?
    ensures |FindDiscardPileCards(PlayedCards(cards, id, chosenColor))| ==
              |FindDiscardPileCards(cards)| + (if HasTop(cards) then 1 else 0)
  {
    assert CardOk(cards[id]);
    PlayedFilter(cards, id, chosenColor, InDiscardPile);
    var t := FirstWhere(cards, IsTop);
    if t.Some? {
      assert CardOk(cards[t.value]);
    }
    WhereCount(cards, InDiscardPile);
    WhereCount(PlayedCards(cards, id, chosenColor), InDiscardPile);
  }

  /** Cards with the same top flags, length and consistency keep a game's card invariant. */
  lemma CardsFitKept(status: GameStatus, c0: seq<Card>, c1: seq<Card>)
    requires CardsFit(status, c0) && |c1| == |c0| && CardsOk(c1)
    requires forall j :: 0 <= j < |c0| ==> c1[j].isTopCard == c0[j].isTopCard
    ensures CardsFit(status, c1)
  {
    if status == InProgress || status == Finished {
      var t :| 0 <= t < |c0| && c0[t].isTopCard;
      assert c1[t].isTopCard;
    }
  }
}
