/**
 * The card entity. A game's cards live in one sequence and a card's id is its
 * index there; the owner is the id of the player holding it.
 */
module CardEntity {
  import opened Wrappers
  import opened Enums

  type PlayerId = nat

  /**
   * One card. `value` is the number of a NUMBER card and absent otherwise; `owner` is
   * absent while the card is in the deck or on the discard pile.
   */
  datatype Card = Card(
    cardType: CardType,
    color: CardColor,
    value: Option<int>,
    owner: Option<PlayerId>,
    isInDeck: bool,
    isTopCard: bool,
    positionInHand: Option<int>)

  /** The three-argument constructor: a new card is in the draw deck, owned by nobody, not on top. */
  function NewCard(t: CardType, c: CardColor, v: Option<int>): (r: Card)
    ensures r.cardType == t && r.color == c && r.value == v
    ensures r.isInDeck && !r.isTopCard
    ensures r.owner == None && r.positionInHand == None
  {
    Card(t, c, v, None, true, false, None)
  }

  /** The column tests the repository queries select on. */
  function IsInDeck(c: Card): bool { c.isInDeck }

  function IsTop(c: Card): bool { c.isTopCard }

  /** In `player`'s hand: owned by the player, neither in the deck nor on top. */
  function HeldBy(player: PlayerId): Card -> bool
  {
    (c: Card) => c.owner == Some(player) && !c.isInDeck && !c.isTopCard
  }

  /** On the discard pile below the top card: not in the deck, not on top, owned by nobody. */
  function InDiscardPile(c: Card): bool
  {
    !c.isInDeck && !c.isTopCard && c.owner.None?
  }

  /** A NUMBER card carries its number; unboxing an absent one throws. */
  function ValueOk(c: Card): bool
  {
    c.cardType == Number ==> c.value.Some?
  }

  function IsWildType(t: CardType): bool
  {
    t == Wild || t == WildDrawFour
  }
}
