/**
 * The UNO rules as static predicates over cards, memberships and games: which card
 * may be played on which, what a played card does, and how a hand is scored.
 * An absent card (Java `null`) is `None`.
 */
module UnoGameRules {
  import opened Wrappers
  import opened Enums
  import opened CardEntity
  import opened GamePlayerEntity
  import opened GameEntity
  import opened CardDtos

  /** Same colour, same action type, or two NUMBER cards with the same number. */
  predicate Matches(c: Card, top: Card)
  {
    c.color == top.color
    || (c.cardType == top.cardType && c.cardType != Number)
    || (c.cardType == Number && top.cardType == Number && c.value == top.value)
  }

  /**
   * `canPlayCard`: false when either card is absent; a wild card is always playable;
   * any other card exactly when it matches the top card.
   */
  function CanPlayCard(cardToPlay: Option<Card>, topCard: Option<Card>): (r: bool)
    requires cardToPlay.Some? ==> ValueOk(cardToPlay.value)
    ensures cardToPlay.None? || topCard.None? ==> !r
    ensures cardToPlay.Some? && topCard.Some? && IsWildType(cardToPlay.value.cardType) ==> r
    ensures cardToPlay.Some? && topCard.Some? && !IsWildType(cardToPlay.value.cardType) ==>
              (r <==> Matches(cardToPlay.value, topCard.value))
  {
    if cardToPlay.None? || topCard.None? then false
    else
      var c, top := cardToPlay.value, topCard.value;
      if c.cardType == Wild || c.cardType == WildDrawFour then true
      else if c.color == top.color then true
      else if c.cardType == top.cardType && c.cardType != Number then true
      else if c.cardType == Number && top.cardType == Number then Some(c.value.value) == top.value
      else false
  }

  /** `isPlayableOn` of a card: the same judgement as `canPlayCard`. */
  function IsPlayableOn(c: Card, topCard: Option<Card>): (r: bool)
    requires ValueOk(c)
    ensures r == CanPlayCard(Some(c), topCard)
    ensures topCard.None? ==> !r
  {
    CanPlayCard(Some(c), topCard)
  }

  /** `isValidColorChoice`: one of the four colours a deck is dealt in; never WILD, never absent. */
  function IsValidColorChoice(color: Option<CardColor>): (r: bool)
    ensures r <==> color.Some? && color.value in PlayColors
  {
    color == Some(Red) || color == Some(Blue) || color == Some(Green) || color == Some(Yellow)
  }

  function RequiresColorChoice(c: Card): bool
  {
    c.cardType == Wild || c.cardType == WildDrawFour
  }

  function IsActionCard(c: Card): bool
  {
    c.cardType == Skip || c.cardType == Reverse || c.cardType == DrawTwo
    || c.cardType == Wild || c.cardType == WildDrawFour
  }

  function GetCardDrawCount(c: Card): nat
  {
    match c.cardType
    case DrawTwo => 2
    case WildDrawFour => 4
    case _ => 0
  }

  function CausesSkip(c: Card): bool
  {
    c.cardType == Skip || c.cardType == DrawTwo || c.cardType == WildDrawFour
  }

  function CausesReverse(c: Card): bool
  {
    c.cardType == Reverse
  }

  function IsValidFirstCard(c: Card): bool
  {
    c.cardType == Number
  }

  /**
   * How the card kinds line up: action card, not a valid opening card and not NUMBER
   * are one and the same; exactly the wild cards need a colour; every card that makes
   * someone draw also skips; only REVERSE reverses.
   */
  lemma CardKinds(c: Card)
    ensures IsActionCard(c) <==> c.cardType != Number
    ensures IsActionCard(c) <==> !IsValidFirstCard(c)
    ensures RequiresColorChoice(c) <==> IsWildType(c.cardType)
    ensures GetCardDrawCount(c) > 0 ==> CausesSkip(c)
    ensures GetCardDrawCount(c) == 2 <==> c.cardType == DrawTwo
    ensures GetCardDrawCount(c) == 4 <==> c.cardType == WildDrawFour
    ensures CausesSkip(c) <==> c.cardType in {Skip, DrawTwo, WildDrawFour}
    ensures CausesReverse(c) ==> !CausesSkip(c) && GetCardDrawCount(c) == 0
  {
  }

  /** A card that needs a colour choice can be played on any top card. */
  lemma WildAlwaysPlayable(c: Card, top: Card)
    requires ValueOk(c) && RequiresColorChoice(c)
    ensures CanPlayCard(Some(c), Some(top))
  {
  }

  /** `shouldCallUno` on a membership. */
  function ShouldCallUnoRule(gp: GamePlayer): (r: bool)
    ensures r <==> ShouldCallUno(gp)
  {
    gp.cardsCount == 1 && !gp.hasCalledUno
  }

  /** `hasWon` on a membership. */
  function HasWonRule(gp: GamePlayer): (r: bool)
    ensures r <==> HasWon(gp)
  {
    gp.cardsCount == 0
  }

  /** `canStartGame`: the same test as the game's own `canStart`. */
  function CanStartGame(g: Game): (r: bool)
    reads g
    ensures r <==> g.CanStart()
  {
    |g.gamePlayers| >= g.minPlayers && |g.gamePlayers| <= g.maxPlayers
  }

  /** `isGameFull`: the same test as the game's own `isFull`. */
  function IsGameFull(g: Game): (r: bool)
    reads g
    ensures r <==> g.IsFull()
  {
    |g.gamePlayers| >= g.maxPlayers
  }

  /** `hasPlayableCard`: some card of the hand may be played on the top card. */
  function HasPlayableCard(hand: seq<Card>, topCard: Option<Card>): (r: bool)
    requires forall i :: 0 <= i < |hand| ==> ValueOk(hand[i])
    ensures r <==> exists i :: 0 <= i < |hand| && CanPlayCard(Some(hand[i]), topCard)
  {
    if hand == [] then false
    else CanPlayCard(Some(hand[0]), topCard) || HasPlayableCard(hand[1..], topCard)
  }

  /** `getCardPoints`: a NUMBER card scores its number, a coloured action card 20, a wild card 50. */
  function GetCardPoints(c: Card): (r: int)
    requires ValueOk(c)
    ensures c.cardType == Number ==> r == c.value.value
    ensures c.cardType in {Skip, Reverse, DrawTwo} ==> r == 20
    ensures IsWildType(c.cardType) ==> r == 50
  {
    match c.cardType
    case Number => c.value.value
    case Skip => 20
    case Reverse => 20
    case DrawTwo => 20
    case Wild => 50
    case WildDrawFour => 50
  }

  predicate ScorableHand(hand: seq<Card>)
  {
    forall i :: 0 <= i < |hand| ==> ValueOk(hand[i])
  }

  /** A hand of real cards: every number is a digit. */
  predicate DigitHand(hand: seq<Card>)
  {
    forall i :: 0 <= i < |hand| ==> ValueOk(hand[i]) && (hand[i].value.Some? ==> 0 <= hand[i].value.value <= 9)
  }

  /**
   * `calculateScore`: the sum of the card points of the hand; 0 for an empty hand,
   * and between 0 and 50 points per card for a hand of real cards.
   */
  function CalculateScore(hand: seq<Card>): (r: int)
    requires ScorableHand(hand)
    ensures hand == [] ==> r == 0
    ensures DigitHand(hand) ==> 0 <= r <= 50 * |hand|
  {
    if hand == [] then 0 else GetCardPoints(hand[0]) + CalculateScore(hand[1..])
  }

  /** The score of two hands together is the sum of their scores. */
  lemma {:induction false} ScoreConcat(a: seq<Card>, b: seq<Card>)
    requires ScorableHand(a) && ScorableHand(b)
    ensures ScorableHand(a + b)
    ensures CalculateScore(a + b) == CalculateScore(a) + CalculateScore(b)
  {
    if a != [] {
      assert (a + b)[1..] == a[1..] + b;
      ScoreConcat(a[1..], b);
    } else {
      assert a + b == b;
    }
  }

  /** RED 5, a SKIP and a WILD score 5 + 20 + 50 = 75. */
  lemma ScoreExample()
    ensures CalculateScore([NewCard(Number, Red, Some(5)), NewCard(Skip, Blue, None), NewCard(Wild, WildColor, None)]) == 75
  {
    var hand := [NewCard(Number, Red, Some(5)), NewCard(Skip, Blue, None), NewCard(Wild, WildColor, None)];
    assert hand[1..][1..][1..] == [];
  }

  /**
   * `getCardDescription`: the same text a card's view displays, so a wild card reads
   * "WILD" or "WILD DRAW FOUR" whatever colour was chosen for it.
   */
  function GetCardDescription(c: Card): (r: string)
    ensures r == GetDisplayName(CardDtos.FromEntity([c], 0))
    ensures IsWildType(c.cardType) ==> r == DisplayName(c.cardType, WildColor, None)
  {
    DisplayName(c.cardType, c.color, c.value)
  }

  /** Some card of the hand has colour `color`. */
  function AnyOfColor(hand: seq<Card>, color: CardColor): (r: bool)
    ensures r <==> exists i :: 0 <= i < |hand| && hand[i].color == color
  {
    if hand == [] then false else hand[0].color == color || AnyOfColor(hand[1..], color)
  }

  /**
   * `canChallengeWildDrawFour`: only a WILD_DRAW_FOUR can be challenged, and only when
   * the hand it came from held a card of the top card's colour.
   */
  function CanChallengeWildDrawFour(playedCard: Card, previousPlayerHand: seq<Card>, topCard: Card): (r: bool)
    ensures playedCard.cardType != WildDrawFour ==> !r
    ensures playedCard.cardType == WildDrawFour ==>
              (r <==> exists i :: 0 <= i < |previousPlayerHand| && previousPlayerHand[i].color == topCard.color)
  {
    if playedCard.cardType != WildDrawFour then false
    else AnyOfColor(previousPlayerHand, topCard.color)
  }
}
