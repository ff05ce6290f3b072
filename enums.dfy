/**
 * The enumerations of the game engine: card types, card colours, game status and
 * direction of play, together with the names Java's `Enum.name()` gives them.
 */
module Enums {

  /** NUMBER (0-9), the coloured action cards, and the two wild cards. */
  datatype CardType = Number | Skip | Reverse | DrawTwo | Wild | WildDrawFour

  /** The four playable colours, and WILD, the colour a wild card has until it is played. */
  datatype CardColor = Red | Blue | Green | Yellow | WildColor

  datatype GameStatus = WaitingForPlayers | InProgress | Finished | Cancelled

  datatype GameDirection = Clockwise | CounterClockwise

  /** `CardType.name()`. */
  function TypeName(t: CardType): string
  {
    match t
    case Number => "NUMBER"
    case Skip => "SKIP"
    case Reverse => "REVERSE"
    case DrawTwo => "DRAW_TWO"
    case Wild => "WILD"
    case WildDrawFour => "WILD_DRAW_FOUR"
  }

  /** `CardColor.name()`. */
  function ColorName(c: CardColor): string
  {
    match c
    case Red => "RED"
    case Blue => "BLUE"
    case Green => "GREEN"
    case Yellow => "YELLOW"
    case WildColor => "WILD"
  }

  /** The four colours a deck is built from and a wild card may be given. */
  const PlayColors: seq<CardColor> := [Red, Blue, Green, Yellow]
}
