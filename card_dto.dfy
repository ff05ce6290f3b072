/**
 * The view of a card sent to clients (`CardDto`) and its display name.
 */
module CardDtos {
  import opened Wrappers
  import opened Enums
  import opened CardEntity
  import opened Strings

  datatype CardDto = CardDto(
    id: nat,
    cardType: CardType,
    color: CardColor,
    value: Option<int>,
    positionInHand: Option<int>)

  /** `fromEntity`: the card's id, type, colour, number and hand position, copied unchanged. */
  function FromEntity(cards: seq<Card>, id: nat): (r: CardDto)
    requires id < |cards|
    ensures r.id == id
    ensures r.cardType == cards[id].cardType && r.color == cards[id].color
    ensures r.value == cards[id].value && r.positionInHand == cards[id].positionInHand
  {
    var c := cards[id];
    CardDto(id, c.cardType, c.color, c.value, c.positionInHand)
  }

  /** Java's string conversion of an `Integer`: its digits, or "null". */
  function ValueText(v: Option<int>): string
  {
    if v.None? then "null" else IntToString(v.value)
  }

  /**
   * The display name of a card face: "<COLOR> <number>" for a NUMBER card, the type
   * name with spaces for a wild card whatever its colour, "<COLOR> <TYPE>" otherwise.
   */
  function DisplayName(t: CardType, c: CardColor, v: Option<int>): (r: string)
    ensures t == Number ==> r == ColorName(c) + " " + ValueText(v)
    ensures IsWildType(t) ==> r == UnderscoresToSpaces(TypeName(t))
    ensures t != Number && !IsWildType(t) ==> r == ColorName(c) + " " + UnderscoresToSpaces(TypeName(t))
  {
    if t == Number then ColorName(c) + " " + ValueText(v)
    else if t == Wild || t == WildDrawFour then UnderscoresToSpaces(TypeName(t))
    else ColorName(c) + " " + UnderscoresToSpaces(TypeName(t))
  }

  /** `getDisplayName`. */
  function GetDisplayName(d: CardDto): (r: string)
    ensures r == DisplayName(d.cardType, d.color, d.value)
  {
    DisplayName(d.cardType, d.color, d.value)
  }

  /** The type names with underscores replaced, as literals. */
  lemma SpacedTypeNames()
    ensures UnderscoresToSpaces(TypeName(Wild)) == "WILD"
    ensures UnderscoresToSpaces(TypeName(WildDrawFour)) == "WILD DRAW FOUR"
    ensures UnderscoresToSpaces(TypeName(DrawTwo)) == "DRAW TWO"
    ensures UnderscoresToSpaces(TypeName(Skip)) == "SKIP"
    ensures UnderscoresToSpaces(TypeName(Reverse)) == "REVERSE"
  {
    SpacedName("WILD", "WILD");
    SpacedName("WILD_DRAW_FOUR", "WILD DRAW FOUR");
    SpacedName("DRAW_TWO", "DRAW TWO");
    SpacedName("SKIP", "SKIP");
    SpacedName("REVERSE", "REVERSE");
  }

  lemma SpacedName(s: string, spaced: string)
    requires |s| == |spaced|
    requires forall i :: 0 <= i < |s| ==> spaced[i] == (if s[i] == '_' then ' ' else s[i])
    ensures UnderscoresToSpaces(s) == spaced
  {
  }

  /** A wild card shows its type whatever colour it was given; other cards show their colour. */
  lemma DisplayNameExamples(c: CardColor)
    ensures DisplayName(Wild, c, None) == "WILD"
    ensures DisplayName(WildDrawFour, c, None) == "WILD DRAW FOUR"
    ensures DisplayName(DrawTwo, Red, None) == "RED DRAW TWO"
    ensures DisplayName(Skip, Yellow, None) == "YELLOW SKIP"
    ensures DisplayName(Number, Green, Some(7)) == "GREEN 7"
  {
    SpacedTypeNames();
  }

  /** A face as the deck makes it: a non-wild card has a play colour, a NUMBER card its number. */
  predicate RealFace(t: CardType, c: CardColor, v: Option<int>)
  {
    (t == Number <==> v.Some?) && (!IsWildType(t) ==> c != WildColor)
  }

  /** The first letter of a play colour's name tells the colour. */
  lemma ColorFromFirstChar(a: CardColor, b: CardColor)
    requires a != WildColor && b != WildColor && ColorName(a)[0] == ColorName(b)[0]
    ensures a == b
  {
  }

  /** The first letter of a coloured action type's spaced name tells the type. */
  lemma TypeFromFirstChar(a: CardType, b: CardType)
    requires a in {Skip, Reverse, DrawTwo} && b in {Skip, Reverse, DrawTwo}
    requires UnderscoresToSpaces(TypeName(a))[0] == UnderscoresToSpaces(TypeName(b))[0]
    ensures a == b
  {
  }

  /** The text after the colour: the number of a NUMBER card, the spaced type name otherwise. */
  function Rest(t: CardType, v: Option<int>): string
  {
    if t == Number then ValueText(v) else UnderscoresToSpaces(TypeName(t))
  }

  /** A number starts with a digit or a minus sign, an action name with a letter. */
  lemma RestFirstChar(t: CardType, v: Option<int>)
    requires (t == Number <==> v.Some?) && !IsWildType(t)
    ensures |Rest(t, v)| > 0
    ensures Rest(t, v)[0] in {'S', 'R', 'D'} <==> t != Number
  {
  }

  /** A wild card's name starts with W, every other real face's with its colour's initial. */
  lemma NameFirstChar(t: CardType, c: CardColor, v: Option<int>)
    requires RealFace(t, c, v)
    ensures |DisplayName(t, c, v)| > 0
    ensures DisplayName(t, c, v)[0] == 'W' <==> IsWildType(t)
    ensures !IsWildType(t) ==> DisplayName(t, c, v)[0] == ColorName(c)[0]
  {
  }

  lemma ColouredName(t: CardType, c: CardColor, v: Option<int>)
    requires !IsWildType(t)
    ensures DisplayName(t, c, v) == ColorName(c) + " " + Rest(t, v)
  {
  }

  /** Equal texts after the colour mean the same type and number. */
  lemma RestInjective(t1: CardType, v1: Option<int>, t2: CardType, v2: Option<int>)
    requires (t1 == Number <==> v1.Some?) && (t2 == Number <==> v2.Some?)
    requires !IsWildType(t1) && !IsWildType(t2)
    requires Rest(t1, v1) == Rest(t2, v2)
    ensures t1 == t2 && v1 == v2
  {
    RestFirstChar(t1, v1);
    RestFirstChar(t2, v2);
    if t1 == Number {
      IntToStringInjective(v1.value, v2.value);
    } else {
      TypeFromFirstChar(t1, t2);
    }
  }

  /** Equal coloured names mean the same colour and the same text after it. */
  lemma ColouredNameInjective(c1: CardColor, r1: string, c2: CardColor, r2: string)
    requires c1 != WildColor && c2 != WildColor
    requires ColorName(c1) + " " + r1 == ColorName(c2) + " " + r2
    ensures c1 == c2 && r1 == r2
  {
    var n := ColorName(c1) + " " + r1;
    assert n[0] == ColorName(c1)[0] && n[0] == ColorName(c2)[0];
    ColorFromFirstChar(c1, c2);
    var p := |ColorName(c1)| + 1;
    assert n[p..] == r1;
    assert (ColorName(c2) + " " + r2)[p..] == r2;
  }

  /**
   * The display name tells the face apart: equal names mean the same type and, for
   * cards that are not wild, the same colour and number.
   */
  lemma DisplayNameInjective(t1: CardType, c1: CardColor, v1: Option<int>, t2: CardType, c2: CardColor, v2: Option<int>)
    requires RealFace(t1, c1, v1) && RealFace(t2, c2, v2)
    requires DisplayName(t1, c1, v1) == DisplayName(t2, c2, v2)
    ensures t1 == t2
    ensures !IsWildType(t1) ==> c1 == c2 && v1 == v2
  {
    NameFirstChar(t1, c1, v1);
    NameFirstChar(t2, c2, v2);
    if IsWildType(t1) {
      assert |DisplayName(Wild, c1, v1)| == 4 && |DisplayName(WildDrawFour, c1, v1)| == 14;
    } else {
      ColouredName(t1, c1, v1);
      ColouredName(t2, c2, v2);
      ColouredNameInjective(c1, Rest(t1, v1), c2, Rest(t2, v2));
      RestInjective(t1, v1, t2, v2);
    }
  }
}
