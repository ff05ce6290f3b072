/**
 * The standard 108-card UNO deck the engine builds when a game starts, as the
 * sequence it is built in, and its composition: per colour one 0, two of each
 * 1-9, two SKIP, two REVERSE and two DRAW_TWO; then four WILD and four
 * WILD_DRAW_FOUR coloured WILD.
 */
module Deck {
  import opened Wrappers
  import opened Seqs
  import opened Enums
  import opened CardEntity

  function NumberCard(c: CardColor, n: int): Card { NewCard(Number, c, Some(n)) }

  function ActionCard(t: CardType, c: CardColor): Card { NewCard(t, c, None) }

  /** Two cards of each number 1..m in colour c, in increasing order. */
  function NumberPairs(c: CardColor, m: nat): (r: seq<Card>)
    ensures |r| == 2 * m
  {
    if m == 0 then [] else NumberPairs(c, m - 1) + [NumberCard(c, m), NumberCard(c, m)]
  }

  function ActionCards(c: CardColor): seq<Card>
  {
    ActionPair(Skip, c) + ActionPair(Reverse, c) + ActionPair(DrawTwo, c)
  }

  function ActionPair(t: CardType, c: CardColor): seq<Card>
  {
    [ActionCard(t, c), ActionCard(t, c)]
  }

  /** The highest number on a card. */
  const TopNumber: nat := 9

  /** The 25 cards of one colour, in the order they are added. */
  function ColorBlock(c: CardColor): (r: seq<Card>)
    ensures |r| == 25
  {
    [NumberCard(c, 0)] + NumberPairs(c, TopNumber) + ActionCards(c)
  }

  /** The blocks of the colours `cs`, in order. */
  function ColorBlocks(cs: seq<CardColor>): (r: seq<Card>)
    ensures |r| == 25 * |cs|
  {
    BlocksLength(cs, ColorBlock);
    Blocks(cs, ColorBlock)
  }

  /** The blocks `block(c)` of the colours `cs`, in order. */
  function Blocks(cs: seq<CardColor>, block: CardColor -> seq<Card>): seq<Card>
  {
    if cs == [] then [] else Blocks(cs[..|cs| - 1], block) + block(cs[|cs| - 1])
  }

  lemma {:induction false} BlocksLength(cs: seq<CardColor>, block: CardColor -> seq<Card>)
    requires forall c :: |block(c)| == 25
    ensures |Blocks(cs, block)| == 25 * |cs|
  {
    if cs != [] {
      BlocksLength(cs[..|cs| - 1], block);
    }
  }

  /** m pairs (WILD, WILD_DRAW_FOUR), coloured WILD. */
  function WildPairs(m: nat): (r: seq<Card>)
    ensures |r| == 2 * m
  {
    if m == 0 then [] else WildPairs(m - 1) + [ActionCard(Wild, WildColor), ActionCard(WildDrawFour, WildColor)]
  }

  /** The number of WILD cards, and of WILD_DRAW_FOUR cards, in a deck. */
  const WildPairCount: nat := 4

  /** The card at position j of a colour block: 0, then 1..9 twice each, then the actions. */
  function BlockCard(c: CardColor, j: nat): Card
  {
    if j == 0 then NumberCard(c, 0)
    else if j <= 2 * TopNumber then NumberCard(c, (j + 1) / 2)
    else if j <= 2 * TopNumber + 2 then ActionCard(Skip, c)
    else if j <= 2 * TopNumber + 4 then ActionCard(Reverse, c)
    else ActionCard(DrawTwo, c)
  }

  /** The card at position k of a run of wild pairs. */
  function WildCard(k: nat): Card
  {
    if k % 2 == 0 then ActionCard(Wild, WildColor) else ActionCard(WildDrawFour, WildColor)
  }

  /** The card at position i of the blocks of `cs` followed by m wild pairs. */
  function DeckCardAt(cs: seq<CardColor>, m: nat, i: nat): Card
    requires i < 25 * |cs| + 2 * m
  {
    if i < 25 * |cs| then BlockCard(cs[i / 25], i % 25) else WildCard(i - 25 * |cs|)
  }

  /** The blocks of the colours `cs` followed by m wild pairs, given card by card. */
  function BuiltDeck(cs: seq<CardColor>, m: nat): (r: seq<Card>)
    ensures |r| == 25 * |cs| + 2 * m
  {
    seq(25 * |cs| + 2 * m, i requires 0 <= i < 25 * |cs| + 2 * m => DeckCardAt(cs, m, i))
  }

  /** The whole deck: the four colour blocks, then four wild pairs. */
  const StandardDeck: seq<Card> := BuiltDeck(PlayColors, WildPairCount)

  lemma {:induction false} NumberPairsAt(c: CardColor, m: nat, k: nat)
    requires k < 2 * m
    ensures NumberPairs(c, m)[k] == NumberCard(c, k / 2 + 1)
  {
    if k < 2 * (m - 1) {
      NumberPairsAt(c, m - 1, k);
    }
  }

  lemma ColorBlockAt(c: CardColor, j: nat)
    requires j < 25
    ensures ColorBlock(c)[j] == BlockCard(c, j)
  {
    var pairs := NumberPairs(c, TopNumber);
    var front := [NumberCard(c, 0)] + pairs;
    assert ColorBlock(c) == front + ActionCards(c);
    if j < 2 * TopNumber + 1 {
      assert ColorBlock(c)[j] == front[j];
      if j >= 1 {
        assert front[j] == pairs[j - 1];
        NumberPairsAt(c, TopNumber, j - 1);
        assert (j - 1) / 2 + 1 == (j + 1) / 2;
        assert BlockCard(c, j) == NumberCard(c, (j + 1) / 2);
      } else {
        assert BlockCard(c, j) == NumberCard(c, 0);
      }
    } else {
      var k := j - 2 * TopNumber - 1;
      assert ColorBlock(c)[j] == ActionCards(c)[k];
      if k < 2 {
        assert BlockCard(c, j) == ActionCard(Skip, c);
      } else if k < 4 {
        assert BlockCard(c, j) == ActionCard(Reverse, c);
      } else {
        assert BlockCard(c, j) == ActionCard(DrawTwo, c);
      }
    }
  }

  lemma ColorBlocksAt(cs: seq<CardColor>, i: nat)
    requires i < 25 * |cs|
    ensures ColorBlocks(cs)[i] == ColorBlock(cs[i / 25])[i % 25]
  {
    BlocksAt(cs, ColorBlock, i);
  }

  lemma {:induction false} BlocksAt(cs: seq<CardColor>, block: CardColor -> seq<Card>, i: nat)
    requires forall c :: |block(c)| == 25
    requires i < 25 * |cs|
    ensures |Blocks(cs, block)| == 25 * |cs|
    ensures Blocks(cs, block)[i] == block(cs[i / 25])[i % 25]
  {
    var k := |cs| - 1;
    var init := cs[..k];
    BlocksLength(cs, block);
    BlocksLength(init, block);
    if i < 25 * k {
      BlocksAt(init, block, i);
      assert init[i / 25] == cs[i / 25];
    } else {
      DivByBlock(k, i - 25 * k);
    }
  }

  lemma DivByBlock(k: nat, j: nat)
    requires j < 25
    ensures (25 * k + j) / 25 == k && (25 * k + j) % 25 == j
  {
  }

  lemma {:induction false} WildPairsAt(m: nat, k: nat)
    requires k < 2 * m
    ensures WildPairs(m)[k] == WildCard(k)
  {
    if k < 2 * (m - 1) {
      WildPairsAt(m - 1, k);
    }
  }

  /** Card by card, the built deck is the colour blocks followed by the wild pairs. */
  lemma DeckLayout(cs: seq<CardColor>, m: nat)
    ensures BuiltDeck(cs, m) == ColorBlocks(cs) + WildPairs(m)
  {
    var built := ColorBlocks(cs) + WildPairs(m);
    forall i | 0 <= i < 25 * |cs| + 2 * m
      ensures BuiltDeck(cs, m)[i] == built[i]
    {
      DeckCardIs(cs, m, i);
    }
  }

  lemma DeckCardIs(cs: seq<CardColor>, m: nat, i: nat)
    requires i < 25 * |cs| + 2 * m
    ensures DeckCardAt(cs, m, i) == (ColorBlocks(cs) + WildPairs(m))[i]
  {
    if i < 25 * |cs| {
      ColorBlocksAt(cs, i);
      ColorBlockAt(cs[i / 25], i % 25);
    } else {
      WildPairsAt(m, i - 25 * |cs|);
    }
  }

  /** The face of a card: what it shows, whoever holds it. */
  function HasFace(t: CardType, c: CardColor, v: Option<int>): Card -> bool
  {
    (x: Card) => x.cardType == t && x.color == c && x.value == v
  }

  function CountFace(s: seq<Card>, t: CardType, c: CardColor, v: Option<int>): nat
  {
    |Filter(s, HasFace(t, c, v))|
  }

  /** How many cards of each face a standard deck holds. */
  function ExpectedCount(t: CardType, c: CardColor, v: Option<int>): nat
  {
    if t == Number && c != WildColor && v == Some(0) then 1
    else if t == Number && c != WildColor && v.Some? && 1 <= v.value <= 9 then 2
    else if (t == Skip || t == Reverse || t == DrawTwo) && c != WildColor && v == None then 2
    else if (t == Wild || t == WildDrawFour) && c == WildColor && v == None then 4
    else 0
  }

  lemma CountConcat(a: seq<Card>, b: seq<Card>, t: CardType, c: CardColor, v: Option<int>)
    ensures CountFace(a + b, t, c, v) == CountFace(a, t, c, v) + CountFace(b, t, c, v)
  {
    FilterConcat(a, b, HasFace(t, c, v));
  }

  lemma CountPair(x: Card, y: Card, t: CardType, c: CardColor, v: Option<int>)
    ensures CountFace([x, y], t, c, v) == (if HasFace(t, c, v)(x) then 1 else 0) + (if HasFace(t, c, v)(y) then 1 else 0)
  {
    var p := HasFace(t, c, v);
    assert [x, y][1..] == [y];
    assert [y][1..] == [];
    assert Filter([y], p) == (if p(y) then [y] else []) + Filter([], p);
    assert Filter([x, y], p) == (if p(x) then [x] else []) + Filter([y], p);
  }

  lemma {:induction false} NumberPairsCount(col: CardColor, m: nat, t: CardType, c: CardColor, v: Option<int>)
    ensures CountFace(NumberPairs(col, m), t, c, v) ==
              if t == Number && c == col && v.Some? && 1 <= v.value <= m then 2 else 0
  {
    if m > 0 {
      NumberPairsCount(col, m - 1, t, c, v);
      CountConcat(NumberPairs(col, m - 1), [NumberCard(col, m), NumberCard(col, m)], t, c, v);
      CountPair(NumberCard(col, m), NumberCard(col, m), t, c, v);
    }
  }

  lemma ColorBlockCount(col: CardColor, t: CardType, c: CardColor, v: Option<int>)
    requires col != WildColor
    ensures CountFace(ColorBlock(col), t, c, v) == if c == col then ExpectedCount(t, c, v) else 0
  {
    var pairs := NumberPairs(col, TopNumber);
    var front := [NumberCard(col, 0)] + pairs;
    NumberPairsCount(col, TopNumber, t, c, v);
    CountConcat(front, ActionCards(col), t, c, v);
    CountConcat([NumberCard(col, 0)], pairs, t, c, v);
    ActionCardsCount(col, t, c, v);
    SingleCount(NumberCard(col, 0), t, c, v);
  }

  lemma SingleCount(x: Card, t: CardType, c: CardColor, v: Option<int>)
    ensures CountFace([x], t, c, v) == if HasFace(t, c, v)(x) then 1 else 0
  {
    assert [x][1..] == [];
  }

  lemma ActionCardsCount(col: CardColor, t: CardType, c: CardColor, v: Option<int>)
    ensures CountFace(ActionCards(col), t, c, v) ==
              if (t == Skip || t == Reverse || t == DrawTwo) && c == col && v == None then 2 else 0
  {
    var skips, reverses, drawTwos := ActionPair(Skip, col), ActionPair(Reverse, col), ActionPair(DrawTwo, col);
    CountConcat(skips + reverses, drawTwos, t, c, v);
    CountConcat(skips, reverses, t, c, v);
    CountPair(ActionCard(Skip, col), ActionCard(Skip, col), t, c, v);
    CountPair(ActionCard(Reverse, col), ActionCard(Reverse, col), t, c, v);
    CountPair(ActionCard(DrawTwo, col), ActionCard(DrawTwo, col), t, c, v);
  }

  /** Each colour listed contributes its expected count once. */
  lemma {:induction false} ColorBlocksCount(cs: seq<CardColor>, t: CardType, c: CardColor, v: Option<int>)
    requires WildColor !in cs
    ensures CountFace(ColorBlocks(cs), t, c, v) == multiset(cs)[c] * ExpectedCount(t, c, v)
  {
    if cs != [] {
      var init, last := cs[..|cs| - 1], cs[|cs| - 1];
      MultisetSnoc(cs);
      assert WildColor !in init;
      ColorBlocksCount(init, t, c, v);
      CountConcat(ColorBlocks(init), ColorBlock(last), t, c, v);
      ColorBlockCount(last, t, c, v);
      MulStep(multiset(init)[c], if c == last then 1 else 0, ExpectedCount(t, c, v));
    }
  }

  lemma MultisetSnoc<T>(s: seq<T>)
    requires s != []
    ensures multiset(s) == multiset(s[..|s| - 1]) + multiset{s[|s| - 1]}
  {
    assert s == s[..|s| - 1] + [s[|s| - 1]];
  }

  lemma MulStep(a: nat, b: nat, e: nat)
    requires b <= 1
    ensures (a + b) * e == a * e + (if b == 1 then e else 0)
  {
  }

  lemma {:induction false} WildPairsCount(m: nat, t: CardType, c: CardColor, v: Option<int>)
    ensures CountFace(WildPairs(m), t, c, v) ==
              if (t == Wild || t == WildDrawFour) && c == WildColor && v == None then m else 0
  {
    if m > 0 {
      WildPairsCount(m - 1, t, c, v);
      CountConcat(WildPairs(m - 1), [ActionCard(Wild, WildColor), ActionCard(WildDrawFour, WildColor)], t, c, v);
      CountPair(ActionCard(Wild, WildColor), ActionCard(WildDrawFour, WildColor), t, c, v);
    }
  }

  /** Colour blocks listing each play colour once, then four wild pairs: each face at its expected count. */
  lemma BlocksThenWilds(cs: seq<CardColor>, m: nat, t: CardType, c: CardColor, v: Option<int>)
    requires WildColor !in cs && m == 4
    requires multiset(cs)[c] == if c == WildColor then 0 else 1
    ensures CountFace(BuiltDeck(cs, m), t, c, v) == ExpectedCount(t, c, v)
  {
    DeckLayout(cs, m);
    CountConcat(ColorBlocks(cs), WildPairs(m), t, c, v);
    ColorBlocksCount(cs, t, c, v);
    WildPairsCount(m, t, c, v);
  }

  /** The deck holds exactly the expected number of cards of every face. */
  lemma DeckComposition(t: CardType, c: CardColor, v: Option<int>)
    ensures CountFace(StandardDeck, t, c, v) == ExpectedCount(t, c, v)
  {
    PlayColorsOnce(c);
    BlocksThenWilds(PlayColors, WildPairCount, t, c, v);
  }

  lemma PlayColorsOnce(c: CardColor)
    ensures multiset(PlayColors)[c] == if c == WildColor then 0 else 1
  {
  }

  /** The number of cards of a full UNO deck. */
  const DeckSize := 108

  /** Every card fresh from the box: in the deck, not on top, nobody's, no hand position, its number if NUMBER. */
  ghost predicate AllNew(s: seq<Card>)
  {
    forall i :: 0 <= i < |s| ==> s[i].isInDeck && !s[i].isTopCard && s[i].owner.None? && s[i].positionInHand.None? && ValueOk(s[i])
  }

  /** Every card of a new deck is fresh from the box. */
  lemma StandardDeckNew()
    ensures AllNew(StandardDeck)
  {
  }
}
