/**
 * How the session engine moves cards between the deck, the hands and the discard
 * pile, card by card: the new state of one card, and what holds of the whole card
 * list after the first k cards of a list have been moved.
 */
module CardMoves {
  import opened Wrappers
  import opened Seqs
  import opened CardEntity
  import opened CardRepository
  import opened GamePlayerEntity
  import opened GamePlayerRepository
  import opened GameEntity

  function Min(a: int, b: int): int
  {
    if a <= b then a else b
  }

  /** A card taken into a hand: owned by `owner`, out of the deck, at hand position `pos`. */
  function Given(c: Card, owner: PlayerId, pos: int): (r: Card)
  {
    c.(owner := Some(owner), isInDeck := false, positionInHand := Some(pos))
  }

  /** The number of cards in the draw deck. */
  function DeckCount(cards: seq<Card>): (r: nat)
    ensures r == |FindDeckCards(cards)|
  {
    WhereCount(cards, IsInDeck);
    |Filter(cards, IsInDeck)|
  }

  /** `order` lists deck cards of `cards`, each once. */
  ghost predicate DeckOrder(cards: seq<Card>, order: seq<nat>)
  {
    (forall m :: 0 <= m < |order| ==> order[m] < |cards| && cards[order[m]].isInDeck) && NoDup(order)
  }

  /**
   * Starting from `c0`, the first k cards of `order` have been given: card order[m]
   * to owners[m] at positions[m]. Every other card is as it was, and the deck is k
   * cards smaller.
   */
  ghost predicate GivenUpTo(cards: seq<Card>, c0: seq<Card>, order: seq<nat>, owners: seq<PlayerId>, positions: seq<int>, k: nat)
    requires DeckOrder(c0, order)
  {
    |cards| == |c0| && k <= |order| && k <= |owners| && k <= |positions|
    && (forall m :: 0 <= m < k ==> cards[order[m]] == Given(c0[order[m]], owners[m], positions[m]))
    && (forall j :: 0 <= j < |c0| && j !in order[..k] ==> cards[j] == c0[j])
    && DeckCount(cards) == DeckCount(c0) - k
  }

  lemma GivenNone(c0: seq<Card>, order: seq<nat>, owners: seq<PlayerId>, positions: seq<int>)
    requires DeckOrder(c0, order)
    ensures GivenUpTo(c0, c0, order, owners, positions, 0)
  {
  }

  /** Giving the next card of `order` extends the prefix by one. */
  lemma GiveStep(cards: seq<Card>, c0: seq<Card>, order: seq<nat>, owners: seq<PlayerId>, positions: seq<int>, k: nat)
    requires DeckOrder(c0, order) && GivenUpTo(cards, c0, order, owners, positions, k)
    requires k < |order| && k < |owners| && k < |positions|
    ensures GivenUpTo(cards[order[k] := Given(cards[order[k]], owners[k], positions[k])], c0, order, owners, positions, k + 1)
  {
    GiveStepCount(cards, c0, order, owners, positions, k);
    GiveStepGiven(cards, c0, order, owners, positions, k);
    GiveStepRest(cards, c0, order, owners, positions, k);
  }

  lemma GiveStepCount(cards: seq<Card>, c0: seq<Card>, order: seq<nat>, owners: seq<PlayerId>, positions: seq<int>, k: nat)
    requires DeckOrder(c0, order) && GivenUpTo(cards, c0, order, owners, positions, k)
    requires k < |order| && k < |owners| && k < |positions|
    ensures DeckCount(cards[order[k] := Given(cards[order[k]], owners[k], positions[k])]) == DeckCount(c0) - (k + 1)
  {
    var id := order[k];
    assert id !in order[..k];
    assert cards[id] == c0[id];
    CountUpdate(cards, id, Given(cards[id], owners[k], positions[k]), IsInDeck);
  }

  lemma GiveStepGiven(cards: seq<Card>, c0: seq<Card>, order: seq<nat>, owners: seq<PlayerId>, positions: seq<int>, k: nat)
    requires DeckOrder(c0, order) && GivenUpTo(cards, c0, order, owners, positions, k)
    requires k < |order| && k < |owners| && k < |positions|
    ensures var next := cards[order[k] := Given(cards[order[k]], owners[k], positions[k])];
            forall m :: 0 <= m < k + 1 ==> next[order[m]] == Given(c0[order[m]], owners[m], positions[m])
  {
    var id := order[k];
    assert id !in order[..k];
    var next := cards[id := Given(cards[id], owners[k], positions[k])];
    forall m | 0 <= m < k + 1 ensures next[order[m]] == Given(c0[order[m]], owners[m], positions[m]) {
      if m < k {
        assert order[m] != id;
      }
    }
  }

  lemma GiveStepRest(cards: seq<Card>, c0: seq<Card>, order: seq<nat>, owners: seq<PlayerId>, positions: seq<int>, k: nat)
    requires DeckOrder(c0, order) && GivenUpTo(cards, c0, order, owners, positions, k)
    requires k < |order| && k < |owners| && k < |positions|
    ensures var next := cards[order[k] := Given(cards[order[k]], owners[k], positions[k])];
            forall j :: 0 <= j < |c0| && j !in order[..k + 1] ==> next[j] == c0[j]
  {
    var id := order[k];
    var next := cards[id := Given(cards[id], owners[k], positions[k])];
    TakeNext(order, k);
    forall j | 0 <= j < |c0| && j !in order[..k + 1] ensures next[j] == c0[j] {
      assert j != id && j !in order[..k];
    }
  }

  /** A card of the discard pile put back into the deck; every other card unchanged. */
  function Back(c: Card): Card
  {
    if InDiscardPile(c) then c.(isInDeck := true, owner := None) else c
  }

  /**
   * `reshuffleDiscardPile` on the whole card list: the discard pile goes back into
   * the deck. Hands, the top card and the deck stay; the deck gains exactly the pile.
   */
  function Reshuffled(cards: seq<Card>): (r: seq<Card>)
    ensures |r| == |cards|
    ensures forall j :: 0 <= j < |cards| ==> r[j] == Back(cards[j])
  {
    seq(|cards|, j requires 0 <= j < |cards| => Back(cards[j]))
  }

  /** What a reshuffle keeps and what it changes. */
  lemma ReshuffledEffect(cards: seq<Card>, j: nat)
    requires j < |cards|
    ensures Reshuffled(cards)[j].isInDeck <==> cards[j].isInDeck || InDiscardPile(cards[j])
    ensures Reshuffled(cards)[j].isTopCard == cards[j].isTopCard
    ensures Reshuffled(cards)[j].owner == cards[j].owner
    ensures !InDiscardPile(cards[j]) ==> Reshuffled(cards)[j] == cards[j]
    ensures !InDiscardPile(Reshuffled(cards)[j])
  {
  }

  /** The deck after a reshuffle: the old deck plus the old discard pile. */
  lemma {:induction false} ReshuffledDeckCount(cards: seq<Card>)
    ensures DeckCount(Reshuffled(cards)) == DeckCount(cards) + |FindDiscardPileCards(cards)|
    decreases |cards|
  {
    WhereCount(cards, InDiscardPile);
    if cards != [] {
      var n := |cards| - 1;
      var init := cards[..n];
      assert cards == init + [cards[n]];
      assert Reshuffled(cards) == Reshuffled(init) + [Back(cards[n])];
      ReshuffledDeckCount(init);
      WhereCount(init, InDiscardPile);
      FilterConcat(init, [cards[n]], IsInDeck);
      FilterConcat(init, [cards[n]], InDiscardPile);
      FilterConcat(Reshuffled(init), [Back(cards[n])], IsInDeck);
    }
  }

  /**
   * Starting from `c0`, the first k cards of `pile` have been put back. Every other
   * card is as it was.
   */
  ghost predicate BackUpTo(cards: seq<Card>, c0: seq<Card>, pile: seq<nat>, k: nat)
    requires forall m :: 0 <= m < |pile| ==> pile[m] < |c0|
  {
    |cards| == |c0| && k <= |pile|
    && (forall m :: 0 <= m < k ==> cards[pile[m]] == Back(c0[pile[m]]))
    && (forall j :: 0 <= j < |c0| && j !in pile[..k] ==> cards[j] == c0[j])
  }

  lemma BackStep(cards: seq<Card>, c0: seq<Card>, pile: seq<nat>, k: nat)
    requires forall m :: 0 <= m < |pile| ==> pile[m] < |c0|
    requires NoDup(pile) && BackUpTo(cards, c0, pile, k) && k < |pile|
    ensures BackUpTo(cards[pile[k] := Back(cards[pile[k]])], c0, pile, k + 1)
  {
    var id := pile[k];
    assert id !in pile[..k];
    TakeNext(pile, k);
    var next := cards[id := Back(cards[id])];
    forall m | 0 <= m < k + 1 ensures next[pile[m]] == Back(c0[pile[m]]) {
      if m < k {
        assert pile[m] != id;
      }
    }
  }

  /** Once the whole discard pile is back, the card list is the reshuffled one. */
  lemma BackDone(cards: seq<Card>, c0: seq<Card>)
    requires BackUpTo(cards, c0, FindDiscardPileCards(c0), |FindDiscardPileCards(c0)|)
    ensures cards == Reshuffled(c0)
  {
    var pile := FindDiscardPileCards(c0);
    assert pile[..|pile|] == pile;
    forall j | 0 <= j < |c0| ensures cards[j] == Back(c0[j]) {
      if InDiscardPile(c0[j]) {
        var m :| 0 <= m < |pile| && pile[m] == j;
      }
    }
  }

  /**
   * The card list after giving, one after another, card ids[m] to owners[m] at hand
   * position positions[m].
   */
  function GiveSeq(cards: seq<Card>, ids: seq<nat>, owners: seq<PlayerId>, positions: seq<int>): (r: seq<Card>)
    requires |owners| == |ids| && |positions| == |ids|
    requires forall m :: 0 <= m < |ids| ==> ids[m] < |cards|
    ensures |r| == |cards|
  {
    if ids == [] then cards
    else
      var k := |ids| - 1;
      var prev := GiveSeq(cards, ids[..k], owners[..k], positions[..k]);
      prev[ids[k] := Given(prev[ids[k]], owners[k], positions[k])]
  }

  /** Giving the first k cards of a list of distinct deck cards: what `GivenUpTo` describes. */
  lemma {:induction false} GiveSeqUpTo(c0: seq<Card>, order: seq<nat>, owners: seq<PlayerId>, positions: seq<int>, k: nat)
    requires DeckOrder(c0, order) && k <= |order| && k <= |owners| && k <= |positions|
    ensures GivenUpTo(GiveSeq(c0, order[..k], owners[..k], positions[..k]), c0, order, owners, positions, k)
  {
    if k == 0 {
      GivenNone(c0, order, owners, positions);
    } else {
      GiveSeqUpTo(c0, order, owners, positions, k - 1);
      GiveSeqUnfold(c0, order, owners, positions, k - 1);
      GiveStep(GiveSeq(c0, order[..k - 1], owners[..k - 1], positions[..k - 1]), c0, order, owners, positions, k - 1);
    }
  }

  /** Giving a prefix one longer is giving one more card. */
  lemma GiveSeqUnfold(c0: seq<Card>, order: seq<nat>, owners: seq<PlayerId>, positions: seq<int>, k: nat)
    requires k < |order| && k < |owners| && k < |positions|
    requires forall m :: 0 <= m < |order| ==> order[m] < |c0|
    ensures var prev := GiveSeq(c0, order[..k], owners[..k], positions[..k]);
            GiveSeq(c0, order[..k + 1], owners[..k + 1], positions[..k + 1]) == prev[order[k] := Given(prev[order[k]], owners[k], positions[k])]
  {
    assert order[..k + 1][..k] == order[..k];
    assert owners[..k + 1][..k] == owners[..k];
    assert positions[..k + 1][..k] == positions[..k];
  }

  /** Giving deck cards never changes which card is on top, and keeps every card consistent. */
  lemma {:induction false} GiveSeqFlags(c0: seq<Card>, ids: seq<nat>, owners: seq<PlayerId>, positions: seq<int>)
    requires |owners| == |ids| && |positions| == |ids|
    requires forall m :: 0 <= m < |ids| ==> ids[m] < |c0| && c0[ids[m]].isInDeck
    ensures forall j :: 0 <= j < |c0| ==> GiveSeq(c0, ids, owners, positions)[j].isTopCard == c0[j].isTopCard
    ensures CardsOk(c0) ==> CardsOk(GiveSeq(c0, ids, owners, positions))
  {
    if ids != [] {
      var k := |ids| - 1;
      GiveSeqFlags(c0, ids[..k], owners[..k], positions[..k]);
    }
  }

  /** Each player's hand grows by the number of cards given to that player. */
  lemma {:induction false} GiveSeqHandCount(c0: seq<Card>, ids: seq<nat>, owners: seq<PlayerId>, positions: seq<int>, x: PlayerId)
    requires |owners| == |ids| && |positions| == |ids|
    requires DeckOrder(c0, ids) && CardsOk(c0)
    ensures CountPlayerCards(GiveSeq(c0, ids, owners, positions), x) == CountPlayerCards(c0, x) + multiset(owners)[x]
  {
    if ids != [] {
      var k := |ids| - 1;
      var prev := GiveSeq(c0, ids[..k], owners[..k], positions[..k]);
      var id := ids[k];
      var given := Given(prev[id], owners[k], positions[k]);
      assert GiveSeq(c0, ids, owners, positions) == prev[id := given];
      PrefixDeckOrder(c0, ids, k);
      GiveSeqHandCount(c0, ids[..k], owners[..k], positions[..k], x);
      NextUntouched(c0, ids, owners, positions, k);
      assert CardOk(c0[id]);
      CountUpdate(prev, id, given, HeldBy(x));
      assert owners == owners[..k] + [owners[k]];
    }
  }

  lemma PrefixDeckOrder(c0: seq<Card>, ids: seq<nat>, k: nat)
    requires DeckOrder(c0, ids) && k <= |ids|
    ensures DeckOrder(c0, ids[..k])
  {
  }

  /** Before the k-th card is given it is still as it was. */
  lemma NextUntouched(c0: seq<Card>, ids: seq<nat>, owners: seq<PlayerId>, positions: seq<int>, k: nat)
    requires |owners| == |ids| && |positions| == |ids|
    requires DeckOrder(c0, ids) && k < |ids|
    ensures GiveSeq(c0, ids[..k], owners[..k], positions[..k])[ids[k]] == c0[ids[k]]
  {
    GiveSeqUpTo(c0, ids, owners, positions, k);
    assert ids[k] !in ids[..k];
  }

  /** n copies of `p`. */
  function Repeat(p: PlayerId, n: nat): (r: seq<PlayerId>)
    ensures |r| == n && forall m :: 0 <= m < n ==> r[m] == p
  {
    seq(n, _ => p)
  }

  lemma {:induction false} RepeatCount(p: PlayerId, n: nat, x: PlayerId)
    ensures multiset(Repeat(p, n))[x] == if x == p then n else 0
  {
    if n > 0 {
      RepeatCount(p, n - 1, x);
      assert Repeat(p, n) == Repeat(p, n - 1) + [p];
    }
  }

  /** base, base + 1, ..., base + n - 1. */
  function Ascending(base: int, n: nat): (r: seq<int>)
    ensures |r| == n && forall m :: 0 <= m < n ==> r[m] == base + m
  {
    seq(n, m => base + m)
  }

  lemma RepeatPrefix(p: PlayerId, len: nat, n: nat)
    requires n <= len
    ensures Repeat(p, len)[..n] == Repeat(p, n)
  {
  }

  lemma AscendingPrefix(base: int, len: nat, n: nat)
    requires n <= len
    ensures Ascending(base, len)[..n] == Ascending(base, n)
  {
  }

  /** The card list a draw starts from: the discard pile goes back first when the deck is short. */
  function DrawSource(cards: seq<Card>, count: nat): (r: seq<Card>)
    ensures |r| == |cards|
  {
    if DeckCount(cards) < count then Reshuffled(cards) else cards
  }

  /** The deck of the draw source in random order: the first rank, or the second one after a reshuffle. */
  function DrawOrder(cards: seq<Card>, count: nat, rank1: seq<nat>, rank2: seq<nat>): (r: seq<nat>)
    requires IsRank(rank1, |cards|) && IsRank(rank2, |cards|)
    ensures DeckOrder(DrawSource(cards, count), r)
    ensures |r| == DeckCount(DrawSource(cards, count))
  {
    FindDeckCardsRandomOrder(DrawSource(cards, count), if DeckCount(cards) < count then rank2 else rank1)
  }

  /** How many cards a draw of `count` hands out: `count`, or the whole deck when that is smaller. */
  function DrawnCount(cards: seq<Card>, count: nat, rank1: seq<nat>, rank2: seq<nat>): (n: nat)
    requires IsRank(rank1, |cards|) && IsRank(rank2, |cards|)
  {
    Min(count, |DrawOrder(cards, count, rank1, rank2)|)
  }

  /**
   * `drawCardsForPlayer` on the card list: the first n cards of the draw order go to
   * `player` at hand positions base, base + 1, ...
   */
  function Drawn(cards: seq<Card>, player: PlayerId, base: int, count: nat, rank1: seq<nat>, rank2: seq<nat>): (r: seq<Card>)
    requires IsRank(rank1, |cards|) && IsRank(rank2, |cards|)
    ensures |r| == |cards|
  {
    var order := DrawOrder(cards, count, rank1, rank2);
    var n := DrawnCount(cards, count, rank1, rank2);
    GiveSeq(DrawSource(cards, count), order[..n], Repeat(player, n), Ascending(base, n))
  }

  /** A draw hands out `count` cards, or everything the deck and the discard pile hold when that is less. */
  lemma DrawnCountValue(cards: seq<Card>, count: nat, rank1: seq<nat>, rank2: seq<nat>)
    requires IsRank(rank1, |cards|) && IsRank(rank2, |cards|)
    ensures DrawnCount(cards, count, rank1, rank2) ==
              Min(count, if DeckCount(cards) < count then DeckCount(cards) + |FindDiscardPileCards(cards)| else DeckCount(cards))
  {
    if DeckCount(cards) < count {
      ReshuffledDeckCount(cards);
    }
  }

  /** The draw source is consistent whenever the cards are, and keeps the top card. */
  lemma DrawSourceOk(cards: seq<Card>, count: nat)
    requires CardsOk(cards)
    ensures CardsOk(DrawSource(cards, count))
    ensures forall j :: 0 <= j < |cards| ==> DrawSource(cards, count)[j].isTopCard == cards[j].isTopCard
  {
    ReshuffledOk(cards);
  }

  /**
   * The drawing player's hand grows by the number of cards handed out and no other
   * hand changes.
   */
  lemma DrawnHands(cards: seq<Card>, player: PlayerId, base: int, count: nat, rank1: seq<nat>, rank2: seq<nat>, x: PlayerId)
    requires IsRank(rank1, |cards|) && IsRank(rank2, |cards|) && CardsOk(cards)
    ensures CountPlayerCards(Drawn(cards, player, base, count, rank1, rank2), x) ==
              CountPlayerCards(cards, x) + (if x == player then DrawnCount(cards, count, rank1, rank2) else 0)
  {
    var src := DrawSource(cards, count);
    var order, n := DrawOrder(cards, count, rank1, rank2), DrawnCount(cards, count, rank1, rank2);
    DrawSourceOk(cards, count);
    PrefixDeckOrder(src, order, n);
    GiveSeqHandCount(src, order[..n], Repeat(player, n), Ascending(base, n), x);
    RepeatCount(player, n, x);
    if DeckCount(cards) < count {
      ReshuffledHands(cards, x);
    }
  }

  /**
   * The cards handed out are the first ones of the draw order, taken into the hand at
   * hand positions base, base + 1, ...; the deck shrinks by their number.
   */
  lemma DrawnCards(cards: seq<Card>, player: PlayerId, base: int, count: nat, rank1: seq<nat>, rank2: seq<nat>)
    requires IsRank(rank1, |cards|) && IsRank(rank2, |cards|)
    ensures var order, n := DrawOrder(cards, count, rank1, rank2), DrawnCount(cards, count, rank1, rank2);
            forall m :: 0 <= m < n ==>
              Drawn(cards, player, base, count, rank1, rank2)[order[m]] == Given(DrawSource(cards, count)[order[m]], player, base + m)
    ensures DeckCount(Drawn(cards, player, base, count, rank1, rank2)) == DeckCount(DrawSource(cards, count)) - DrawnCount(cards, count, rank1, rank2)
  {
    var src := DrawSource(cards, count);
    var order, n := DrawOrder(cards, count, rank1, rank2), DrawnCount(cards, count, rank1, rank2);
    var owners, positions := Repeat(player, |order|), Ascending(base, |order|);
    RepeatPrefix(player, |order|, n);
    AscendingPrefix(base, |order|, n);
    var r := GiveSeq(src, order[..n], owners[..n], positions[..n]);
    assert Drawn(cards, player, base, count, rank1, rank2) == r;
    GivePrefix(src, order, owners, positions, n);
    SameGiven(r, src, order, owners, positions, player, base, n);
  }

  lemma SameGiven(r: seq<Card>, src: seq<Card>, order: seq<nat>, owners: seq<PlayerId>, positions: seq<int>, player: PlayerId, base: int, n: nat)
    requires n <= |order| && n <= |owners| && n <= |positions|
    requires forall m :: 0 <= m < n ==> order[m] < |r| && order[m] < |src|
    requires forall m :: 0 <= m < n ==> r[order[m]] == Given(src[order[m]], owners[m], positions[m])
    requires forall m :: 0 <= m < n ==> owners[m] == player && positions[m] == base + m
    ensures forall m :: 0 <= m < n ==> r[order[m]] == Given(src[order[m]], player, base + m)
  {
  }

  /** `GivenUpTo` for a whole prefix, read off card by card. */
  lemma GivePrefix(c0: seq<Card>, order: seq<nat>, owners: seq<PlayerId>, positions: seq<int>, n: nat)
    requires DeckOrder(c0, order) && n <= |order| && n <= |owners| && n <= |positions|
    ensures forall m :: 0 <= m < n ==>
              GiveSeq(c0, order[..n], owners[..n], positions[..n])[order[m]] == Given(c0[order[m]], owners[m], positions[m])
    ensures forall j :: 0 <= j < |c0| && j !in order[..n] ==> GiveSeq(c0, order[..n], owners[..n], positions[..n])[j] == c0[j]
    ensures DeckCount(GiveSeq(c0, order[..n], owners[..n], positions[..n])) == DeckCount(c0) - n
  {
    GiveSeqUpTo(c0, order, owners, positions, n);
  }

  /** A draw keeps every card consistent and the top card where it is. */
  lemma DrawnOk(cards: seq<Card>, player: PlayerId, base: int, count: nat, rank1: seq<nat>, rank2: seq<nat>)
    requires IsRank(rank1, |cards|) && IsRank(rank2, |cards|) && CardsOk(cards)
    ensures CardsOk(Drawn(cards, player, base, count, rank1, rank2))
    ensures forall j :: 0 <= j < |cards| ==> Drawn(cards, player, base, count, rank1, rank2)[j].isTopCard == cards[j].isTopCard
  {
    var src := DrawSource(cards, count);
    var order, n := DrawOrder(cards, count, rank1, rank2), DrawnCount(cards, count, rank1, rank2);
    DrawSourceOk(cards, count);
    GiveSeqFlags(src, order[..n], Repeat(player, n), Ascending(base, n));
  }

  /** A reshuffle keeps every card consistent and the top card where it is. */
  lemma ReshuffledOk(cards: seq<Card>)
    requires CardsOk(cards)
    ensures CardsOk(Reshuffled(cards))
    ensures forall j :: 0 <= j < |cards| ==> Reshuffled(cards)[j].isTopCard == cards[j].isTopCard
  {
  }

  /** A reshuffle leaves every hand as it was. */
  lemma {:induction false} ReshuffledHands(cards: seq<Card>, x: PlayerId)
    ensures CountPlayerCards(Reshuffled(cards), x) == CountPlayerCards(cards, x)
    decreases |cards|
  {
    if cards != [] {
      var n := |cards| - 1;
      var init := cards[..n];
      assert cards == init + [cards[n]];
      assert Reshuffled(cards) == Reshuffled(init) + [Back(cards[n])];
      ReshuffledHands(init, x);
      FilterConcat(init, [cards[n]], HeldBy(x));
      FilterConcat(Reshuffled(init), [Back(cards[n])], HeldBy(x));
    }
  }

  /** The owner of the m-th dealt card: the player of the (m / 7)-th active membership. */
  function DealOwners(gps: seq<GamePlayer>, players: seq<nat>, n: nat): (r: seq<PlayerId>)
    ensures |r| == n
    ensures forall m :: 0 <= m < n && m / 7 < |players| && players[m / 7] < |gps| ==> r[m] == gps[players[m / 7]].player
  {
    seq(n, m => if 0 <= m / 7 < |players| && players[m / 7] < |gps| then gps[players[m / 7]].player else 0)
  }

  /** The hand position of the m-th dealt card: m mod 7. */
  function DealPositions(n: nat): (r: seq<int>)
    ensures |r| == n && forall m :: 0 <= m < n ==> r[m] == m % 7
  {
    seq(n, m => m % 7)
  }

  /** How many cards the deal hands out: seven per active membership, or the whole deck. */
  function DealCount(cards: seq<Card>, gps: seq<GamePlayer>): nat
  {
    Min(7 * |FindActivePlayers(gps)|, DeckCount(cards))
  }

  /**
   * `dealInitialCards` on the card list: in random deck order, seven cards to each
   * active membership in seat order, at hand positions 0..6.
   */
  function Dealt(cards: seq<Card>, gps: seq<GamePlayer>, rank: seq<nat>): (r: seq<Card>)
    requires IsRank(rank, |cards|)
    ensures |r| == |cards|
  {
    var order := FindDeckCardsRandomOrder(cards, rank);
    var n := DealCount(cards, gps);
    GiveSeq(cards, order[..n], DealOwners(gps, FindActivePlayers(gps), |order|)[..n], DealPositions(|order|)[..n])
  }

  /**
   * What the deal does: the m-th card of the random deck order goes to the player of
   * the (m / 7)-th active membership at hand position m mod 7; no other card changes;
   * the deck shrinks by the number dealt.
   */
  lemma DealtEffect(cards: seq<Card>, gps: seq<GamePlayer>, rank: seq<nat>)
    requires IsRank(rank, |cards|)
    ensures var order, players, n := FindDeckCardsRandomOrder(cards, rank), FindActivePlayers(gps), DealCount(cards, gps);
            forall m :: 0 <= m < n ==>
              Dealt(cards, gps, rank)[order[m]] == Given(cards[order[m]], gps[players[m / 7]].player, m % 7)
    ensures var order, n := FindDeckCardsRandomOrder(cards, rank), DealCount(cards, gps);
            forall j :: 0 <= j < |cards| && j !in order[..n] ==> Dealt(cards, gps, rank)[j] == cards[j]
    ensures DeckCount(Dealt(cards, gps, rank)) == DeckCount(cards) - DealCount(cards, gps)
  {
    var order, players, n := FindDeckCardsRandomOrder(cards, rank), FindActivePlayers(gps), DealCount(cards, gps);
    var owners, positions := DealOwners(gps, players, |order|), DealPositions(|order|);
    GiveSeqUpTo(cards, order, owners, positions, n);
    forall m | 0 <= m < n ensures m / 7 < |players| {
      DivBound(m, |players|);
    }
  }

  /** The deal never changes which card is on top, and keeps every card consistent. */
  lemma DealtFlags(cards: seq<Card>, gps: seq<GamePlayer>, rank: seq<nat>)
    requires IsRank(rank, |cards|)
    ensures forall j :: 0 <= j < |cards| ==> Dealt(cards, gps, rank)[j].isTopCard == cards[j].isTopCard
    ensures CardsOk(cards) ==> CardsOk(Dealt(cards, gps, rank))
  {
    var order, players, n := FindDeckCardsRandomOrder(cards, rank), FindActivePlayers(gps), DealCount(cards, gps);
    var owners, positions := DealOwners(gps, players, |order|), DealPositions(|order|);
    GiveSeqFlags(cards, order[..n], owners[..n], positions[..n]);
  }

  lemma DivBound(m: nat, k: nat)
    requires m < 7 * k
    ensures m / 7 < k
  {
  }
}
