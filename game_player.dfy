/**
 * The membership of a player in a game (`GamePlayer`): seat order, whether the
 * player is still in, the card counter and the UNO flag, plus the hand query.
 * A game's memberships live in one sequence and a membership's id is its index there.
 */
module GamePlayerEntity {
  import opened Wrappers
  import opened CardEntity
  import opened Seqs

  datatype GamePlayer = GamePlayer(
    player: PlayerId,
    playerOrder: int,
    isActive: bool,
    cardsCount: int,
    hasCalledUno: bool)

  /** The constructor: an active membership with no cards and no UNO call. */
  function NewGamePlayer(player: PlayerId, playerOrder: int): (r: GamePlayer)
    ensures r.player == player && r.playerOrder == playerOrder
    ensures r.isActive && r.cardsCount == 0 && !r.hasCalledUno
  {
    GamePlayer(player, playerOrder, true, 0, false)
  }

  /** A player has won when the card counter is zero. */
  function HasWon(gp: GamePlayer): bool
  {
    gp.cardsCount == 0
  }

  /** A player should call UNO when down to one card and not yet called. */
  function ShouldCallUno(gp: GamePlayer): bool
  {
    gp.cardsCount == 1 && !gp.hasCalledUno
  }

  /** The sort key of the hand order: the hand position of the card with id `j`. */
  function PositionKey(cards: seq<Card>): nat -> int
  {
    (j: nat) => if j < |cards| && cards[j].positionInHand.Some? then cards[j].positionInHand.value else 0
  }

  function HasPosition(cards: seq<Card>): nat -> bool
  {
    (j: nat) => j < |cards| && cards[j].positionInHand.Some?
  }

  function LacksPosition(cards: seq<Card>): nat -> bool
  {
    (j: nat) => !(j < |cards| && cards[j].positionInHand.Some?)
  }

  /**
   * The ids of the cards in `player`'s hand, by hand position ascending, cards with no
   * position last. The comparator of the source treats two position-less cards as
   * unordered; here they keep their order in the game's card list.
   */
  function GetHand(cards: seq<Card>, player: PlayerId): (r: seq<nat>)
    ensures multiset(r) == multiset(Where(cards, HeldBy(player)))
    ensures forall i :: 0 <= i < |r| ==> r[i] < |cards| && HeldBy(player)(cards[r[i]])
    ensures forall i, j :: 0 <= i < j < |r| && cards[r[j]].positionInHand.Some? ==>
              cards[r[i]].positionInHand.Some? &&
              cards[r[i]].positionInHand.value <= cards[r[j]].positionInHand.value
  {
    var held := Where(cards, HeldBy(player));
    var placed := Filter(held, HasPosition(cards));
    var unplaced := Filter(held, LacksPosition(cards));
    var sorted := SortBy(placed, PositionKey(cards));
    HandOrder(cards, held, placed, unplaced, sorted);
    sorted + unplaced
  }

  lemma HandOrder(cards: seq<Card>, held: seq<nat>, placed: seq<nat>, unplaced: seq<nat>, sorted: seq<nat>)
    requires forall i :: 0 <= i < |held| ==> held[i] < |cards|
    requires placed == Filter(held, HasPosition(cards))
    requires unplaced == Filter(held, LacksPosition(cards))
    requires sorted == SortBy(placed, PositionKey(cards))
    ensures multiset(sorted + unplaced) == multiset(held)
    ensures forall i :: 0 <= i < |sorted + unplaced| ==> (sorted + unplaced)[i] in held
    ensures forall i, j :: 0 <= i < j < |sorted + unplaced| && cards[(sorted + unplaced)[j]].positionInHand.Some? ==>
              cards[(sorted + unplaced)[i]].positionInHand.Some? &&
              cards[(sorted + unplaced)[i]].positionInHand.value <= cards[(sorted + unplaced)[j]].positionInHand.value
  {
    var r := sorted + unplaced;
    FilterPartition(held, HasPosition(cards), LacksPosition(cards));
    assert multiset(r) == multiset(held);
    forall i | 0 <= i < |r| ensures r[i] in held {
      assert r[i] in multiset(r);
    }
    SortedPlaced(cards, placed, sorted);
    assert forall k :: 0 <= k < |unplaced| ==> LacksPosition(cards)(unplaced[k]);
    forall i, j | 0 <= i < j < |r| && cards[r[j]].positionInHand.Some?
      ensures cards[r[i]].positionInHand.Some? && cards[r[i]].positionInHand.value <= cards[r[j]].positionInHand.value
    {
      assert j < |sorted|;
      assert r[i] == sorted[i] && r[j] == sorted[j];
    }
  }

  /** The sorted part holds positioned cards, ascending by position. */
  lemma SortedPlaced(cards: seq<Card>, placed: seq<nat>, sorted: seq<nat>)
    requires forall k :: 0 <= k < |placed| ==> HasPosition(cards)(placed[k])
    requires sorted == SortBy(placed, PositionKey(cards))
    ensures forall k :: 0 <= k < |sorted| ==> sorted[k] < |cards| && cards[sorted[k]].positionInHand.Some?
    ensures forall i, j :: 0 <= i < j < |sorted| ==>
              cards[sorted[i]].positionInHand.value <= cards[sorted[j]].positionInHand.value
  {
    SortBySorted(placed, PositionKey(cards));
    forall k | 0 <= k < |sorted| ensures HasPosition(cards)(sorted[k]) {
      assert sorted[k] in multiset(placed);
    }
    forall i, j | 0 <= i < j < |sorted|
      ensures cards[sorted[i]].positionInHand.value <= cards[sorted[j]].positionInHand.value
    {
      assert PositionKey(cards)(sorted[i]) <= PositionKey(cards)(sorted[j]);
    }
  }
}
