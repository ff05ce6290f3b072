/**
 * The view of a membership sent to clients (`GamePlayerDto`): the membership's fields,
 * and the hand when the view is for its own player.
 */
module GamePlayerDtos {
  import opened Wrappers
  import opened Seqs
  import opened CardEntity
  import opened GamePlayerEntity
  import opened CardRepository
  import opened CardDtos

  datatype GamePlayerDto = GamePlayerDto(
    id: nat,
    player: PlayerId,
    playerOrder: int,
    isActive: bool,
    cardsCount: int,
    hasCalledUno: bool,
    hand: Option<seq<CardDto>>)

  /** The hand of `player` as card views, in hand order. */
  function HandView(cards: seq<Card>, player: PlayerId): (r: seq<CardDto>)
    ensures |r| == |GetHand(cards, player)|
    ensures forall i :: 0 <= i < |r| ==> r[i] == CardDtos.FromEntity(cards, GetHand(cards, player)[i])
  {
    var h := GetHand(cards, player);
    seq(|h|, i requires 0 <= i < |h| => CardDtos.FromEntity(cards, h[i]))
  }

  /**
   * The hand view shows exactly the cards `player` holds: one view per held card, each
   * card once, positioned cards ascending by position.
   */
  lemma HandViewIsHand(cards: seq<Card>, player: PlayerId)
    ensures |HandView(cards, player)| == CountPlayerCards(cards, player)
    ensures forall i :: 0 <= i < |HandView(cards, player)| ==>
              HandView(cards, player)[i].id < |cards| && HeldBy(player)(cards[HandView(cards, player)[i].id])
    ensures forall j :: 0 <= j < |cards| && HeldBy(player)(cards[j]) ==>
              exists i :: 0 <= i < |HandView(cards, player)| && HandView(cards, player)[i].id == j
    ensures forall i, k :: 0 <= i < k < |HandView(cards, player)| ==>
              HandView(cards, player)[i].id != HandView(cards, player)[k].id
    ensures forall i, k :: 0 <= i < k < |HandView(cards, player)| && HandView(cards, player)[k].positionInHand.Some? ==>
              HandView(cards, player)[i].positionInHand.Some? &&
              HandView(cards, player)[i].positionInHand.value <= HandView(cards, player)[k].positionInHand.value
  {
    var h := GetHand(cards, player);
    var r := HandView(cards, player);
    HandIds(cards, player);
    forall j | 0 <= j < |cards| && HeldBy(player)(cards[j])
      ensures exists i :: 0 <= i < |r| && r[i].id == j
    {
      var i :| 0 <= i < |h| && h[i] == j;
      assert r[i].id == j;
    }
  }

  /** The hand query lists each held card exactly once. */
  lemma HandIds(cards: seq<Card>, player: PlayerId)
    ensures |GetHand(cards, player)| == CountPlayerCards(cards, player)
    ensures NoDup(GetHand(cards, player))
    ensures forall j :: 0 <= j < |cards| && HeldBy(player)(cards[j]) ==> j in GetHand(cards, player)
  {
    var h := GetHand(cards, player);
    var held := Where(cards, HeldBy(player));
    assert |multiset(h)| == |multiset(held)|;
    WhereCount(cards, HeldBy(player));
    WhereNoDup(cards, HeldBy(player));
    MultisetNoDup(held, h);
    forall j | 0 <= j < |cards| && HeldBy(player)(cards[j]) ensures j in h {
      assert j in multiset(held);
    }
  }

  /**
   * `fromEntity`: the membership's fields copied unchanged (the card counter as stored,
   * not recounted), and a hand exactly when it is asked for.
   */
  function FromEntity(gps: seq<GamePlayer>, id: nat, cards: seq<Card>, includeHand: bool): (r: GamePlayerDto)
    requires id < |gps|
    ensures r.id == id && r.player == gps[id].player && r.playerOrder == gps[id].playerOrder
    ensures r.isActive == gps[id].isActive && r.hasCalledUno == gps[id].hasCalledUno
    ensures r.cardsCount == gps[id].cardsCount
    ensures r.hand.Some? <==> includeHand
    ensures includeHand ==> r.hand.value == HandView(cards, gps[id].player)
  {
    var gp := gps[id];
    GamePlayerDto(id, gp.player, gp.playerOrder, gp.isActive, gp.cardsCount, gp.hasCalledUno,
                  if includeHand then Some(HandView(cards, gp.player)) else None)
  }
}
