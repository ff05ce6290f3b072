/**
 * The snapshot of a game sent to clients (`GameResponse`): the game's settings and
 * state, one view per membership with the viewer's hand only, the top card and the
 * size of the draw deck.
 */
module GameResponses {
  import opened Wrappers
  import opened Seqs
  import opened Enums
  import opened CardEntity
  import opened GamePlayerEntity
  import opened CardRepository
  import opened GamePlayerRepository
  import opened GameEntity
  import opened CardDtos
  import opened GamePlayerDtos

  datatype GameResponse = GameResponse(
    gameCode: string,
    status: GameStatus,
    maxPlayers: int,
    minPlayers: int,
    currentPlayerIndex: int,
    direction: GameDirection,
    winner: Option<PlayerId>,
    createdBy: Option<PlayerId>,
    players: seq<GamePlayerDto>,
    topCard: Option<CardDto>,
    deckSize: int)

  /** Whether the membership `q` belongs to the viewer; never when there is no viewer. */
  function IsViewer(gps: seq<GamePlayer>, q: nat, viewer: Option<PlayerId>): bool
    requires q < |gps|
  {
    viewer.Some? && gps[q].player == viewer.value
  }

  /** The membership views, in membership order, inactive ones included. */
  function PlayerViews(gps: seq<GamePlayer>, cards: seq<Card>, viewer: Option<PlayerId>): (r: seq<GamePlayerDto>)
    ensures |r| == |gps|
    ensures forall q :: 0 <= q < |gps| ==> r[q] == GamePlayerDtos.FromEntity(gps, q, cards, IsViewer(gps, q, viewer))
  {
    seq(|gps|, q requires 0 <= q < |gps| => GamePlayerDtos.FromEntity(gps, q, cards, IsViewer(gps, q, viewer)))
  }

  /**
   * `fromEntity`: the settings and state copied unchanged; the winner as set; the
   * creator; a view of every membership, with a hand only for the viewer's own; the top
   * card when there is one; the number of cards in the draw deck.
   */
  function FromEntity(g: Game, viewer: Option<PlayerId>): (r: GameResponse)
    reads g
    ensures r.gameCode == g.gameCode && r.status == g.status
    ensures r.maxPlayers == g.maxPlayers && r.minPlayers == g.minPlayers
    ensures r.currentPlayerIndex == g.currentPlayerIndex && r.direction == g.direction
    ensures r.winner == g.winner && r.createdBy == Some(g.createdBy)
    ensures |r.players| == |g.gamePlayers|
    ensures forall q :: 0 <= q < |g.gamePlayers| ==>
              r.players[q].id == q && r.players[q].player == g.gamePlayers[q].player
              && r.players[q].cardsCount == g.gamePlayers[q].cardsCount
              && r.players[q].playerOrder == g.gamePlayers[q].playerOrder
              && r.players[q].isActive == g.gamePlayers[q].isActive
              && r.players[q].hasCalledUno == g.gamePlayers[q].hasCalledUno
              && (r.players[q].hand.Some? <==> viewer == Some(g.gamePlayers[q].player))
              && (r.players[q].hand.Some? ==> r.players[q].hand.value == HandView(g.cards, g.gamePlayers[q].player))
    ensures r.players == PlayerViews(g.gamePlayers, g.cards, viewer)
    ensures r.topCard.Some? <==> exists j :: 0 <= j < |g.cards| && g.cards[j].isTopCard
    ensures r.topCard.Some? ==> r.topCard.value.id < |g.cards| && g.cards[r.topCard.value.id].isTopCard
                                && (forall j :: 0 <= j < r.topCard.value.id ==> !g.cards[j].isTopCard)
                                && r.topCard.value == CardDtos.FromEntity(g.cards, r.topCard.value.id)
    ensures r.deckSize == |FindDeckCards(g.cards)|
  {
    WhereCount(g.cards, IsInDeck);
    View(g.gameCode, g.status, g.maxPlayers, g.minPlayers, g.currentPlayerIndex, g.direction,
         g.winner, g.createdBy, g.gamePlayers, g.cards, viewer)
  }

  /** The response `fromEntity` builds, on a game's field values. */
  function View(gameCode: string, status: GameStatus, maxPlayers: int, minPlayers: int, currentPlayerIndex: int,
                direction: GameDirection, winner: Option<PlayerId>, createdBy: PlayerId,
                gamePlayers: seq<GamePlayer>, cards: seq<Card>, viewer: Option<PlayerId>): GameResponse
  {
    var top := FirstWhere(cards, IsTop);
    GameResponse(
      gameCode, status, maxPlayers, minPlayers, currentPlayerIndex, direction, winner, Some(createdBy),
      PlayerViews(gamePlayers, cards, viewer),
      if top.Some? then Some(CardDtos.FromEntity(cards, top.value)) else None,
      |Filter(cards, IsInDeck)|)
  }

  /**
   * Among memberships of distinct players at most one view carries a hand, and it is
   * the viewer's; with no viewer none does.
   */
  lemma OnlyViewerSeesHand(g: Game, viewer: Option<PlayerId>)
    requires DistinctPlayers(g.gamePlayers)
    ensures forall q, q' ::
              0 <= q < |g.gamePlayers| && 0 <= q' < |g.gamePlayers| &&
              FromEntity(g, viewer).players[q].hand.Some? && FromEntity(g, viewer).players[q'].hand.Some? ==>
              q == q'
    ensures viewer.None? ==> forall q :: 0 <= q < |g.gamePlayers| ==> FromEntity(g, viewer).players[q].hand.None?
  {
  }
}
