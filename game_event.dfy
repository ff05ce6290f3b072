/**
 * A game's event log entry. The source stores a JSON string as the payload; here it
 * is a tag (`EventType`) plus a small record (`EventData`) holding the same numbers.
 */
module GameEventEntity {
  import opened Wrappers
  import opened Enums
  import opened CardEntity

  datatype EventType =
    | GameCreated | PlayerJoined | GameStarted | CardPlayed | DirectionReversed
    | ForcedDraw | CardDrawn | DeckReshuffled | GameWon | UnoCalled | PlayerLeft
    | GameEndedInsufficientPlayers

  datatype EventData =
    | NoData
    | Created(gameCode: string, maxPlayers: int)
    | Joined(playerOrder: int)
    | Started(playerCount: int)
    | Played(cardType: CardType, color: CardColor, value: Option<int>, chosenColor: Option<CardColor>)
    | Count(count: int)

  /** `player` is absent for system events (game start, reshuffle, early end). */
  datatype GameEvent = GameEvent(
    player: Option<PlayerId>,
    eventType: EventType,
    eventData: EventData,
    sequenceNumber: int)
}
