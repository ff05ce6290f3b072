/** `logGameEvent`: appending an event to a game's log under the next sequence number. */
module EventLog {
  import opened Wrappers
  import opened CardEntity
  import opened GameEventEntity
  import opened GameEventRepository
  import opened GameEntity

  /** The log with one more event, numbered one above the highest number so far. */
  function Logged(events: seq<GameEvent>, player: Option<PlayerId>, eventType: EventType, eventData: EventData): (r: seq<GameEvent>)
    ensures |r| == |events| + 1
  {
    events + [GameEvent(player, eventType, eventData, GetLastSequenceNumber(events) + 1)]
  }

  /** Logging on a log numbered 1..k numbers the new event k + 1, so the log stays numbered. */
  lemma LoggedNumbered(events: seq<GameEvent>, player: Option<PlayerId>, eventType: EventType, eventData: EventData)
    requires Numbered(events)
    ensures Logged(events, player, eventType, eventData) == events + [GameEvent(player, eventType, eventData, |events| + 1)]
    ensures Numbered(Logged(events, player, eventType, eventData))
  {
    LastOfNumbered(events);
    AppendKeepsNumbered(events, GameEvent(player, eventType, eventData, |events| + 1));
  }

  method LogGameEvent(g: Game, player: Option<PlayerId>, eventType: EventType, eventData: EventData)
    modifies g`events
    ensures unchanged(g`gameCode, g`status, g`maxPlayers, g`minPlayers, g`currentPlayerIndex, g`direction, g`winner, g`createdBy, g`gamePlayers, g`cards)
    ensures g.events == Logged(old(g.events), player, eventType, eventData)
  {
    var sequenceNumber := GetLastSequenceNumber(g.events) + 1;
    var event := GameEvent(player, eventType, eventData, sequenceNumber);
    g.events := g.events + [event];
  }
}
