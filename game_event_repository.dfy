/** The event-log queries of one game, over its list of events. */
module GameEventRepository {
  import opened Seqs
  import opened GameEventEntity

  function SequenceKey(e: GameEvent): int { e.sequenceNumber }

  /** The events are numbered 1, 2, ..., k in the order they were logged. */
  ghost predicate Numbered(events: seq<GameEvent>)
  {
    forall i :: 0 <= i < |events| ==> events[i].sequenceNumber == i + 1
  }

  /** `findByGameIdOrderBySequenceNumber`: all events, ascending by sequence number. */
  function FindOrdered(events: seq<GameEvent>): (r: seq<GameEvent>)
    ensures multiset(r) == multiset(events)
    ensures SortedBy(r, SequenceKey)
  {
    SortBySorted(events, SequenceKey);
    SortBy(events, SequenceKey)
  }

  function HasType(t: EventType): GameEvent -> bool
  {
    (e: GameEvent) => e.eventType == t
  }

  /** `findByGameIdAndEventTypeOrderBySequenceNumber`: the events of one type, ascending. */
  function FindByType(events: seq<GameEvent>, t: EventType): (r: seq<GameEvent>)
    ensures multiset(r) == multiset(Filter(events, HasType(t)))
    ensures forall i :: 0 <= i < |r| ==> r[i].eventType == t && r[i] in events
    ensures SortedBy(r, SequenceKey)
  {
    var matching := Filter(events, HasType(t));
    SortBySorted(matching, SequenceKey);
    SortBy(matching, SequenceKey)
  }

  /** `getLastSequenceNumber`: `COALESCE(MAX(sequenceNumber), 0)`. */
  function GetLastSequenceNumber(events: seq<GameEvent>): (r: int)
    ensures events == [] ==> r == 0
    ensures forall i :: 0 <= i < |events| ==> events[i].sequenceNumber <= r
    ensures events != [] ==> exists i :: 0 <= i < |events| && events[i].sequenceNumber == r
  {
    if events == [] then 0
    else if |events| == 1 then events[0].sequenceNumber
    else
      var rest := GetLastSequenceNumber(events[1..]);
      assert forall i :: 1 <= i < |events| ==> events[i] == events[1..][i - 1];
      if events[0].sequenceNumber >= rest then events[0].sequenceNumber else rest
  }

  function After(afterSequence: int): GameEvent -> bool
  {
    (e: GameEvent) => e.sequenceNumber > afterSequence
  }

  /** `findEventsAfterSequence`: the events numbered above `afterSequence`, ascending. */
  function FindEventsAfterSequence(events: seq<GameEvent>, afterSequence: int): (r: seq<GameEvent>)
    ensures multiset(r) == multiset(Filter(events, After(afterSequence)))
    ensures forall i :: 0 <= i < |r| ==> r[i].sequenceNumber > afterSequence && r[i] in events
    ensures SortedBy(r, SequenceKey)
  {
    var matching := Filter(events, After(afterSequence));
    SortBySorted(matching, SequenceKey);
    SortBy(matching, SequenceKey)
  }

  /** On a numbered log the last sequence number is the number of events. */
  lemma LastOfNumbered(events: seq<GameEvent>)
    requires Numbered(events)
    ensures GetLastSequenceNumber(events) == |events|
  {
    if events != [] {
      var k :| 0 <= k < |events| && events[k].sequenceNumber == GetLastSequenceNumber(events);
      assert events[|events| - 1].sequenceNumber == |events|;
    }
  }

  /** Logging an event numbered last + 1 keeps the log numbered 1..k with no gaps. */
  lemma AppendKeepsNumbered(events: seq<GameEvent>, e: GameEvent)
    requires Numbered(events)
    requires e.sequenceNumber == GetLastSequenceNumber(events) + 1
    ensures Numbered(events + [e])
  {
    LastOfNumbered(events);
  }

  /** On a numbered log, the events after `k` are the log's suffix from position k; after 0 is all of it. */
  lemma AfterOfNumbered(events: seq<GameEvent>, k: nat)
    requires Numbered(events)
    requires k <= |events|
    ensures FindEventsAfterSequence(events, k) == events[k..]
  {
    var suffix := events[k..];
    AfterFilter(events, k);
    assert SortedBy(suffix, SequenceKey);
    SortBySortedIdentity(suffix, SequenceKey);
  }

  lemma AfterFilter(events: seq<GameEvent>, k: nat)
    requires Numbered(events)
    requires k <= |events|
    ensures Filter(events, After(k)) == events[k..]
  {
    FilterSplit(events, After(k), k);
  }
}
