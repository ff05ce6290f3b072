/**
 * The game entity: its settings, whose turn it is, the direction of play, and the
 * game's memberships, cards and event log. `Valid` holds the invariants the session
 * engine keeps.
 */
module GameEntity {
  import opened Wrappers
  import opened Seqs
  import opened Enums
  import opened CardEntity
  import opened GamePlayerEntity
  import opened GameEventEntity
  import opened CardRepository
  import opened GamePlayerRepository
  import opened GameEventRepository
  import opened Deck

  /** Java's `%` on `int`: the remainder takes the sign of the dividend. */
  function JavaRem(a: int, b: int): (r: int)
    requires b > 0
    ensures a >= 0 ==> 0 <= r < b
    ensures a >= 0 ==> r == a % b
  {
    if a >= 0 then a % b else -((-a) % b)
  }

  /** The seat after `i` of `n` when moving in direction `d`. */
  function NextIndex(i: int, n: int, d: GameDirection): int
    requires n > 0
  {
    match d
    case Clockwise => JavaRem(i + 1, n)
    case CounterClockwise => JavaRem(i - 1 + n, n)
  }

  /** A seat number in range stays in range. */
  lemma NextIndexInRange(i: int, n: int, d: GameDirection)
    requires 0 <= i < n
    ensures 0 <= NextIndex(i, n, d) < n
    ensures d == Clockwise ==> NextIndex(i, n, d) == if i == n - 1 then 0 else i + 1
    ensures d == CounterClockwise ==> NextIndex(i, n, d) == if i == 0 then n - 1 else i - 1
  {
    if i + 1 < n { ModBelow(i + 1, n); } else { ModSelf(n); }
    if i > 0 { ModPlus(i - 1, n); } else { ModBelow(n - 1, n); }
  }

  lemma ModBelow(a: int, n: int)
    requires 0 <= a < n
    ensures a % n == a
  {
  }

  lemma ModPlus(a: int, n: int)
    requires 0 <= a < n
    ensures (a + n) % n == a
  {
  }

  lemma ModSelf(n: int)
    requires 0 < n
    ensures n % n == 0
  {
  }

  /** One clockwise move undone by one counter-clockwise move, and the other way round. */
  lemma NextIndexInverse(i: int, n: int)
    requires 0 <= i < n
    ensures NextIndex(NextIndex(i, n, Clockwise), n, CounterClockwise) == i
    ensures NextIndex(NextIndex(i, n, CounterClockwise), n, Clockwise) == i
  {
    NextIndexInRange(i, n, Clockwise);
    NextIndexInRange(i, n, CounterClockwise);
    NextIndexInRange(NextIndex(i, n, Clockwise), n, CounterClockwise);
    NextIndexInRange(NextIndex(i, n, CounterClockwise), n, Clockwise);
  }

  /** With two seats both directions reach the same seat. */
  lemma TwoSeatsSameNext(i: int)
    requires 0 <= i < 2
    ensures NextIndex(i, 2, Clockwise) == NextIndex(i, 2, CounterClockwise)
  {
    NextIndexInRange(i, 2, Clockwise);
    NextIndexInRange(i, 2, CounterClockwise);
  }

  function Flip(d: GameDirection): (r: GameDirection)
    ensures r != d
  {
    if d == Clockwise then CounterClockwise else Clockwise
  }

  lemma FlipTwice(d: GameDirection)
    ensures Flip(Flip(d)) == d
  {
  }

  /**
   * The per-card invariant: a deck card is nobody's and not on top; the top card is
   * nobody's; a NUMBER card has its number.
   */
  function CardOk(c: Card): bool
  {
    (c.isInDeck ==> !c.isTopCard && c.owner.None?) && (c.isTopCard ==> c.owner.None?) && ValueOk(c)
  }

  ghost predicate CardsOk(cards: seq<Card>)
  {
    forall i :: 0 <= i < |cards| ==> CardOk(cards[i])
  }

  ghost predicate HasTop(cards: seq<Card>)
  {
    exists i :: 0 <= i < |cards| && cards[i].isTopCard
  }

  /** Seats: at least one membership, at most maxPlayers (at most 4), a seat index in range, distinct players. */
  ghost predicate SeatsOk(gamePlayers: seq<GamePlayer>, maxPlayers: int, minPlayers: int, currentPlayerIndex: int)
  {
    1 <= |gamePlayers| <= maxPlayers <= 4 && 2 <= minPlayers
    && 0 <= currentPlayerIndex < |gamePlayers|
    && DistinctPlayers(gamePlayers)
  }

  /**
   * Cards: consistent flags and at most one top card; no cards before the start;
   * 108 cards with exactly one on top once the game has started.
   */
  ghost predicate CardsFit(status: GameStatus, cards: seq<Card>)
  {
    CardsOk(cards) && AtMostOneTop(cards)
    && (status == WaitingForPlayers || status == Cancelled ==> cards == [])
    && (status == InProgress || status == Finished ==> |cards| == DeckSize && HasTop(cards))
  }

  /**
   * The invariant of a game session, stated on its field values: valid seats and cards,
   * an event log numbered 1, 2, 3, ..., and no winner before the game is finished.
   */
  ghost predicate GameInvariant(status: GameStatus, maxPlayers: int, minPlayers: int, currentPlayerIndex: int,
                                winner: Option<PlayerId>, gamePlayers: seq<GamePlayer>, cards: seq<Card>,
                                events: seq<GameEvent>)
  {
    SeatsOk(gamePlayers, maxPlayers, minPlayers, currentPlayerIndex) && CardsFit(status, cards)
    && Numbered(events) && (status != Finished ==> winner.None?)
  }

  class Game {
    var gameCode: string
    var status: GameStatus
    var maxPlayers: int
    var minPlayers: int
    var currentPlayerIndex: int
    var direction: GameDirection
    var winner: Option<PlayerId>
    var createdBy: PlayerId
    var gamePlayers: seq<GamePlayer>
    var cards: seq<Card>
    var events: seq<GameEvent>

    /** A new game waits for players, seats up to 4, starts with 2, clockwise from seat 0. */
    constructor (gameCode: string, createdBy: PlayerId)
      ensures this.gameCode == gameCode && this.createdBy == createdBy
      ensures status == WaitingForPlayers && maxPlayers == 4 && minPlayers == 2
      ensures currentPlayerIndex == 0 && direction == Clockwise && winner == None
      ensures gamePlayers == [] && cards == [] && events == []
    {
      this.gameCode := gameCode;
      this.createdBy := createdBy;
      status := WaitingForPlayers;
      maxPlayers := 4;
      minPlayers := 2;
      currentPlayerIndex := 0;
      direction := Clockwise;
      winner := None;
      gamePlayers := [];
      cards := [];
      events := [];
    }

    /** The session invariant, on the current field values. */
    ghost predicate Valid()
      reads this
    {
      GameInvariant(status, maxPlayers, minPlayers, currentPlayerIndex, winner, gamePlayers, cards, events)
    }

    /** `canStart`: the membership count, inactive ones included, is between minPlayers and maxPlayers. */
    function CanStart(): bool
      reads this
    {
      minPlayers <= |gamePlayers| <= maxPlayers
    }

    /** `isFull`: the membership count, inactive ones included, has reached maxPlayers. */
    function IsFull(): bool
      reads this
    {
      |gamePlayers| >= maxPlayers
    }

    /** `getCurrentPlayer`: the membership at the current seat, absent when the seat is not occupied. */
    function GetCurrentPlayer(): (r: Option<nat>)
      reads this
      requires currentPlayerIndex >= 0
      ensures r.None? <==> |gamePlayers| == 0 || currentPlayerIndex >= |gamePlayers|
      ensures r.Some? ==> r.value < |gamePlayers|
    {
      if |gamePlayers| == 0 || currentPlayerIndex >= |gamePlayers| then None
      else Some(currentPlayerIndex)
    }

    /** `getTopCard`: the first card flagged as top, absent when there is none. */
    function GetTopCard(): (r: Option<nat>)
      reads this
      ensures r.None? <==> forall j :: 0 <= j < |cards| ==> !cards[j].isTopCard
      ensures r.Some? ==> r.value < |cards| && cards[r.value].isTopCard
      ensures r.Some? ==> forall j :: 0 <= j < r.value ==> !cards[j].isTopCard
    {
      FirstWhere(cards, IsTop)
    }

    /** `moveToNextPlayer`: one seat on in the direction of play; nothing happens with no memberships. */
    method MoveToNextPlayer()
      modifies this`currentPlayerIndex
      ensures unchanged(this`gameCode, this`status, this`maxPlayers, this`minPlayers, this`direction, this`winner, this`createdBy, this`gamePlayers, this`cards, this`events)
      ensures |gamePlayers| == 0 ==> currentPlayerIndex == old(currentPlayerIndex)
      ensures |gamePlayers| > 0 ==> currentPlayerIndex == NextIndex(old(currentPlayerIndex), |gamePlayers|, direction)
      ensures 0 <= old(currentPlayerIndex) < |gamePlayers| ==> 0 <= currentPlayerIndex < |gamePlayers|
    {
      if |gamePlayers| == 0 {
        return;
      }
      if old(currentPlayerIndex) >= 0 && old(currentPlayerIndex) < |gamePlayers| {
        NextIndexInRange(currentPlayerIndex, |gamePlayers|, direction);
      }
      if direction == Clockwise {
        currentPlayerIndex := JavaRem(currentPlayerIndex + 1, |gamePlayers|);
      } else {
        currentPlayerIndex := JavaRem(currentPlayerIndex - 1 + |gamePlayers|, |gamePlayers|);
      }
    }

    /** `reverseDirection`: clockwise becomes counter-clockwise and back. */
    method ReverseDirection()
      modifies this`direction
      ensures unchanged(this`gameCode, this`status, this`maxPlayers, this`minPlayers, this`currentPlayerIndex, this`winner, this`createdBy, this`gamePlayers, this`cards, this`events)
      ensures direction == Flip(old(direction))
    {
      direction := if direction == Clockwise then CounterClockwise else Clockwise;
    }
  }
}
