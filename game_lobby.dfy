/**
 * The lobby side of the session engine: drawing a fresh six-digit game code,
 * creating a game with its creator in seat 0, joining a waiting game (which starts
 * it once enough players are in), and the read-only game queries.
 */
module GameLobby {
  import opened Wrappers
  import opened Seqs
  import opened Enums
  import opened CardEntity
  import opened GamePlayerEntity
  import opened GameEventEntity
  import opened CardRepository
  import opened GamePlayerRepository
  import opened GameEventRepository
  import opened GameEntity
  import opened Deck
  import opened CardMoves
  import opened EventLog
  import opened GameSetup
  import opened GameStart
  import opened GameRepository
  import opened GameResponses
  import opened TurnState
  import opened GamePlay
  import opened Strings

  /** Codes are drawn uniformly below one million. */
  const CodeRange: nat := 1000000

  /** The codes of the games, in list order: what `existsByGameCode` looks among. */
  function Codes(games: seq<Game>): (r: seq<string>)
    reads games
    ensures forall c :: c in r <==> ExistsByGameCode(games, c)
  {
    var r := seq(|games|, i reads games requires 0 <= i < |games| => games[i].gameCode);
    assert forall i :: 0 <= i < |games| ==> r[i] == games[i].gameCode;
    r
  }

  /** Some draw gives a code not in use. */
  ghost predicate SomeFree(codes: seq<string>, draws: seq<nat>)
  {
    exists k :: 0 <= k < |draws| && FormatSixDigits(draws[k]) !in codes
  }

  /** The position of the first candidate not in use, trying the candidates in order. */
  method FirstUnused(codes: seq<string>, candidates: seq<string>) returns (attempts: nat)
    requires exists k :: 0 <= k < |candidates| && candidates[k] !in codes
    ensures attempts < |candidates| && candidates[attempts] !in codes
    ensures forall k :: 0 <= k < attempts ==> candidates[k] in codes
  {
    ghost var free :| 0 <= free < |candidates| && candidates[free] !in codes;
    attempts := 0;
    while candidates[attempts] in codes
      invariant attempts <= free
      invariant forall k :: 0 <= k < attempts ==> candidates[k] in codes
      decreases free - attempts
    {
      attempts := attempts + 1;
    }
  }

  /**
   * `generateGameCode`: draws are tried in order until one gives a code not in use;
   * the code returned is the first free one, six digits that read back as the draw.
   * The random draws are a parameter, and one of them is free (otherwise the source
   * keeps drawing forever).
   */
  method GenerateGameCode(codes: seq<string>, draws: seq<nat>) returns (code: string, attempts: nat)
    requires forall k :: 0 <= k < |draws| ==> draws[k] < CodeRange
    requires SomeFree(codes, draws)
    ensures attempts < |draws| && code == FormatSixDigits(draws[attempts])
    ensures code !in codes
    ensures forall k :: 0 <= k < attempts ==> FormatSixDigits(draws[k]) in codes
    ensures |code| == 6 && AllDigits(code) && ParseDigits(code) == draws[attempts]
  {
    var drawn := seq(|draws|, k requires 0 <= k < |draws| => FormatSixDigits(draws[k]));
    ghost var free :| 0 <= free < |draws| && FormatSixDigits(draws[free]) !in codes;
    assert drawn[free] !in codes;
    attempts := FirstUnused(codes, drawn);
    code := drawn[attempts];
    forall k | 0 <= k < attempts ensures FormatSixDigits(draws[k]) in codes {
      assert drawn[k] in codes;
    }
    SixDigitsRoundTrip(draws[attempts]);
  }

  /** A code no game had identifies the game added with it: the lookup finds that game and no other. */
  lemma NewCodeFindsNewGame(games: seq<Game>, g: Game)
    requires !ExistsByGameCode(games, g.gameCode)
    ensures FindByGameCode(games + [g], g.gameCode) == Some(|games|)
    ensures forall i :: 0 <= i < |games| + 1 && (games + [g])[i].gameCode == g.gameCode ==> i == |games|
  {
    assert (games + [g])[|games|] == g;
    assert forall i :: 0 <= i < |games| ==> (games + [g])[i] == games[i];
  }

  /**
   * The game `createGame` sets up and saves: waiting, the creator's active membership
   * in seat 0, the requested seat limits, and GAME_CREATED logged as event 1.
   */
  method NewGame(code: string, creator: PlayerId, maxPlayers: int, minPlayers: int) returns (g: Game)
    requires 2 <= maxPlayers <= 4 && 2 <= minPlayers
    ensures fresh(g) && g.Valid()
    ensures g.gameCode == code && g.status == WaitingForPlayers && g.createdBy == creator
    ensures g.maxPlayers == maxPlayers && g.minPlayers == minPlayers
    ensures g.currentPlayerIndex == 0 && g.direction == Clockwise && g.winner == None
    ensures g.gamePlayers == [NewGamePlayer(creator, 0)] && g.cards == []
    ensures g.events == [GameEvent(Some(creator), GameCreated, Created(code, maxPlayers), 1)]
  {
    g := new Game(code, creator);
    g.maxPlayers := maxPlayers;
    g.minPlayers := minPlayers;
    g.gamePlayers := g.gamePlayers + [NewGamePlayer(creator, 0)];
    LogGameEvent(g, Some(creator), GameCreated, Created(code, maxPlayers));
    LoggedNumbered([], Some(creator), GameCreated, Created(code, maxPlayers));
  }

  /**
   * `createGame`: an unknown creator is refused; otherwise a new game as `NewGame`
   * sets it up, under the first drawn code not in use; the response is the creator's
   * view. The seat limits are those the request validation admits.
   */
  method CreateGame(games: seq<Game>, registered: set<PlayerId>, creator: PlayerId,
                    maxPlayers: int, minPlayers: int, draws: seq<nat>)
    returns (r: Result<GameResponse, string>, g: Game?)
    requires 2 <= maxPlayers <= 4 && 2 <= minPlayers
    requires forall k :: 0 <= k < |draws| ==> draws[k] < CodeRange
    requires SomeFree(Codes(games), draws)
    ensures creator !in registered ==> r == Err("Player not found") && g == null
    ensures creator in registered ==>
              g != null && fresh(g) && g.Valid() && r == Ok(FromEntity(g, Some(creator)))
              && g.gameCode !in Codes(games)
              && (exists k :: 0 <= k < |draws| && g.gameCode == FormatSixDigits(draws[k])
                              && forall j :: 0 <= j < k ==> FormatSixDigits(draws[j]) in Codes(games))
              && g.status == WaitingForPlayers && g.createdBy == creator
              && g.maxPlayers == maxPlayers && g.minPlayers == minPlayers
              && g.currentPlayerIndex == 0 && g.direction == Clockwise && g.winner == None
              && g.gamePlayers == [NewGamePlayer(creator, 0)] && g.cards == []
              && g.events == [GameEvent(Some(creator), GameCreated, Created(g.gameCode, maxPlayers), 1)]
  {
    if creator !in registered {
      return Err("Player not found"), null;
    }
    var code, attempts := GenerateGameCode(Codes(games), draws);
    g := NewGame(code, creator, maxPlayers, minPlayers);
    r := Ok(FromEntity(g, Some(creator)));
  }

  /** A game a player may join: waiting, a seat free, and no membership of the player yet. */
  predicate Admits(t: Table, player: PlayerId)
  {
    t.status == WaitingForPlayers && |t.gamePlayers| < t.maxPlayers && !ExistsByPlayer(t.gamePlayers, player)
  }

  /** `joinGame`'s refusals, in the order the service checks them; none when the player may join. */
  function JoinCheck(t: Table, registered: set<PlayerId>, player: PlayerId): (r: Option<string>)
    ensures r.None? <==> player in registered && Admits(t, player)
    ensures player !in registered ==> r == Some("Player not found")
    ensures player in registered && t.status != WaitingForPlayers ==> r == Some("Game is not accepting new players")
  {
    if player !in registered then Some("Player not found")
    else if t.status != WaitingForPlayers then Some("Game is not accepting new players")
    else if |t.gamePlayers| >= t.maxPlayers then Some("Game is full")
    else if ExistsByPlayer(t.gamePlayers, player) then Some("Player already in this game")
    else None
  }

  /** One more membership, active, for the player, in order `order`, and PLAYER_JOINED logged with that order. */
  function SeatedAt(t: Table, player: PlayerId, order: int): (r: Table)
  {
    t.(gamePlayers := t.gamePlayers + [NewGamePlayer(player, order)],
       events := Logged(t.events, Some(player), PlayerJoined, Joined(order)))
  }

  /** A player seated, ordered by the number of active memberships so far. */
  function Seated(t: Table, player: PlayerId): (r: Table)
  {
    SeatedAt(t, player, CountActivePlayers(t.gamePlayers))
  }

  /** `canStart()` and at least minPlayers active memberships. */
  predicate StartsNow(t: Table)
  {
    t.minPlayers <= |t.gamePlayers| <= t.maxPlayers && CountActivePlayers(t.gamePlayers) >= t.minPlayers
  }

  /** A waiting game started: the starting cards dealt, seven in each active hand, GAME_STARTED logged. */
  function Opened(t: Table, dealRank: seq<nat>, firstRank: seq<nat>): (r: Table)
    requires |t.gamePlayers| <= 4 && IsRank(dealRank, DeckSize) && IsRank(firstRank, DeckSize)
  {
    t.(status := InProgress,
       cards := StartingCards(t.gamePlayers, dealRank, firstRank),
       gamePlayers := SevenEach(t.gamePlayers),
       events := Logged(t.events, None, GameStarted, Started(|t.gamePlayers|)))
  }

  /** The game after a successful join: seated, and started when that made enough players. */
  function JoinOutcome(t: Table, player: PlayerId, dealRank: seq<nat>, firstRank: seq<nat>): (r: Table)
    requires |t.gamePlayers| < t.maxPlayers <= 4 && IsRank(dealRank, DeckSize) && IsRank(firstRank, DeckSize)
  {
    var seated := Seated(t, player);
    if StartsNow(seated) then Opened(seated, dealRank, firstRank) else seated
  }

  /** The response `fromEntity` gives for a table of the game with that code and creator. */
  function Snapshot(gameCode: string, createdBy: PlayerId, t: Table, viewer: Option<PlayerId>): GameResponse
  {
    View(gameCode, t.status, t.maxPlayers, t.minPlayers, t.currentPlayerIndex, t.direction, t.winner,
         createdBy, t.gamePlayers, t.cards, viewer)
  }

  /** One more active membership at the end counts one more active membership. */
  lemma CountActiveAppend(gps: seq<GamePlayer>, gp: GamePlayer)
    requires gp.isActive
    ensures CountActivePlayers(gps + [gp]) == CountActivePlayers(gps) + 1
  {
    FilterConcat(gps, [gp], IsActive);
    assert Filter([gp], IsActive) == [gp] by {
      assert [gp][1..] == [];
    }
  }

  /** A membership for a player not yet in the game keeps the players distinct, and is the one found for that player. */
  lemma DistinctAppend(gps: seq<GamePlayer>, gp: GamePlayer)
    requires DistinctPlayers(gps) && !ExistsByPlayer(gps, gp.player)
    ensures DistinctPlayers(gps + [gp]) && FindByPlayer(gps + [gp], gp.player) == Some(|gps|)
  {
    var r := gps + [gp];
    forall i, j | 0 <= i < j < |r| ensures r[i].player != r[j].player {
      if j == |gps| {
        assert r[i] == gps[i];
      } else {
        assert r[i] == gps[i] && r[j] == gps[j];
      }
    }
    assert DistinctPlayers(r);
    assert r[|gps|] == gp;
  }

  /**
   * Seating a player a game admits keeps the game invariant; the new membership is
   * the player's, active and last, and the memberships already there are untouched.
   */
  lemma SeatedAtKeepsInvariant(t: Table, player: PlayerId, order: int)
    requires TableOk(t) && Admits(t, player)
    ensures var r := SeatedAt(t, player, order);
            TableOk(r) && r.status == WaitingForPlayers && r.cards == []
            && |r.gamePlayers| == |t.gamePlayers| + 1 && r.gamePlayers[..|t.gamePlayers|] == t.gamePlayers
            && r.gamePlayers[|t.gamePlayers|] == NewGamePlayer(player, order)
            && FindByPlayer(r.gamePlayers, player) == Some(|t.gamePlayers|)
  {
    var gps := t.gamePlayers;
    var r := SeatedAt(t, player, order);
    LoggedNumbered(t.events, Some(player), PlayerJoined, Joined(order));
    DistinctAppend(gps, NewGamePlayer(player, order));
    assert r.gamePlayers[..|gps|] == gps;
  }

  /**
   * `joinGame`'s seating: the invariant is kept, the joiner's membership is last and
   * ordered after the active ones, and there is one more active membership.
   */
  lemma SeatedKeepsInvariant(t: Table, player: PlayerId)
    requires TableOk(t) && Admits(t, player)
    ensures var r := Seated(t, player);
            TableOk(r) && r.status == WaitingForPlayers && r.cards == []
            && |r.gamePlayers| == |t.gamePlayers| + 1 && r.gamePlayers[..|t.gamePlayers|] == t.gamePlayers
            && r.gamePlayers[|t.gamePlayers|] == NewGamePlayer(player, CountActivePlayers(t.gamePlayers))
            && CountActivePlayers(r.gamePlayers) == CountActivePlayers(t.gamePlayers) + 1
            && FindByPlayer(r.gamePlayers, player) == Some(|t.gamePlayers|)
  {
    var order := CountActivePlayers(t.gamePlayers);
    SeatedAtKeepsInvariant(t, player, order);
    CountActiveAppend(t.gamePlayers, NewGamePlayer(player, order));
  }

  /**
   * Starting a waiting game keeps the invariant: the game is under way with the
   * same memberships and a full deck with one card turned up.
   */
  lemma OpenedKeepsInvariant(s: Table, dealRank: seq<nat>, firstRank: seq<nat>)
    requires TableOk(s) && s.status == WaitingForPlayers && IsRank(dealRank, DeckSize) && IsRank(firstRank, DeckSize)
    ensures |s.gamePlayers| <= 4
    ensures var r := Opened(s, dealRank, firstRank);
            TableOk(r) && r.status == InProgress && |r.gamePlayers| == |s.gamePlayers|
            && HasTop(r.cards) && |r.cards| == DeckSize
  {
    var r := Opened(s, dealRank, firstRank);
    StartingCardsFacts(s.gamePlayers, dealRank, firstRank);
    SevenEachSeats(s.gamePlayers);
    LoggedNumbered(s.events, None, GameStarted, Started(|s.gamePlayers|));
    assert SeatsOk(r.gamePlayers, r.maxPlayers, r.minPlayers, r.currentPlayerIndex);
    assert CardsFit(r.status, r.cards);
  }

  /** Once a game is started every active player holds seven cards, as the membership's counter says. */
  lemma OpenedHands(s: Table, dealRank: seq<nat>, firstRank: seq<nat>, q: nat)
    requires |s.gamePlayers| <= 4 && DistinctPlayers(s.gamePlayers)
    requires IsRank(dealRank, DeckSize) && IsRank(firstRank, DeckSize)
    requires q < |s.gamePlayers| && s.gamePlayers[q].isActive
    ensures var r := Opened(s, dealRank, firstRank);
            q < |r.gamePlayers| && r.gamePlayers[q].cardsCount == 7
            && CountPlayerCards(r.cards, r.gamePlayers[q].player) == 7
  {
    var r := Opened(s, dealRank, firstRank);
    var x := s.gamePlayers[q].player;
    DealtDeck(s.gamePlayers, dealRank);
    FirstCardEffect(Dealt(StandardDeck, s.gamePlayers, dealRank), firstRank);
    DealtHands(s.gamePlayers, dealRank, x);
    assert exists q' :: 0 <= q' < |s.gamePlayers| && s.gamePlayers[q'].isActive && s.gamePlayers[q'].player == x;
    assert r.gamePlayers[q] == s.gamePlayers[q].(cardsCount := 7);
  }

  /**
   * A successful join keeps the game invariant; the game is under way exactly when
   * the join made enough players, and then every active player holds seven cards and
   * one card is turned up; otherwise it is still waiting.
   */
  lemma JoinOutcomeKeepsInvariant(t: Table, player: PlayerId, dealRank: seq<nat>, firstRank: seq<nat>)
    requires TableOk(t) && Admits(t, player) && IsRank(dealRank, DeckSize) && IsRank(firstRank, DeckSize)
    ensures var r := JoinOutcome(t, player, dealRank, firstRank);
            TableOk(r)
            && (r.status == InProgress <==> StartsNow(Seated(t, player)))
            && (r.status == WaitingForPlayers <==> !StartsNow(Seated(t, player)))
            && |r.gamePlayers| == |t.gamePlayers| + 1
            && (r.status == InProgress ==>
                  HasTop(r.cards) && |r.cards| == DeckSize
                  && forall q :: 0 <= q < |r.gamePlayers| && r.gamePlayers[q].isActive ==>
                       r.gamePlayers[q].cardsCount == 7 && CountPlayerCards(r.cards, r.gamePlayers[q].player) == 7)
  {
    SeatedKeepsInvariant(t, player);
    var s := Seated(t, player);
    if StartsNow(s) {
      OpenedKeepsInvariant(s, dealRank, firstRank);
      var r := Opened(s, dealRank, firstRank);
      forall q | 0 <= q < |r.gamePlayers| && r.gamePlayers[q].isActive
        ensures r.gamePlayers[q].cardsCount == 7 && CountPlayerCards(r.cards, r.gamePlayers[q].player) == 7
      {
        assert s.gamePlayers[q].isActive;
        OpenedHands(s, dealRank, firstRank, q);
      }
    }
  }

  /**
   * When nobody has left, the join that brings the membership count up to minPlayers
   * starts the game, and no earlier one does; with minPlayers above maxPlayers no
   * join ever starts it.
   */
  lemma StartsAtMinimum(t: Table, player: PlayerId)
    requires TableOk(t) && Admits(t, player)
    requires forall q :: 0 <= q < |t.gamePlayers| ==> t.gamePlayers[q].isActive
    ensures StartsNow(Seated(t, player)) <==> |t.gamePlayers| + 1 >= t.minPlayers
    ensures t.minPlayers > t.maxPlayers ==> !StartsNow(Seated(t, player))
  {
    SeatedKeepsInvariant(t, player);
    FilterAll(t.gamePlayers, IsActive);
  }

  /** The checks of `joinGame`, on the game as it is. */
  method CheckJoin(g: Game, registered: set<PlayerId>, player: PlayerId) returns (check: Option<string>)
    ensures check == JoinCheck(TableOf(g), registered, player)
  {
    if player !in registered {
      return Some("Player not found");
    }
    if g.status != WaitingForPlayers {
      return Some("Game is not accepting new players");
    }
    if g.IsFull() {
      return Some("Game is full");
    }
    if ExistsByPlayer(g.gamePlayers, player) {
      return Some("Player already in this game");
    }
    return None;
  }

  /** Adding the membership and logging PLAYER_JOINED. */
  method SeatPlayer(g: Game, player: PlayerId)
    modifies g`gamePlayers, g`events
    ensures TableOf(g) == Seated(old(TableOf(g)), player)
  {
    var playerOrder := CountActivePlayers(g.gamePlayers);
    g.gamePlayers := g.gamePlayers + [NewGamePlayer(player, playerOrder)];
    LogGameEvent(g, Some(player), PlayerJoined, Joined(playerOrder));
  }

  /** The start at the end of `joinGame`: taken when `canStart()` and enough memberships are active. */
  method StartIfReady(g: Game, dealRank: seq<nat>, firstRank: seq<nat>)
    requires g.Valid() && g.status == WaitingForPlayers && IsRank(dealRank, DeckSize) && IsRank(firstRank, DeckSize)
    modifies g`status, g`cards, g`gamePlayers, g`events
    ensures unchanged(g`gameCode, g`createdBy)
    ensures StartsNow(old(TableOf(g))) ==> TableOf(g) == Opened(old(TableOf(g)), dealRank, firstRank)
    ensures !StartsNow(old(TableOf(g))) ==> TableOf(g) == old(TableOf(g))
    ensures g.Valid()
  {
    ghost var t0 := TableOf(g);
    if g.CanStart() && CountActivePlayers(g.gamePlayers) >= g.minPlayers {
      assert StartsNow(t0);
      StartGame(g, dealRank, firstRank);
      assert TableOf(g) == Opened(t0, dealRank, firstRank);
    } else {
      assert !StartsNow(t0);
    }
  }

  /** A join the game admits: seat the player, take the joiner's view, then start if ready. */
  method JoinAction(g: Game, player: PlayerId, dealRank: seq<nat>, firstRank: seq<nat>) returns (gameResponse: GameResponse)
    requires g.Valid() && Admits(TableOf(g), player) && IsRank(dealRank, DeckSize) && IsRank(firstRank, DeckSize)
    modifies g`status, g`cards, g`gamePlayers, g`events
    ensures unchanged(g`gameCode, g`createdBy)
    ensures gameResponse == Snapshot(g.gameCode, g.createdBy, Seated(old(TableOf(g)), player), Some(player))
    ensures TableOf(g) == JoinOutcome(old(TableOf(g)), player, dealRank, firstRank)
    ensures g.Valid()
  {
    SeatedKeepsInvariant(TableOf(g), player);
    SeatPlayer(g, player);
    ValidTable(g);
    gameResponse := FromEntity(g, Some(player));
    StartIfReady(g, dealRank, firstRank);
  }

  /**
   * `joinGame` on the game found by its code: a refusal leaves the game as it was;
   * otherwise the player is seated and the game started when that made enough
   * players. The response is the joiner's view taken before the start.
   */
  method JoinGame(g: Game, registered: set<PlayerId>, player: PlayerId, dealRank: seq<nat>, firstRank: seq<nat>)
    returns (r: Result<GameResponse, string>)
    requires g.Valid() && IsRank(dealRank, DeckSize) && IsRank(firstRank, DeckSize)
    modifies g`status, g`cards, g`gamePlayers, g`events
    ensures unchanged(g`gameCode, g`createdBy)
    ensures match JoinCheck(old(TableOf(g)), registered, player)
            case Some(msg) => r == Err(msg) && TableOf(g) == old(TableOf(g))
            case None =>
              r == Ok(Snapshot(g.gameCode, g.createdBy, Seated(old(TableOf(g)), player), Some(player)))
              && TableOf(g) == JoinOutcome(old(TableOf(g)), player, dealRank, firstRank)
    ensures g.Valid()
  {
    var check := CheckJoin(g, registered, player);
    if check.Some? {
      return Err(check.value);
    }
    var gameResponse := JoinAction(g, player, dealRank, firstRank);
    return Ok(gameResponse);
  }

  /**
   * `joinGame` as the service receives it, with the game named by its code: "Game not
   * found" when no game has the code, otherwise `JoinGame` on the game found, which is
   * the only game that may change.
   */
  method JoinGameByCode(games: seq<Game>, code: string, registered: set<PlayerId>, player: PlayerId,
                        dealRank: seq<nat>, firstRank: seq<nat>)
    returns (r: Result<GameResponse, string>)
    requires forall i :: 0 <= i < |games| ==> games[i].Valid()
    requires IsRank(dealRank, DeckSize) && IsRank(firstRank, DeckSize)
    modifies games
    ensures match old(FindByGameCode(games, code))
            case None => r == Err("Game not found") && unchanged(games)
            case Some(i) =>
              (forall j :: 0 <= j < |games| && games[j] != games[i] ==> unchanged(games[j]))
              && old(games[i].Valid()) && games[i].Valid()
              && (match JoinCheck(old(TableOf(games[i])), registered, player)
                  case Some(msg) => r == Err(msg) && TableOf(games[i]) == old(TableOf(games[i]))
                  case None =>
                    r == Ok(Snapshot(games[i].gameCode, games[i].createdBy, Seated(old(TableOf(games[i])), player), Some(player)))
                    && TableOf(games[i]) == JoinOutcome(old(TableOf(games[i])), player, dealRank, firstRank))
  {
    var found := FindByGameCode(games, code);
    if found.None? {
      return Err("Game not found");
    }
    r := JoinGame(games[found.value], registered, player, dealRank, firstRank);
  }

  /** `getGame`: the view of the game with the code, or "Game not found". */
  function GetGame(games: seq<Game>, code: string, viewer: Option<PlayerId>): (r: Result<GameResponse, string>)
    reads games
    ensures r.Err? <==> forall i :: 0 <= i < |games| ==> games[i].gameCode != code
    ensures r.Err? ==> r.error == "Game not found"
    ensures r.Ok? ==> r.value.gameCode == code
                      && exists i :: 0 <= i < |games| && games[i].gameCode == code && r.value == FromEntity(games[i], viewer)
  {
    match FindByGameCode(games, code)
    case None => Err("Game not found")
    case Some(i) => Ok(FromEntity(games[i], viewer))
  }

  /** The views of the listed games, in list order. */
  function Views(games: seq<Game>, ids: seq<nat>, viewer: Option<PlayerId>): (r: seq<GameResponse>)
    reads games
    requires forall k :: 0 <= k < |ids| ==> ids[k] < |games|
    ensures |r| == |ids| && forall k :: 0 <= k < |ids| ==> r[k] == FromEntity(games[ids[k]], viewer)
  {
    seq(|ids|, k reads games requires 0 <= k < |ids| && ids[k] < |games| => FromEntity(games[ids[k]], viewer))
  }

  /** `getAvailableGames`: the view, with no viewer, of each waiting game that is not full. */
  function GetAvailableGames(games: seq<Game>): seq<GameResponse>
    reads games
  {
    Views(games, FindAvailableGames(games, WaitingForPlayers), None)
  }

  /** Every view `getAvailableGames` returns is of a waiting game with a free seat, and shows no hand. */
  lemma AvailableGamesSound(games: seq<Game>, k: nat)
    requires k < |GetAvailableGames(games)|
    ensures var v := GetAvailableGames(games)[k];
            v.status == WaitingForPlayers && |v.players| < v.maxPlayers
            && forall q :: 0 <= q < |v.players| ==> v.players[q].hand.None?
  {
    var ids := FindAvailableGames(games, WaitingForPlayers);
    assert GetAvailableGames(games)[k] == FromEntity(games[ids[k]], None);
  }

  /** Every waiting game that is not full has its view among `getAvailableGames`. */
  lemma AvailableGamesComplete(games: seq<Game>, i: nat)
    requires i < |games| && games[i].status == WaitingForPlayers && !games[i].IsFull()
    ensures exists k :: 0 <= k < |GetAvailableGames(games)| && GetAvailableGames(games)[k] == FromEntity(games[i], None)
  {
    var ids := FindAvailableGames(games, WaitingForPlayers);
    assert i in ids;
    var k :| 0 <= k < |ids| && ids[k] == i;
    assert GetAvailableGames(games)[k] == FromEntity(games[i], None);
  }

  /** A game's view lists every membership of the game, so a member's own. */
  lemma ViewShowsMember(g: Game, player: PlayerId, view: GameResponse)
    requires ExistsByPlayer(g.gamePlayers, player) && view == FromEntity(g, Some(player))
    ensures exists q :: 0 <= q < |view.players| && view.players[q].player == player
  {
    var q :| 0 <= q < |g.gamePlayers| && g.gamePlayers[q].player == player;
    assert view.players[q].player == player;
  }

  /**
   * `getPlayerGames`: the player's own view of each waiting or running game the player
   * has a membership of (left or not), each game once.
   */
  function GetPlayerGames(games: seq<Game>, player: PlayerId): seq<GameResponse>
    reads games
  {
    Views(games, FindPlayerActiveGames(games, player, [WaitingForPlayers, InProgress]), Some(player))
  }

  /** Every view `getPlayerGames` returns is of a waiting or running game and lists the player among its memberships. */
  lemma PlayerGamesSound(games: seq<Game>, player: PlayerId, k: nat)
    requires k < |GetPlayerGames(games, player)|
    ensures var v := GetPlayerGames(games, player)[k];
            (v.status == WaitingForPlayers || v.status == InProgress)
            && exists q :: 0 <= q < |v.players| && v.players[q].player == player
  {
    var ids := FindPlayerActiveGames(games, player, [WaitingForPlayers, InProgress]);
    ViewShowsMember(games[ids[k]], player, GetPlayerGames(games, player)[k]);
  }

  /** Every waiting or running game the player has a membership of has its view among `getPlayerGames`. */
  lemma PlayerGamesComplete(games: seq<Game>, player: PlayerId, i: nat)
    requires i < |games| && ExistsByPlayer(games[i].gamePlayers, player)
    requires games[i].status == WaitingForPlayers || games[i].status == InProgress
    ensures exists k :: 0 <= k < |GetPlayerGames(games, player)| && GetPlayerGames(games, player)[k] == FromEntity(games[i], Some(player))
  {
    var ids := FindPlayerActiveGames(games, player, [WaitingForPlayers, InProgress]);
    assert i in ids;
    var k :| 0 <= k < |ids| && ids[k] == i;
    assert GetPlayerGames(games, player)[k] == FromEntity(games[i], Some(player));
  }
}
