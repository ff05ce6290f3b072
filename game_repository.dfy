/**
 * The game queries, over the list of all games. A game is identified by its index in
 * that list; each query reads the persisted columns of every game.
 */
module GameRepository {
  import opened Wrappers
  import opened Seqs
  import opened Enums
  import opened CardEntity
  import opened GamePlayerEntity
  import opened GamePlayerRepository
  import opened GameEntity

  /** The columns of one game the queries select on. */
  datatype GameRow = GameRow(
    gameCode: string,
    status: GameStatus,
    memberships: seq<GamePlayer>,
    maxPlayers: int,
    createdBy: PlayerId)

  function Row(g: Game): (r: GameRow)
    reads g
  {
    GameRow(g.gameCode, g.status, g.gamePlayers, g.maxPlayers, g.createdBy)
  }

  function Rows(games: seq<Game>): (r: seq<GameRow>)
    reads games
    ensures |r| == |games|
    ensures forall i :: 0 <= i < |games| ==> r[i] == Row(games[i])
  {
    seq(|games|, i reads games requires 0 <= i < |games| => Row(games[i]))
  }

  function CodeIs(code: string): GameRow -> bool { (r: GameRow) => r.gameCode == code }

  function StatusIs(status: GameStatus): GameRow -> bool { (r: GameRow) => r.status == status }

  /** `status = :status AND SIZE(gamePlayers) < maxPlayers`. */
  function OpenWith(status: GameStatus): GameRow -> bool
  {
    (r: GameRow) => r.status == status && |r.memberships| < r.maxPlayers
  }

  /** A membership of the player, active or not, and a status among `statuses`. */
  function JoinedWith(player: PlayerId, statuses: seq<GameStatus>): GameRow -> bool
  {
    (r: GameRow) => ExistsByPlayer(r.memberships, player) && r.status in statuses
  }

  function CreatedBy(player: PlayerId): GameRow -> bool { (r: GameRow) => r.createdBy == player }

  /** `findByGameCode`: the first game with that code, if any. */
  function FindByGameCode(games: seq<Game>, code: string): (r: Option<nat>)
    reads games
    ensures r.None? <==> forall i :: 0 <= i < |games| ==> games[i].gameCode != code
    ensures r.Some? ==> r.value < |games| && games[r.value].gameCode == code
  {
    var rows := Rows(games);
    var found := FirstWhere(rows, CodeIs(code));
    assert found.None? ==> forall i :: 0 <= i < |games| ==> !CodeIs(code)(rows[i]);
    found
  }

  /** `existsByGameCode`: some game has the code, exactly when `findByGameCode` finds one. */
  function ExistsByGameCode(games: seq<Game>, code: string): (r: bool)
    reads games
    ensures r <==> FindByGameCode(games, code).Some?
    ensures r <==> exists i :: 0 <= i < |games| && games[i].gameCode == code
  {
    FindByGameCode(games, code).Some?
  }

  /** `findByStatus`: exactly the games with the status. */
  function FindByStatus(games: seq<Game>, status: GameStatus): (r: seq<nat>)
    reads games
    ensures forall k :: 0 <= k < |r| ==> r[k] < |games| && games[r[k]].status == status
    ensures forall i :: 0 <= i < |games| && games[i].status == status ==> i in r
    ensures NoDup(r)
  {
    var rows := Rows(games);
    WhereNoDup(rows, StatusIs(status));
    assert forall i :: 0 <= i < |games| && games[i].status == status ==> StatusIs(status)(rows[i]);
    Where(rows, StatusIs(status))
  }

  /** `findAvailableGames`: exactly the games with the status and fewer memberships, inactive included, than seats. */
  function FindAvailableGames(games: seq<Game>, status: GameStatus): (r: seq<nat>)
    reads games
    ensures forall k :: 0 <= k < |r| ==>
              r[k] < |games| && games[r[k]].status == status && |games[r[k]].gamePlayers| < games[r[k]].maxPlayers
    ensures forall i :: 0 <= i < |games| && games[i].status == status && |games[i].gamePlayers| < games[i].maxPlayers ==>
              i in r
    ensures NoDup(r)
  {
    var rows := Rows(games);
    WhereNoDup(rows, OpenWith(status));
    assert forall i :: 0 <= i < |games| && games[i].status == status && |games[i].gamePlayers| < games[i].maxPlayers ==>
             OpenWith(status)(rows[i]);
    Where(rows, OpenWith(status))
  }

  /** `findPlayerActiveGames`: exactly the games the player has a membership of, in one of the statuses. */
  function FindPlayerActiveGames(games: seq<Game>, player: PlayerId, statuses: seq<GameStatus>): (r: seq<nat>)
    reads games
    ensures forall k :: 0 <= k < |r| ==>
              r[k] < |games| && ExistsByPlayer(games[r[k]].gamePlayers, player) && games[r[k]].status in statuses
    ensures forall i :: 0 <= i < |games| && ExistsByPlayer(games[i].gamePlayers, player) && games[i].status in statuses ==>
              i in r
    ensures NoDup(r)
  {
    var rows := Rows(games);
    WhereNoDup(rows, JoinedWith(player, statuses));
    assert forall i :: 0 <= i < |games| && ExistsByPlayer(games[i].gamePlayers, player) && games[i].status in statuses ==>
             JoinedWith(player, statuses)(rows[i]);
    Where(rows, JoinedWith(player, statuses))
  }

  /** `findGamesByCreator`: exactly the games the player created. */
  function FindGamesByCreator(games: seq<Game>, player: PlayerId): (r: seq<nat>)
    reads games
    ensures forall k :: 0 <= k < |r| ==> r[k] < |games| && games[r[k]].createdBy == player
    ensures forall i :: 0 <= i < |games| && games[i].createdBy == player ==> i in r
    ensures NoDup(r)
  {
    var rows := Rows(games);
    WhereNoDup(rows, CreatedBy(player));
    assert forall i :: 0 <= i < |games| && games[i].createdBy == player ==> CreatedBy(player)(rows[i]);
    Where(rows, CreatedBy(player))
  }

  /** The available games are the games of that status that are not full. */
  lemma AvailableAreNotFull(games: seq<Game>, status: GameStatus, k: nat)
    requires k < |FindAvailableGames(games, status)|
    ensures FindAvailableGames(games, status)[k] in FindByStatus(games, status)
    ensures !games[FindAvailableGames(games, status)[k]].IsFull()
  {
  }
}
