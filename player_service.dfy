/**
 * `PlayerService`: registering players, looking them up, renaming them, setting and
 * adding coins, deleting them, and the two ranked listings. The player table is a
 * field of the registry object that every operation reassigns; a row update stands
 * for the setter calls followed by `save`.
 */
module PlayerService {
  import opened Wrappers
  import opened Seqs
  import opened Strings
  import opened PlayerEntity
  import opened PlayerRepository

  function AlreadyExists(name: string): string
  {
    "Player with name '" + name + "' already exists"
  }

  function NotFoundWithId(id: int): string
  {
    "Player not found with id: " + IntToString(id)
  }

  function NotFoundWithName(name: string): string
  {
    "Player not found with name: " + name
  }

  /** The responses for a list of players, in the same order. */
  function Responses(ps: seq<Player>): (r: seq<PlayerResponse>)
    ensures |r| == |ps|
    ensures forall p :: p in ps ==> FromEntity(p) in r
  {
    var r := seq(|ps|, i requires 0 <= i < |ps| => FromEntity(ps[i]));
    assert forall i :: 0 <= i < |ps| ==> r[i] == FromEntity(ps[i]);
    r
  }

  /** A new player takes the next id and is then found by name and by id; the table stays well formed. */
  lemma CreateKeepsTable(ps: seq<Player>, nextId: nat, name: string, coins: int)
    requires TableOk(ps, nextId) && !ExistsByPlayerName(ps, name) && IsInt(coins)
    ensures var p := Player(nextId, name, coins);
            TableOk(ps + [p], nextId + 1)
            && FindByPlayerName(ps + [p], name) == Some(p)
            && RowOf(ps + [p], nextId) == Some(|ps|)
  {
    var p := Player(nextId, name, coins);
    var qs := ps + [p];
    assert forall i :: 0 <= i < |ps| ==> qs[i] == ps[i];
    assert TableOk(qs, nextId + 1);
    NameLookupUnique(qs, nextId + 1, |ps|);
  }

  /**
   * Giving row `k` a name that is its own or free, and any `int` balance, keeps the
   * table well formed; the row keeps its place and id and is found under its new name.
   */
  lemma UpdateKeepsTable(ps: seq<Player>, nextId: nat, k: nat, name: string, coins: int)
    requires TableOk(ps, nextId) && k < |ps| && IsInt(coins)
    requires ps[k].playerName == name || !ExistsByPlayerName(ps, name)
    ensures var qs := ps[k := ps[k].(playerName := name, coins := coins)];
            TableOk(qs, nextId)
            && RowOf(qs, ps[k].id) == Some(k)
            && FindByPlayerName(qs, name) == Some(qs[k])
  {
    var qs := ps[k := ps[k].(playerName := name, coins := coins)];
    forall i, j | 0 <= i < j < |qs| ensures qs[i].id != qs[j].id && qs[i].playerName != qs[j].playerName {
      if i == k || j == k {
        assert ps[i].playerName != ps[j].playerName;
      }
    }
    NameLookupUnique(qs, nextId, k);
  }

  /** Renaming a player to a name another player holds would break the uniqueness of names. */
  lemma RenameClash(ps: seq<Player>, nextId: nat, k: nat, name: string, coins: int)
    requires k < |ps| && ps[k].playerName != name && ExistsByPlayerName(ps, name)
    ensures !TableOk(ps[k := ps[k].(playerName := name, coins := coins)], nextId)
  {
    var qs := ps[k := ps[k].(playerName := name, coins := coins)];
    var j :| 0 <= j < |ps| && ps[j].playerName == name;
    assert j != k && qs[j].playerName == qs[k].playerName;
  }

  /** Deleting row `k` keeps the table well formed; its id and its name are then unknown, every other row is still found. */
  lemma DeleteKeepsTable(ps: seq<Player>, nextId: nat, k: nat)
    requires TableOk(ps, nextId) && k < |ps|
    ensures var qs := ps[..k] + ps[k + 1..];
            TableOk(qs, nextId)
            && RowOf(qs, ps[k].id).None?
            && !ExistsByPlayerName(qs, ps[k].playerName)
            && forall j :: 0 <= j < |ps| && j != k ==> RowOf(qs, ps[j].id).Some?
  {
    var qs := ps[..k] + ps[k + 1..];
    assert forall i :: 0 <= i < |qs| ==> qs[i] == ps[if i < k then i else i + 1];
    forall j | 0 <= j < |ps| && j != k ensures RowOf(qs, ps[j].id).Some? {
      assert qs[if j < k then j else j - 1] == ps[j];
    }
  }

  /** The in-memory player table and the service operations on it. */
  class Registry {
    var players: seq<Player>
    /** The next id the `IDENTITY` column hands out. */
    var nextId: nat

    ghost predicate Valid()
      reads this
    {
      TableOk(players, nextId)
    }

    constructor()
      ensures Valid() && players == [] && nextId == 1
    {
      players := [];
      nextId := 1;
    }

    /** `createPlayer`: a taken name is refused; otherwise a new row with the next id. */
    method CreatePlayer(name: string, coins: int) returns (r: Result<PlayerResponse, string>)
      requires Valid() && IsInt(coins)
      modifies this
      ensures Valid()
      ensures ExistsByPlayerName(old(players), name) ==>
                r == Err(AlreadyExists(name)) && players == old(players) && nextId == old(nextId)
      ensures !ExistsByPlayerName(old(players), name) ==>
                r == Ok(PlayerResponse(old(nextId), name, coins))
                && players == old(players) + [Player(old(nextId), name, coins)]
                && nextId == old(nextId) + 1
    {
      if ExistsByPlayerName(players, name) {
        return Err(AlreadyExists(name));
      }
      CreateKeepsTable(players, nextId, name, coins);
      var p := Player(nextId, name, coins);
      players := players + [p];
      nextId := nextId + 1;
      r := Ok(FromEntity(p));
    }

    /** `getAllPlayers`: every row, in table order. */
    function GetAllPlayers(): seq<PlayerResponse>
      reads this
    {
      Responses(players)
    }

    /** `getPlayerById`: the player with that id, or the not-found error. */
    function GetPlayerById(id: int): (r: Result<PlayerResponse, string>)
      reads this
      ensures r.Err? <==> forall i :: 0 <= i < |players| ==> players[i].id != id
      ensures r.Err? ==> r.error == NotFoundWithId(id)
      ensures r.Ok? ==> r.value.id == id && exists i :: 0 <= i < |players| && FromEntity(players[i]) == r.value
    {
      var k := RowOf(players, id);
      if k.Some? then Ok(FromEntity(players[k.value])) else Err(NotFoundWithId(id))
    }

    /** The full listing and the lookup by id agree: each listed player is what its id finds. */
    lemma AllPlayersListed()
      requires Valid()
      ensures forall i :: 0 <= i < |GetAllPlayers()| ==> GetPlayerById(GetAllPlayers()[i].id) == Ok(GetAllPlayers()[i])
    {
      forall i | 0 <= i < |players| ensures GetPlayerById(players[i].id) == Ok(FromEntity(players[i])) {
        var k := RowOf(players, players[i].id);
        assert k == Some(i);
      }
    }

    /** `getPlayerByName`: the player with that name, or the not-found error. */
    function GetPlayerByName(name: string): (r: Result<PlayerResponse, string>)
      reads this
      ensures r.Err? <==> !ExistsByPlayerName(players, name)
      ensures r.Err? ==> r.error == NotFoundWithName(name)
      ensures r.Ok? ==> r.value.playerName == name && exists i :: 0 <= i < |players| && FromEntity(players[i]) == r.value
    {
      ExistsIffFound(players, name);
      var p := FindByPlayerName(players, name);
      if p.Some? then Ok(FromEntity(p.value)) else Err(NotFoundWithName(name))
    }

    /**
     * `updatePlayer`: an unknown id, or a new name that another player holds, is refused;
     * keeping the current name is allowed. Otherwise name and coins are replaced.
     */
    method UpdatePlayer(id: int, name: string, coins: int) returns (r: Result<PlayerResponse, string>)
      requires Valid() && IsInt(coins)
      modifies this
      ensures Valid() && nextId == old(nextId)
      ensures var k := RowOf(old(players), id);
              if k.None? then r == Err(NotFoundWithId(id)) && players == old(players)
              else if old(players)[k.value].playerName != name && ExistsByPlayerName(old(players), name) then
                r == Err(AlreadyExists(name)) && players == old(players)
              else
                r == Ok(PlayerResponse(old(players)[k.value].id, name, coins))
                && players == old(players)[k.value := old(players)[k.value].(playerName := name, coins := coins)]
    {
      var k := RowOf(players, id);
      if k.None? {
        return Err(NotFoundWithId(id));
      }
      var p := players[k.value];
      if p.playerName != name && ExistsByPlayerName(players, name) {
        return Err(AlreadyExists(name));
      }
      UpdateKeepsTable(players, nextId, k.value, name, coins);
      var q := p.(playerName := name, coins := coins);
      players := players[k.value := q];
      r := Ok(FromEntity(q));
    }

    /** `updatePlayerCoins`: the balance is set to `coins`; nothing else changes. */
    method UpdatePlayerCoins(id: int, coins: int) returns (r: Result<PlayerResponse, string>)
      requires Valid() && IsInt(coins)
      modifies this
      ensures Valid() && nextId == old(nextId)
      ensures var k := RowOf(old(players), id);
              if k.None? then r == Err(NotFoundWithId(id)) && players == old(players)
              else
                var q := old(players)[k.value].(coins := coins);
                r == Ok(FromEntity(q)) && players == old(players)[k.value := q]
    {
      var k := RowOf(players, id);
      if k.None? {
        return Err(NotFoundWithId(id));
      }
      var p := players[k.value];
      UpdateKeepsTable(players, nextId, k.value, p.playerName, coins);
      var q := p.(coins := coins);
      players := players[k.value := q];
      r := Ok(FromEntity(q));
    }

    /** `addCoinsToPlayer`: the balance grows by `coinsToAdd`, with Java `int` wrap-around. */
    method AddCoinsToPlayer(id: int, coinsToAdd: int) returns (r: Result<PlayerResponse, string>)
      requires Valid() && IsInt(coinsToAdd)
      modifies this
      ensures Valid() && nextId == old(nextId)
      ensures var k := RowOf(old(players), id);
              if k.None? then r == Err(NotFoundWithId(id)) && players == old(players)
              else
                var q := old(players)[k.value].(coins := AddInt(old(players)[k.value].coins, coinsToAdd));
                r == Ok(FromEntity(q)) && players == old(players)[k.value := q]
    {
      var k := RowOf(players, id);
      if k.None? {
        return Err(NotFoundWithId(id));
      }
      var p := players[k.value];
      var coins := AddInt(p.coins, coinsToAdd);
      UpdateKeepsTable(players, nextId, k.value, p.playerName, coins);
      var q := p.(coins := coins);
      players := players[k.value := q];
      r := Ok(FromEntity(q));
    }

    /** `deletePlayer`: an unknown id is refused; otherwise the row is removed and its id no longer found. */
    method DeletePlayer(id: int) returns (err: Option<string>)
      requires Valid()
      modifies this
      ensures Valid() && nextId == old(nextId)
      ensures var k := RowOf(old(players), id);
              if k.None? then err == Some(NotFoundWithId(id)) && players == old(players)
              else err.None? && players == old(players)[..k.value] + old(players)[k.value + 1..]
      ensures GetPlayerById(id) == Err(NotFoundWithId(id))
    {
      var k := RowOf(players, id);
      if k.None? {
        return Some(NotFoundWithId(id));
      }
      DeleteKeepsTable(players, nextId, k.value);
      players := players[..k.value] + players[k.value + 1..];
      err := None;
    }

    /** `getPlayersOrderByCoins`: every player once, richest first. */
    function GetPlayersOrderByCoins(): (r: seq<PlayerResponse>)
      reads this
      ensures |r| == |players|
      ensures forall i, j :: 0 <= i < j < |r| ==> r[i].coins >= r[j].coins
      ensures forall p :: p in players ==> FromEntity(p) in r
    {
      var sorted := FindAllOrderByCoinsDesc(players);
      LeaderboardSorted(players);
      assert forall p :: p in players ==> p in multiset(sorted);
      Responses(sorted)
    }

    /** `getPlayersWithMinCoins`: exactly the players holding at least `minCoins`. */
    function GetPlayersWithMinCoins(minCoins: int): (r: seq<PlayerResponse>)
      reads this
      ensures forall q :: q in r ==> q.coins >= minCoins && exists p :: p in players && FromEntity(p) == q
      ensures forall p :: p in players && p.coins >= minCoins ==> FromEntity(p) in r
    {
      var found := FindPlayersWithMinCoins(players, minCoins);
      forall p | p in players && p.coins >= minCoins ensures p in found {
        MinCoinsExact(players, minCoins, p);
      }
      Responses(found)
    }
  }
}
