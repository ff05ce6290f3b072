/**
 * The player table (`PlayerRepository`) as a sequence of rows in insertion order, and
 * its queries: lookup by id and by name, the leaderboard (`ORDER BY coins DESC`) and the
 * minimum-balance filter.
 */
module PlayerRepository {
  import opened Wrappers
  import opened Seqs
  import opened PlayerEntity

  /** Ids are distinct and below the next id to hand out; names are distinct (the `unique` column). */
  ghost predicate TableOk(ps: seq<Player>, nextId: nat)
  {
    (forall i :: 0 <= i < |ps| ==> ps[i].id < nextId && IsInt(ps[i].coins))
    && (forall i, j :: 0 <= i < j < |ps| ==> ps[i].id != ps[j].id && ps[i].playerName != ps[j].playerName)
  }

  /** The row holding id `id` (`findById` / `existsById`). */
  function RowOf(ps: seq<Player>, id: int): (r: Option<nat>)
    ensures r.None? <==> forall i :: 0 <= i < |ps| ==> ps[i].id != id
    ensures r.Some? ==> r.value < |ps| && ps[r.value].id == id
  {
    if ps == [] then None
    else if ps[0].id == id then Some(0)
    else
      var t := RowOf(ps[1..], id);
      assert forall i :: 1 <= i < |ps| ==> ps[i] == ps[1..][i - 1];
      if t.Some? then Some(t.value + 1) else None
  }

  /** `findByPlayerName`: the first row with the given name. */
  function FindByPlayerName(ps: seq<Player>, name: string): Option<Player>
  {
    if ps == [] then None
    else if ps[0].playerName == name then Some(ps[0])
    else FindByPlayerName(ps[1..], name)
  }

  /** `existsByPlayerName`: some row has the given name. */
  predicate ExistsByPlayerName(ps: seq<Player>, name: string)
  {
    exists i :: 0 <= i < |ps| && ps[i].playerName == name
  }

  /** A name is taken exactly when the name lookup finds a player, and the player it finds has that name. */
  lemma {:induction false} ExistsIffFound(ps: seq<Player>, name: string)
    ensures ExistsByPlayerName(ps, name) <==> FindByPlayerName(ps, name).Some?
    ensures FindByPlayerName(ps, name).Some? ==>
              FindByPlayerName(ps, name).value in ps && FindByPlayerName(ps, name).value.playerName == name
  {
    if ps != [] && ps[0].playerName != name {
      ExistsIffFound(ps[1..], name);
      if ExistsByPlayerName(ps, name) {
        var i :| 0 <= i < |ps| && ps[i].playerName == name;
        assert ps[1..][i - 1] == ps[i];
      }
      if ExistsByPlayerName(ps[1..], name) {
        var i :| 0 <= i < |ps[1..]| && ps[1..][i].playerName == name;
        assert ps[i + 1] == ps[1..][i];
      }
    }
  }

  /** Names being unique, the name lookup finds the one player holding the name. */
  lemma {:induction false} NameLookupUnique(ps: seq<Player>, nextId: nat, i: nat)
    requires TableOk(ps, nextId) && i < |ps|
    ensures FindByPlayerName(ps, ps[i].playerName) == Some(ps[i])
  {
    if i > 0 {
      assert ps[0].playerName != ps[i].playerName;
      assert TableOk(ps[1..], nextId) by {
        forall a, b | 0 <= a < b < |ps[1..]|
          ensures ps[1..][a].id != ps[1..][b].id && ps[1..][a].playerName != ps[1..][b].playerName
        {
          assert ps[1..][a] == ps[a + 1] && ps[1..][b] == ps[b + 1];
        }
      }
      NameLookupUnique(ps[1..], nextId, i - 1);
      assert ps[1..][i - 1] == ps[i];
    }
  }

  /** The sort key of `ORDER BY coins DESC`: ascending in the negated balance. */
  function NegCoins(p: Player): int
  {
    -p.coins
  }

  /**
   * `findAllOrderByCoinsDesc`. SQL leaves the order of equal balances open; this model
   * keeps them in table order.
   */
  function FindAllOrderByCoinsDesc(ps: seq<Player>): seq<Player>
  {
    SortBy(ps, NegCoins)
  }

  /** The leaderboard lists every player exactly as often as the table does, richest first. */
  lemma LeaderboardSorted(ps: seq<Player>)
    ensures var r := FindAllOrderByCoinsDesc(ps);
            multiset(r) == multiset(ps)
            && forall i, j :: 0 <= i < j < |r| ==> r[i].coins >= r[j].coins
  {
    var r := FindAllOrderByCoinsDesc(ps);
    SortBySorted(ps, NegCoins);
    forall i, j | 0 <= i < j < |r| ensures r[i].coins >= r[j].coins {
      assert NegCoins(r[i]) <= NegCoins(r[j]);
    }
  }

  /** A table already listed richest first is its own leaderboard. */
  lemma LeaderboardOfSorted(ps: seq<Player>)
    requires forall i, j :: 0 <= i < j < |ps| ==> ps[i].coins >= ps[j].coins
    ensures FindAllOrderByCoinsDesc(ps) == ps
  {
    assert SortedBy(ps, NegCoins);
    SortBySortedIdentity(ps, NegCoins);
  }

  /** The `coins >= minCoins` test. */
  function HasAtLeast(minCoins: int): Player -> bool
  {
    (p: Player) => p.coins >= minCoins
  }

  /** `findPlayersWithMinCoins`: the rows with at least `minCoins` coins, in table order. */
  function FindPlayersWithMinCoins(ps: seq<Player>, minCoins: int): seq<Player>
  {
    Filter(ps, HasAtLeast(minCoins))
  }

  /** A player is listed exactly when it is in the table with at least `minCoins` coins, and listed as often as there. */
  lemma MinCoinsExact(ps: seq<Player>, minCoins: int, p: Player)
    ensures p in FindPlayersWithMinCoins(ps, minCoins) <==> p in ps && p.coins >= minCoins
    ensures multiset(FindPlayersWithMinCoins(ps, minCoins))[p] == if p.coins >= minCoins then multiset(ps)[p] else 0
  {
    FilterMultiset(ps, HasAtLeast(minCoins), p);
  }
}
