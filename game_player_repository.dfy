/**
 * The membership queries of one game, over its membership list. Rows are identified
 * by their index, so each query returns membership ids.
 */
module GamePlayerRepository {
  import opened Wrappers
  import opened Seqs
  import opened CardEntity
  import opened GamePlayerEntity

  /** The sort key `playerOrder` of the membership with id `j`. */
  function OrderKey(gps: seq<GamePlayer>): nat -> int
  {
    (j: nat) => if j < |gps| then gps[j].playerOrder else 0
  }

  function IsActive(gp: GamePlayer): bool { gp.isActive }

  function IsPlayer(player: PlayerId): GamePlayer -> bool
  {
    (gp: GamePlayer) => gp.player == player
  }

  /** No player holds two memberships of the same game. */
  ghost predicate DistinctPlayers(gps: seq<GamePlayer>)
  {
    forall i, j :: 0 <= i < j < |gps| ==> gps[i].player != gps[j].player
  }

  /** Sorting membership ids by `playerOrder` keeps the ids and orders them. */
  lemma SortedByOrder(gps: seq<GamePlayer>, ids: seq<nat>)
    requires forall i :: 0 <= i < |ids| ==> ids[i] < |gps|
    ensures multiset(SortBy(ids, OrderKey(gps))) == multiset(ids)
    ensures forall i :: 0 <= i < |SortBy(ids, OrderKey(gps))| ==> SortBy(ids, OrderKey(gps))[i] in ids
    ensures forall i, j :: 0 <= i < j < |SortBy(ids, OrderKey(gps))| ==>
              gps[SortBy(ids, OrderKey(gps))[i]].playerOrder <= gps[SortBy(ids, OrderKey(gps))[j]].playerOrder
  {
    var r := SortBy(ids, OrderKey(gps));
    SortBySorted(ids, OrderKey(gps));
    forall i, j | 0 <= i < j < |r| ensures gps[r[i]].playerOrder <= gps[r[j]].playerOrder {
      assert OrderKey(gps)(r[i]) <= OrderKey(gps)(r[j]);
    }
  }

  /** `findByGameIdOrderByPlayerOrder`: every membership once, ascending by playerOrder. */
  function FindAllByOrder(gps: seq<GamePlayer>): (r: seq<nat>)
    ensures multiset(r) == multiset(Range(|gps|))
    ensures forall i :: 0 <= i < |r| ==> r[i] < |gps|
    ensures forall i, j :: 0 <= i < j < |r| ==> gps[r[i]].playerOrder <= gps[r[j]].playerOrder
  {
    SortedByOrder(gps, Range(|gps|));
    SortBy(Range(|gps|), OrderKey(gps))
  }

  /** `findActivePlayersByGame`: the active memberships, each once, ascending by playerOrder. */
  function FindActivePlayers(gps: seq<GamePlayer>): (r: seq<nat>)
    ensures multiset(r) == multiset(Where(gps, IsActive))
    ensures forall i :: 0 <= i < |r| ==> r[i] < |gps| && gps[r[i]].isActive
    ensures forall j :: 0 <= j < |gps| && gps[j].isActive ==> j in r
    ensures forall i, j :: 0 <= i < j < |r| ==> gps[r[i]].playerOrder <= gps[r[j]].playerOrder
    ensures NoDup(r)
  {
    var active := Where(gps, IsActive);
    SortedByOrder(gps, active);
    var r := SortBy(active, OrderKey(gps));
    ActiveIds(gps, r);
    r
  }

  /** A reordering of the active ids holds each active membership once, and nothing else. */
  lemma ActiveIds(gps: seq<GamePlayer>, r: seq<nat>)
    requires multiset(r) == multiset(Where(gps, IsActive))
    ensures forall i :: 0 <= i < |r| ==> r[i] < |gps| && gps[r[i]].isActive
    ensures forall j :: 0 <= j < |gps| && gps[j].isActive ==> j in r
    ensures NoDup(r)
  {
    var active := Where(gps, IsActive);
    WhereNoDup(gps, IsActive);
    MultisetNoDup(active, r);
    forall i | 0 <= i < |r| ensures r[i] < |gps| && gps[r[i]].isActive {
      assert r[i] in multiset(active);
    }
    forall j | 0 <= j < |gps| && gps[j].isActive ensures j in r {
      assert j in multiset(active);
    }
  }

  /** `countActivePlayersByGame`: the number of active memberships, the length of the list above. */
  function CountActivePlayers(gps: seq<GamePlayer>): (r: nat)
    ensures r == |FindActivePlayers(gps)|
  {
    WhereCount(gps, IsActive);
    |Filter(gps, IsActive)|
  }

  /** `findByGameIdAndPlayerId`: the player's membership, if any; the only one when players are distinct. */
  function FindByPlayer(gps: seq<GamePlayer>, player: PlayerId): (r: Option<nat>)
    ensures r.None? <==> forall j :: 0 <= j < |gps| ==> gps[j].player != player
    ensures r.Some? ==> r.value < |gps| && gps[r.value].player == player
    ensures r.Some? && DistinctPlayers(gps) ==> forall j :: 0 <= j < |gps| && gps[j].player == player ==> j == r.value
  {
    FirstWhere(gps, IsPlayer(player))
  }

  /** `existsByGameIdAndPlayerId`: the player has a membership, active or not. */
  function ExistsByPlayer(gps: seq<GamePlayer>, player: PlayerId): (r: bool)
    ensures r <==> FindByPlayer(gps, player).Some?
    ensures r <==> exists j :: 0 <= j < |gps| && gps[j].player == player
  {
    exists j :: 0 <= j < |gps| && gps[j].player == player
  }
}
