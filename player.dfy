/**
 * A registered player (`Player`): a generated id, a unique name and a coin balance held
 * in a Java `Integer`, and the response record `PlayerResponse.fromEntity` copies it into.
 */
module PlayerEntity {

  /** The range of a Java `int` / `Integer`. */
  const IntMin: int := -0x8000_0000
  const IntMax: int := 0x7fff_ffff

  predicate IsInt(x: int)
  {
    IntMin <= x <= IntMax
  }

  /**
   * Java `int` addition: the exact sum brought back into the 32-bit range by adding or
   * removing a multiple of 2^32 (two's-complement wrap-around).
   */
  function AddInt(a: int, b: int): (r: int)
    requires IsInt(a) && IsInt(b)
    ensures IsInt(r)
    ensures IsInt(a + b) ==> r == a + b
    ensures a + b > IntMax ==> r == a + b - 0x1_0000_0000
    ensures a + b < IntMin ==> r == a + b + 0x1_0000_0000
  {
    (a + b - IntMin) % 0x1_0000_0000 + IntMin
  }

  datatype Player = Player(id: nat, playerName: string, coins: int)

  datatype PlayerResponse = PlayerResponse(id: nat, playerName: string, coins: int)

  /** `PlayerResponse.fromEntity`: the player's fields as they are. */
  function FromEntity(p: Player): PlayerResponse
  {
    PlayerResponse(p.id, p.playerName, p.coins)
  }
}
