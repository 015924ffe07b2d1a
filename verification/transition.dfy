/** game/specials/LevelTransition.js: a trigger that asks for a level change
    whenever the player stands within squared distance 1.2 of it. */
module Transitions {
  import opened Base
  import opened Players
  import opened Pickups

  /** `required` holds the `requires` parameter recorded at level load, but never consulted. */
  datatype LevelTransition = LevelTransition(x: real, y: real, to: Value, entry: Value,
                                             required: Value, collidesWithPlayer: bool)

  /** A call of the game's `levelTransition(to, entry)` callback; `to` is
      `Null` for the restart after the player's death. */
  datatype Request = Request(to: Value, entry: Value)

  /** `new LevelTransition(x, y, to, entry)`. */
  function NewTransition(x: real, y: real, to: Value, entry: Value): (t: LevelTransition)
    ensures t.x == x && t.y == y && t.to == to && t.entry == entry
    ensures !t.collidesWithPlayer && t.required == Undefined
  {
    LevelTransition(x, y, to, entry, Undefined, false)
  }

  /** `LevelTransition.update`: the player and the request made, if any. */
  function UpdateTransition(t: LevelTransition, player: Player): (r: (Player, Option<Request>))
  {
    if SqDist(player.x, player.y, t.x, t.y) <= PickupRange then
      (player.(vx := 0.0, vy := 0.0), Some(Request(t.to, t.entry)))
    else (player, None)
  }

  /** In range the player's velocity is zeroed and a change to `to`/`entry` is
      requested; out of range nothing changes. The inventory is never read or
      changed, and the item named by `requires` plays no part. */
  lemma TransitionMeaning(t: LevelTransition, player: Player)
    ensures var (pl, req) := UpdateTransition(t, player);
      var inRange := (player.x - t.x) * (player.x - t.x) + (player.y - t.y) * (player.y - t.y) <= 1.2;
      && (inRange ==> pl == player.(vx := 0.0, vy := 0.0) && req == Some(Request(t.to, t.entry)))
      && (!inRange ==> pl == player && req.None?)
      && pl.inventory == player.inventory
      && forall item: Value :: UpdateTransition(t.(required := item), player) == (pl, req)
  {
  }

  /** There is no latch: a player still in range on the next tick requests the
      same transition again. */
  lemma FiresEveryTick(t: LevelTransition, player: Player)
    requires SqDist(player.x, player.y, t.x, t.y) <= PickupRange
    ensures var pl := UpdateTransition(t, player).0;
      && UpdateTransition(t, player).1 == Some(Request(t.to, t.entry))
      && UpdateTransition(t, pl).1 == Some(Request(t.to, t.entry))
  {
  }
}
