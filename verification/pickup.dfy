/** game/specials/Pickup.js: an item lying in the level. When the player comes
    within squared distance 1.2 its name is added to the inventory, the pickup
    marks itself dead and a message replaces the text overlay. */
module Pickups {
  import opened Base
  import opened Anim
  import opened Players

  datatype Pickup = Pickup(x: real, y: real, dead: bool, name: Value, sprite: Sprite)

  /** `new Pickup(x, y, name, sprite)`; a fresh pickup has no `dead` flag,
      which reads as false. */
  function NewPickup(x: real, y: real, name: Value, spriteName: Value): (p: Pickup)
    ensures p.x == x && p.y == y && p.name == name && !p.dead && p.sprite.Valid()
  {
    Pickup(x, y, false, name, LookupSprite(spriteName))
  }

  const PickupRange: real := 1.2

  /** Squared distance from the player to a point. */
  function SqDist(px: real, py: real, x: real, y: real): real
  {
    (px - x) * (px - x) + (py - y) * (py - y)
  }

  /** `Pickup.update`: the pickup, the player and the overlay after the tick. */
  function UpdatePickup(p: Pickup, dt: real, player: Player, overlay: Option<Overlay>)
    : (r: (Pickup, Player, Option<Overlay>))
  {
    var q := p.(sprite := UpdateSprite(p.sprite, dt));
    if SqDist(player.x, player.y, p.x, p.y) <= PickupRange then
      (q.(dead := true),
       player.(inventory := player.inventory + [p.name]),
       Some(Overlay(5.0, [PickedUp(p.name)])))
    else (q, player, overlay)
  }

  /** In range (boundary included): exactly one copy of the name is appended
      after the earlier items, the pickup is dead and the overlay says what
      was picked up for 5 seconds. Out of range: inventory, dead flag and
      overlay are unchanged. Either way the animation advances (the pickup's
      own dead flag is not consulted) and nothing else about the player
      changes. */
  lemma PickupMeaning(p: Pickup, dt: real, player: Player, overlay: Option<Overlay>)
    ensures var (q, pl, ov) := UpdatePickup(p, dt, player, overlay);
      var inRange := (player.x - p.x) * (player.x - p.x) + (player.y - p.y) * (player.y - p.y) <= 1.2;
      && q.sprite == UpdateSprite(p.sprite, dt)
      && q.x == p.x && q.y == p.y && q.name == p.name
      && pl == player.(inventory := pl.inventory)
      && (inRange ==>
            && |pl.inventory| == |player.inventory| + 1
            && pl.inventory[..|player.inventory|] == player.inventory
            && pl.inventory[|player.inventory|] == p.name
            && q.dead
            && ov == Some(Overlay(5.0, [PickedUp(p.name)])))
      && (!inRange ==> pl.inventory == player.inventory && q.dead == p.dead && ov == overlay)
  {
  }

  /** The number of copies of an item in an inventory. */
  function Count(inv: seq<Value>, item: Value): nat
  {
    if |inv| == 0 then 0 else (if inv[|inv| - 1] == item then 1 else 0) + Count(inv[..|inv| - 1], item)
  }

  /** A pickup in range adds exactly one copy of its item and leaves the
      count of every other item as it was. */
  lemma PickupAddsOneCopy(p: Pickup, dt: real, player: Player, overlay: Option<Overlay>, item: Value)
    requires SqDist(player.x, player.y, p.x, p.y) <= PickupRange
    ensures var pl := UpdatePickup(p, dt, player, overlay).1;
      Count(pl.inventory, item) == Count(player.inventory, item) + (if item == p.name then 1 else 0)
  {
    var pl := UpdatePickup(p, dt, player, overlay).1;
    assert pl.inventory[..|pl.inventory| - 1] == player.inventory;
  }
}
