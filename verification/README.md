# doomed — a Dafny model of the raycaster's simulation core

This project models the game logic of *doomed*, a small browser raycasting
shooter, and proves properties of it. Level images become grids of RGBA cells.
Marker cells in the grid are turned into *Specials*: the player's entry points,
zomboids, level transitions, sprites and pickups. Each tick, the `Game` updates
every entity in one forward pass and removes dead ones by swap-with-last-and-pop.
Rendering raycasts a depth buffer and orders the visible sprites back to front.

Modules, one per source file:

- `Base` (base.dfy): optional values, bytes, JSON values with JavaScript
  truthiness, and the text overlay.
- `Level` (level.dfy): `LevelData` from game/game.js. Covers the marker scan,
  `maybeAt`, `at`, `collides` and `raycast`.
- `Motion` (motion.dfy): game/util.js. Covers `normAngle`,
  `angleBetweenPositions` and `moveAndSlide`, plus the "walk toward the player"
  step the two enemy kinds share.
- `Anim` (anim.dfy): `SpritePlayer` and `StaticSprite` from
  game/SpriteSheet.js, and the sprite table from game/resources.js.
- `Projectiles`, `Players`, `Zomboids`, `Enemies`, `Pickups`, `Transitions`:
  one module per entity kind, each a pure step function.
- `Game` (game.dfy): the `Game` class. Covers level population, the update
  pass as an imperative loop with invariants, the end-of-tick bookkeeping, the
  depth buffer, and culling and sorting for drawing.

How the model is built:

- Positions, distances and timers are `real`.
- `Math.hypot`, `Math.sin`, `Math.cos`, `Math.atan2` and the draws of
  `Math.random()` come from an `Env` record of functions.
- JavaScript object identity becomes a `uid` on each entity.
- The player is both `game.player` and the first element of `game.entities`.
  Its state therefore lives in `World.player`, and the list holds a
  `PlayerBody` marker that refers to it.
- Calls to the `levelTransition` callback are logged in `World.requests`.

Behaviour taken from the code as written:

- Outside the grid, `at` returns opaque black. Every point that rounds to a
  cell outside the grid therefore collides.
- A marker cell whose id has no (truthy) entry in the specials table is not
  cleared, so it stays opaque and solid.
- The depth buffer stores the raw ray distance, not the perspective-corrected
  one that is used for wall heights and sprites.
- `normAngle` returns values in the closed range [-π, π]. Both ends are fixed
  points.
- A level transition fires whenever the player is within range. Its `requires`
  item is copied onto it but never consulted, and the inventory is never read.

## Model

| member | source | states |
|---|---|---|
| `Level.Index` | game/game.js:141 | The row-major index `width*y + x` of an in-bounds cell lies inside the cell sequence |
| `Level.MaybeAt` | game/game.js:136-143 | A cell comes back exactly when (x, y) is inside the grid, and it is the cell at `width*y + x` |
| `Level.At` | game/game.js:149-156 | Outside the grid the result is opaque black, which is solid; inside, it agrees with `MaybeAt` |
| `Level.Round` | game/game.js:163 | `floor(v + 0.5)` is the integer k with k - 0.5 <= v < k + 0.5 |
| `Level.CollidesIff` | game/game.js:162-164 | A point collides iff it rounds to a cell outside the grid or to a cell with alpha >= 0x80 |
| `Level.CollidesNearCell` | game/game.js:162-164 | Every point within half a cell of a cell's centre (lower edges included) collides iff that cell is solid |
| `Level.SpecialOf` | game/game.js:112-120 | A Special carries the cell's x and y. A string spec gives that type with empty params; an object spec gives `spec.type` with the whole object as params |
| `Level.Load` | game/game.js:91-129 | The scanned grid keeps the image's dimensions and stays well formed |
| `Level.ScanClears` | game/game.js:100-126 | After the scan, every known marker cell is transparent black and every other cell is unchanged |
| `Level.ScanSound` | game/game.js:100-122 | Every Special comes from a known marker cell at its own x, y and is built from that cell's spec |
| `Level.ScanOrdered` | game/game.js:100-101 | Specials are listed in strictly increasing row-major order |
| `Level.ScanComplete` | game/game.js:100-122 | Every known marker cell yields a Special |
| `Level.LoadMeaning` | game/game.js:91-129 | A cell becomes a Special iff it is a known marker; Specials are in row-major order; exactly the marker cells are cleared |
| `Level.UnknownMarkerStaysSolid` | game/game.js:105-110 | A marker cell whose id is unknown or falsy is left as it was, so it stays solid |
| `Level.NoKnownMarkerAfterLoad` | game/game.js:104-126 | No known marker survives the scan |
| `Level.Iterations` | game/game.js:184-187 | The loop `for (i = 0; i < max*50; ++i)` runs ceil(max*50) times, and none when max <= 0 |
| `Level.MarchSkipSound` | game/game.js:190-197 | Skipping a step that stays in the last tested, passable cell gives the same result as testing every step |
| `Level.MarchEveryMeaning` | game/game.js:187-215 | A hit is the first step at which the cell is opaque, with every earlier step in the grid and transparent; a miss means no such step |
| `Level.Raycast` | game/game.js:175-216 | A hit's distance `i/50` lies in [0, max) |
| `Level.RaycastMeaning` | game/game.js:180-215 | The ray hits iff some step k < max*50 lands on an opaque cell with all earlier steps in the grid and transparent. The hit then carries that cell's colour and distance k/50 |
| `Level.RaycastAdjacentWall` | game/game.js:187-212 | The first step is always tested: a wall there is hit at distance 0 |
| `Motion.WrapUp` | game/util.js:6-8 | The first loop ends at or above -π, changing nothing when already there |
| `Motion.WrapDown` | game/util.js:10-12 | The second loop ends at or below π, changing nothing when already there |
| `Motion.NormAngle` | game/util.js:5-15 | The result is in [-π, π]; inputs already in range are returned unchanged |
| `Motion.WrapUpShift` | game/util.js:6-8 | The first loop adds a whole number of turns of 2π |
| `Motion.WrapDownShift` | game/util.js:10-12 | The second loop subtracts a whole number of turns of 2π |
| `Motion.NormAngleWholeTurns` | game/util.js:6-12 | The normalised angle differs from the input by an integer multiple of 2π |
| `Motion.NormAngleIdempotent` | game/util.js:5-15 | Normalising twice is the same as normalising once |
| `Motion.AngleBetween` | game/util.js:23-31 | Coinciding positions give 0; otherwise the result is `atan2(dy, dx)` |
| `Motion.MoveAndSlide` | game/util.js:39-75 | Full axis-by-axis contract, listed below |
| `Motion.Chase` | game/specials/Zomboid.js:85-87 | A step of `step` along the unit vector toward the player, resolved by `moveAndSlide` |
| `Anim.NewSpritePlayer` | game/SpriteSheet.js:52-58 | A new player is at frame 0 with timer 0 and rate 1/fps, and keeps its sequence |
| `Anim.Advance` | game/SpriteSheet.js:63-72 | Once the accumulated time reaches the rate, the index moves to the next frame, or to 0 past the last, and the rate is paid out of the timer; below the rate only the timer grows; the in-bounds index invariant is kept |
| `Anim.CurrentTile` | game/SpriteSheet.js:80-82 | The drawn tile is an element of the sequence |
| `Anim.OneShotHalts` | game/specials/Zomboid.js:44-46 | Advancing only below the last frame never wraps: the index stays between its old value and the last frame |
| `Anim.UpdateSprite` | game/SpriteSheet.js:63-72 | A static sprite's update changes nothing; an animated one advances; validity is kept |
| `Anim.LookupSprite` | game/resources.js:12-35 | Exactly `blue-key` and `spectral-core` are animated; every other name gives a static sprite |
| `Projectiles.NewProjectile` | game/Projectile.js:10-19 | Spawned at origin + velocity/10, with the velocity and owner recorded; animation frames (i, type) for i = 0..3 |
| `Projectiles.FirstTarget` | game/Projectile.js:42-53 | The found index is the first qualifying entity; none found means none qualifies |
| `Projectiles.UpdateProjectile` | game/Projectile.js:35-54 | Moves by `moveAndSlide` and advances its animation. A wall hit kills it with no scan. Otherwise the first qualifying entity is the target. It dies iff it hit a wall or an entity |
| `Projectiles.HitIsFirstQualifying` | game/Projectile.js:42-52 | The entity hurt is not the owner, has `hurt`, is not dying and is nearer than 2; no earlier entity qualifies |
| `Projectiles.MissKeepsFlying` | game/Projectile.js:35-54 | With no wall and nothing in range it stays alive; only its position and animation change |
| `Players.NewPlayer` | game/specials/Player.js:2-13 | Position, velocity and angle 0; health 10; cooldown 0; empty inventory |
| `Players.HurtPlayer` | game/specials/Player.js:73-82 | Health drops by one; the hit that takes it to zero marks the player dead and resets health to 10; health stays in [1, 10] |
| `Players.Axis` | game/specials/Player.js:33-46 | Each move-intent component is in {-180, 0, 180}, and opposite keys cancel |
| `Players.Rotate` | game/specials/Player.js:26-31 | With no rotation key the angle is unchanged. Otherwise it is in [-π, π]: ArrowLeft alone gives `normAngle(angle - 3.5·dt)`, ArrowRight alone gives `normAngle(angle + 3.5·dt)`, and both apply left then right, each normalised |
| `Players.RotateTurns` | game/specials/Player.js:26-31 | Up to whole turns of 2π, ArrowLeft turns the facing by -3.5·dt, ArrowRight by +3.5·dt, and both together cancel |
| `Players.UpdatePlayerAngle` | game/specials/Player.js:26-31 | A tick's new angle is in [-π, π] after a rotation key, and is the old one turned by -3.5·dt (left), +3.5·dt (right) or 0 (both), up to whole turns. With no key it is unchanged. Health, inventory and the dead flag are untouched |
| `Players.VelocityFriction` | game/specials/Player.js:48-55 | With no move key, whatever the facing, each velocity component after integration and friction is the old one times (1 - 10·dt) |
| `Players.UpdatePlayerFriction` | game/specials/Player.js:48-55 | With no move key, each velocity component is scaled by (1 - 10·dt) |
| `Players.UpdatePlayerFiring` | game/specials/Player.js:57-65 | Enter with the cooldown run out fires one type-0 shot of speed 20 along the facing and re-arms 0.5; the cooldown drops by dt every tick |
| `Players.HealthStaysInRange` | game/specials/Player.js:73-82 | Health stays in [1, 10] however many hits are taken |
| `Zomboids.NewZomboid` | game/specials/Zomboid.js:6-25 | Idle at (x, y), health 3, timer 0, dist 1; 4 walk frames and 6 death frames |
| `Zomboids.DyingIsAbsorbing` | game/specials/Zomboid.js:42-53 | Dying stays dying. The timer drops by dt, `dead` is set at <= 0, nothing fires, no other field changes |
| `Zomboids.DeathAnimationHalts` | game/specials/Zomboid.js:42-46 | The death animation never wraps and halts on its last frame |
| `Zomboids.DistancePenalty` | game/specials/Zomboid.js:55-61 | The recorded distance is `dist` when the ray finds no wall, and 2.5·dist otherwise |
| `Zomboids.IdleTransitions` | game/specials/Zomboid.js:64-76 | From idle: invisible stays idle; visible < 20 starts shooting with timer in [0, 1); [20, 35) starts walking; farther stays idle |
| `Zomboids.WalkingTransitions` | game/specials/Zomboid.js:78-95 | From walking: invisible goes idle without moving; otherwise it moves 3·dt toward the player, then > 40 goes idle and < 20 starts shooting with timer in [0.5, 1.5) |
| `Zomboids.ShootingTransitions` | game/specials/Zomboid.js:97-117 | From shooting: invisible goes idle; > 30 starts walking; otherwise the timer drops by dt, and at <= 0 one type-3 shot of speed 16 is fired and the timer set into [2, 3) |
| `Zomboids.HurtZomboid` | game/specials/Zomboid.js:121-131 | Health drops by one; at <= 0 the state is dying, timer 5, `dying` set |
| `Zomboids.ThreeHitsKill` | game/specials/Zomboid.js:121-131 | Two hits leave a fresh zomboid idle; the third starts its death |
| `Zomboids.ApproachAndRetreat` | game/specials/Zomboid.js:63-106 | A visible player at 30, 15, 35, 45 drives idle → walking → shooting → walking → idle |
| `Enemies.NewEnemy` | game/Enemy.js:6-18 | Walking, not dying, timer 0, health 3; 4 walk frames, 5 death frames |
| `Enemies.DyingEnemy` | game/Enemy.js:41-50 | While dying: no shot, no move, the animation halts on its last frame, the timer drops by dt, `dead` is set at <= 0 |
| `Enemies.WalkingEnemy` | game/Enemy.js:56-66 | Walking: < 13 stops, resetting walk frame and timer; > 30 stops; otherwise moves 2·dt toward the player |
| `Enemies.StoppedEnemy` | game/Enemy.js:67-77 | Stopped: resumes iff 15 <= dist < 25; else fires one type-3 shot of speed 4 iff timer <= 0 and dist < 30, re-arming into [2, 3); else the timer drops by dt |
| `Enemies.HysteresisBand` | game/Enemy.js:56-68 | A stopped enemy stays stopped for 13 <= dist < 15 |
| `Enemies.NeverMovesAndFires` | game/Enemy.js:56-77 | No tick both moves and fires |
| `Enemies.HurtEnemy` | game/Enemy.js:80-86 | Health drops by one; at <= 0 it starts dying with timer 5 |
| `Pickups.NewPickup` | game/specials/Pickup.js:8-13 | Position and name kept, alive, with a valid sprite |
| `Pickups.PickupMeaning` | game/specials/Pickup.js:19-34 | Full contract, listed below |
| `Pickups.PickupAddsOneCopy` | game/specials/Pickup.js:22-26 | In range, the count of the picked item rises by one and every other item's count is unchanged |
| `Transitions.NewTransition` | game/specials/LevelTransition.js:8-14 | Keeps position, target and entry; `collidesWithPlayer` is false; no required item |
| `Transitions.TransitionMeaning` | game/specials/LevelTransition.js:20-29 | In range (sqDist <= 1.2): velocity zeroed and a transition to (to, entry) requested. Out of range nothing changes. The inventory and `requires` play no part |
| `Transitions.FiresEveryTick` | game/specials/LevelTransition.js:20-29 | No latch: a player still in range requests the same transition on the next tick |
| `Game.EntryKey` | game/game.js:299 | An entry is filed under `params.name` when that is truthy, and under `"default"` otherwise |
| `Game.EntryAngle` | game/game.js:297 | The stored angle is `params.angle` itself unless that is null or missing, which is stored as none |
| `Game.HandleSpecial` | game/game.js:291-328 | Dispatch by type, listed below |
| `Game.HandleAll` | game/game.js:273-275 | Handling the Specials in order appends exactly their spawned bodies, in order, with consecutive fresh identities. It lays the entries they record over the existing ones. Player and level are untouched |
| `Game.HandleSpecialSpawns` | game/game.js:291-328 | One Special appends exactly the bodies `Spawns` lists for its type, with consecutive fresh identities, and records its entry if it is one |
| `Game.SpawnsAllAppend` | game/game.js:273-275 | Handling Specials in two batches spawns the same bodies as handling them at once |
| `Game.EntryUpdatesMeaning` | game/game.js:293-300 | A name has a level entry iff some entry Special is filed under it; the entry is the spot of the last such Special |
| `Game.EntryRecordedIff` | game/game.js:293-300 | A name is recorded in the level entries iff some entry Special in the list is filed under it |
| `Game.EntryFromLast` | game/game.js:293-300 | When the entry Special at position j is the last one filed under a name, the recorded entry for that name is j's spot |
| `Game.HandleAllFresh` | game/game.js:270-275 | Every entity built from the level is a distinct object |
| `Game.EntryOverlayAsWritten` | game/game.js:80 | As written, a non-empty string entry text becomes one overlay line per character, and every element of an array, string or not, becomes a line |
| `Game.EntryTextSplitIntoCharacters` | game/game.js:80 | The entry text "Hi" is shown as the lines "H" and "i", not "Hi" |
| `Game.EntryOverlay` | game/game.js:73-79 | A string entry text, even an empty one, is the single line it is. An array keeps exactly its string elements (`StringsOf`). The overlay shows for 8 seconds and is absent iff there is no entry text |
| `Game.StringsOf` | game/game.js:78 | The filter keeps exactly the string elements (a string is kept iff it is an element), never grows the list, and keeps an all-string array as it is |
| `Game.EntryArrayKeepsNonStrings` | game/game.js:76-80 | For `["a", 1]`, the code as written shows the lines "a" and 1, and the intended filter shows only "a" |
| `Game.NewGame` | game/game.js:250-286 | The player comes first with uid 0 and starting state. It is followed by the bodies spawned by the level's Specials in order, with identities 1, 2, …. The level entries are exactly those the entry Specials record. The level and keys are kept, there are no requests, and identities are distinct |
| `Game.CorrectionScope` | game/game.js:73-80 | The as-written and intended overlays agree when there is no text or an array of strings only. They differ for an array holding a non-string and for every string of two or more characters |
| `Game.HurtAt` | game/Projectile.js:49 | Hurting one entity changes only that entity (or the player it stands for), keeping its identity and kind |
| `Game.StepPlayer` | game/specials/Player.js:19-70 | The player becomes what its update computes; a shot is appended as a projectile owned by the player with the next identity, and nothing else in the list changes |
| `Game.StepZomboid` | game/specials/Zomboid.js:55-59 | The zomboid is updated with `dist = hypot(dx, dy)` and, as its sight, the raycast from its position toward the player over exactly `dist`; it takes one random draw; a shot is appended as a projectile it owns; no other entity changes |
| `Game.StepEnemy` | game/Enemy.js:40-78 | The enemy is updated with `dist = hypot(dx, dy)` and one random draw; a shot is appended as a projectile it owns; no other entity changes |
| `Game.StepProjectile` | game/Projectile.js:35-54 | The projectile is updated in place. The entity its scan picks is never itself, has `hurt`, is not dying and is not the owner; exactly that entity is hurt (`HurtPlayer`, `HurtZomboid` or `HurtEnemy`) and all others are unchanged |
| `Game.StepPickup` | game/specials/Pickup.js:19-34 | The pickup, player and overlay are the pickup update's results; no other entity changes |
| `Game.StepTransition` | game/specials/LevelTransition.js:20-29 | The player is the transition update's result, its request (if any) is appended to the log, and the list is untouched |
| `Game.UpdateEntity` | game/game.js:454-456 | Each kind runs its own update (`StepPlayer`, `StepZomboid`, `StepEnemy`, `StepProjectile`, `StepPickup`, `StepTransition`), and a decorative sprite is left alone. The bookkeeping it keeps is listed below |
| `Game.Swapped` | game/game.js:445-450 | The list loses one element: slot i now holds the former last element, and every other remaining slot is unchanged |
| `Game.SwapRemoveUids` | game/game.js:445-450 | Swap-with-last-and-pop drops exactly the identity in slot i |
| `Game.VisitRemovesOnlyTheDead` | game/game.js:439-456 | Visit-slot contract, listed below |
| `Game.VisitLive` | game/game.js:454-456 | Updating a live entity keeps the loop's bookkeeping and lowers the work left |
| `Game.VisitPop` | game/game.js:441-443 | Popping a dead last entity logs it as removed and ends the pass |
| `Game.VisitSwap` | game/game.js:444-456 | Replacing a dead entity by the last one logs the dead one and lowers the work left |
| `Game.UpdatePass` | game/game.js:438-457 | Pass contract, listed below |
| `Game.AfterPass` | game/game.js:459-468 | A dead player gives exactly one `levelTransition(null)`. The overlay timer drops by dt and the overlay is cleared iff the timer is <= 0 |
| `Game.Update` | game/game.js:437-469 | A tick keeps the level and entries and only appends requests. A player dead at the end of the pass, whether dead before the tick or killed during it, ends the tick with `levelTransition(null)` |
| `Game.DepthBuffer` | game/game.js:355-360 | Each column is Infinity exactly on a miss, and the raw hit distance on a hit |
| `Game.DepthNeverNegative` | game/game.js:354-360 | Depths from the raycaster are in [0, max) |
| `Game.Cull` | game/game.js:384-407 | Survivors are exactly the entities with `draw` whose column is in [-20, 660), each with its projected column and distance |
| `Game.Insert` | game/game.js:409 | Insertion keeps farthest-first order and adds exactly the one item |
| `Game.SortFarFirst` | game/game.js:409 | The sort is a permutation into non-increasing distance |
| `Game.CullInListOrder` | game/game.js:384-405 | Culling keeps list order, strictly increasing in slot, so no entity is listed twice |
| `Game.InsertDistinct` | game/game.js:409 | Inserting an item whose slot is not yet listed keeps the slots distinct |
| `Game.SortDistinct` | game/game.js:409 | Sorting a list with distinct slots keeps them distinct |
| `Game.CullSortOnce` | game/game.js:384-412 | The sorted draw list names every slot at most once |
| `Game.CullSortOrder` | game/game.js:384-412 | For any projections, the draw list is a far-first permutation of the survivors, covering every visible entity |
| `Game.RenderOrder` | game/game.js:384-412 | `render` draws exactly the visible drawables, each once, farthest corrected distance first; the draw list is a permutation of the survivors of culling |

Contracts summarised as "listed below" in the table:

- `Motion.MoveAndSlide`:
  - The x axis probes `x+dx-0.2` when dx < 0.01 and `x+dx+0.2` when dx > 0.01.
  - On a collision, x snaps to `floor(x)+0.7` or `floor(x)+0.3`.
  - The y axis is resolved after x and probes at the new x. On a collision, y
    snaps to `floor(y)+0.7` or `floor(y)+0.4`.
  - An axis with no collision moves by its delta. A delta of exactly 0.01
    neither probes nor moves.
  - The result is true iff some probe collided.
- `Anim.Advance`: on an advance the timer ends at `timer+dt-rate`, otherwise at
  `timer+dt`.
- `Pickups.PickupMeaning`:
  - In range (sqDist <= 1.2): the name is appended once after the earlier
    items, the pickup is dead, and the overlay reads "Picked up" for 5 seconds.
  - Out of range: inventory, `dead` and overlay are unchanged.
  - The animation always advances.
- `Game.HandleSpecial`:
  - entry: stores (x, y, angle) under the key and touches nothing else.
  - level-transition: appends the transition, carrying `requires` when set,
    then a Sprite when `sprite` is set.
  - zomboid, sprite, pickup: each appends exactly one entity of its kind: a new
    zomboid at (x, y), a Sprite at (x, y) named by `params.sprite`, or a pickup
    at (x, y) with `params.name` and `params.sprite`.
  - Unknown type: changes nothing.
  - Earlier entities and the player are never changed.
- `Game.UpdateEntity`: one entity's update keeps:
  - the level, the entry map and the keys;
  - every listed entity's identity and kind;
  - the requests, which only grow;
  - a dead player dead.

  It appends at most one projectile, with a fresh identity, and only an entity
  that can fire does so.
- `Game.VisitRemovesOnlyTheDead`:
  - A visit removes the visited entity iff it is dead.
  - The pass stops iff that entity is dead and last.
  - Otherwise the former last entity takes the slot and is kept even if it is
    dead itself.
- `Game.UpdatePass`:
  - Only entities whose dead flag is set are removed.
  - The listed and removed identities together are the starting ones plus the
    projectiles allocated during the pass.
  - The loop runs to the end of the final list, so entities appended during the
    pass are visited.
  - The level, entries and keys are kept, and requests only grow.

## Findings

| source | as written | input that shows it | evidently intended | confidence | as-written member | corrected member |
|---|---|---|---|---|---|---|
| game/game.js:80 | After computing a normalised array of lines (lines 73-79), the constructor overwrites it with the raw `meta.entryText`. A string entry text then stays a string, and the overlay's `for ... of` walks it character by character. An array keeps its non-string elements | `meta.entryText = "Hi"` shows the overlay lines "H" and "i"; `["a", 1]` shows "a" and 1 | A string entry text becomes the single line `[entryText]`, and an array keeps only its string elements | high, not executed | `Game.EntryOverlayAsWritten` (with `Game.EntryTextSplitIntoCharacters` and `Game.EntryArrayKeepsNonStrings`) | `Game.EntryOverlay` (used by `Game.NewGame`) |

## Left out

- Canvas and DOM work are not modelled. The grid is taken as given rather than
  read from an image: canvas creation, `getImageData`, wall columns, the sky and
  ground fill, the HUD, overlay text drawing and `SpriteSheet.draw` scaling are
  all pixel output.
- `loadLevelFromURL`, script.js (the key listeners, the interval driver,
  `localStorage`) and game/Sound.js are not part of this model. Sound calls are
  dropped from every update.
- The level's sky and ground colours are not modelled; they only feed drawing.
- The Sprite entity's name-to-sheet switch in game/specials/Sprite.js is not
  modelled. A decorative sprite is an opaque name at a position, with no update.
- The specials table is a map from integer ids to specs. The `parseInt(key, 16)`
  decoding of the JSON keys is not modelled, and specs are strings or flat
  objects of scalars.
- Pixel data is a sequence of `Rgba` records, not a flat byte array. The model
  does not reproduce the aliasing of `subarray` views, which the scan uses
  only to clear a cell.
- Floating point is modelled as exact reals:
  - the raycast position is the closed form `start + (i+1)·step`, not a running
    sum;
  - `Math.floor` of a real is `.Floor`.
- `Math.hypot`, `Math.sin`, `Math.cos` and `Math.atan2` are uninterpreted
  functions in `Env`.
- `Math.random` is `Env.random` indexed by a draw counter. Every zomboid and
  enemy update consumes one index, whether or not it uses the draw.
- Level.Raycast: only a finite `max` is modelled. The render call with
  `max = Infinity` is represented by its per-column hits, which are the input
  of `Game.DepthBuffer`.
- Level.Raycast: requires a non-zero `len` unless the loop runs no step.
  `len = 0` with a positive `max` makes the source divide by zero, and NaN
  steps have no real counterpart.
- Motion.Chase: a player at distance exactly 0 leaves the walker in place. The
  source computes `0/0 = NaN` there, and NaN coordinates have no real
  counterpart. `Motion.Unit` likewise gives 0 for a zero distance.
- The `if (!e) return;` guard in `update` (game/game.js:446-448) is not
  modelled: it cannot fire, since the list is non-empty whenever it is reached.
- The `depthBuffer` field's initial `fill(0)` is not kept in the world. The
  depth buffer is modelled as the value `render` computes.
- The `levelTransition` callback is recorded, not executed. Loading the next
  level and placing the player at the entry point happen in script.js.
- Game.EntryOverlay: entry text that is neither absent, a string nor an array
  (a number, say) is not modelled; the code as written would hand it to the
  overlay's `for ... of`, which cannot iterate it.
- Game.NewGame: installs the corrected entry-text overlay (`Game.EntryOverlay`),
  not what game/game.js:80 produces. A string entry text is shown as one line,
  where the code as written walks it character by character (see Findings);
  the as-written behaviour is `Game.EntryOverlayAsWritten`.
- Game.UpdatePass: the contract states the bookkeeping of the pass, not the
  value of every entity after it. Each entity's own step is specified in its
  module, and the per-visit behaviour by `Game.VisitRemovesOnlyTheDead`.
