/** game/specials/Zomboid.js: the line-of-sight enemy. Its states are idle,
    walking, shooting and dying; distance and visibility are measured by the
    game each tick (`Math.hypot` and `raycast` toward the player) and passed in,
    as is the tick's `Math.random()` draw. */
module Zomboids {
  import opened Base
  import opened Level
  import opened Motion
  import opened Anim
  import opened Projectiles

  datatype ZState = Idle | Walking | Shooting | Dying

  /** `dist` is the (possibly penalised) distance used for sound volume;
      `dying` is the flag the projectile scan reads. */
  datatype Zomboid = Zomboid(x: real, y: real, dead: bool, dist: real, state: ZState,
                             timer: real, health: int, dying: bool,
                             walk: SpritePlayer, death: SpritePlayer)

  const ZomboidShotSpeed: real := 16.0
  const ZomboidWalkSpeed: real := 3.0
  const DeathTime: real := 5.0

  /** `new Zomboid(x, y)`. */
  function NewZomboid(x: real, y: real): (z: Zomboid)
    ensures z.x == x && z.y == y && !z.dead && !z.dying && z.state == Idle
    ensures z.health == 3 && z.timer == 0.0 && z.dist == 1.0
    ensures z.walk.Valid() && |z.walk.sequence| == 4
    ensures z.death.Valid() && |z.death.sequence| == 6 && z.death.index == 0
  {
    Zomboid(x, y, false, 1.0, Idle, 0.0, 3, false,
            NewSpritePlayer(4.0, [(0, 0), (0, 1), (0, 2), (0, 3)]),
            NewSpritePlayer(4.0, [(1, 0), (1, 1), (1, 2), (1, 3), (1, 4), (1, 5)]))
  }

  /** The player counts as visible when the ray toward it hits nothing. */
  predicate Visible(hit: Option<RayHit>)
  {
    hit.None?
  }

  /** The dying branch: the death animation advances only below its last
      frame, the countdown runs, and the flag `dead` is raised at zero. */
  function UpdateDying(z: Zomboid, dt: real): Zomboid
  {
    var death := if z.death.index < |z.death.sequence| - 1 then Advance(z.death, dt) else z.death;
    var timer := z.timer - dt;
    z.(death := death, timer := timer, dead := if timer <= 0.0 then true else z.dead)
  }

  /** `Zomboid.update`: the new zomboid and the shot it fires, if any. */
  function UpdateZomboid(g: Grid, z: Zomboid, dt: real, distX: real, distY: real, dist: real,
                         hit: Option<RayHit>, rnd: real): (r: (Zomboid, Option<Shot>))
    requires g.Valid()
  {
    if z.state == Dying then (UpdateDying(z, dt), None)
    else
      var visible := Visible(hit);
      var z1 := z.(dist := dist * (if visible then 1.0 else 2.5));
      match z.state
      case Idle =>
        if !visible then (z1, None)
        else if dist < 20.0 then (z1.(state := Shooting, timer := rnd), None)
        else if dist < 35.0 then (z1.(state := Walking), None)
        else (z1, None)
      case Walking =>
        if !visible then (z1.(state := Idle), None)
        else
          var s := Chase(g, z.x, z.y, distX, distY, dist, ZomboidWalkSpeed * dt);
          var z2 := z1.(walk := Advance(z.walk, dt), x := s.x, y := s.y);
          if dist > 40.0 then (z2.(state := Idle), None)
          else if dist < 20.0 then (z2.(state := Shooting, timer := rnd + 0.5), None)
          else (z2, None)
      case Shooting =>
        if !visible then (z1.(state := Idle), None)
        else if dist > 30.0 then (z1.(state := Walking), None)
        else
          var t := z.timer - dt;
          if t <= 0.0 then
            (z1.(timer := 2.0 + rnd),
             Some(Shot(z.x, z.y, Unit(distX, dist) * ZomboidShotSpeed, Unit(distY, dist) * ZomboidShotSpeed, 3)))
          else (z1.(timer := t), None)
  }

  /** Dying is absorbing: the timer drops by dt, `dead` is raised once it is
      at or below zero, nothing is fired, and no other field changes. */
  lemma DyingIsAbsorbing(g: Grid, z: Zomboid, dt: real, distX: real, distY: real, dist: real,
                         hit: Option<RayHit>, rnd: real)
    requires g.Valid() && z.state == Dying
    ensures var (q, shot) := UpdateZomboid(g, z, dt, distX, distY, dist, hit, rnd);
      && q.state == Dying && shot.None?
      && q.timer == z.timer - dt
      && (q.dead <==> z.dead || z.timer - dt <= 0.0)
      && q == z.(timer := q.timer, dead := q.dead, death := q.death)
  {
  }

  /** The death animation halts on its last frame and never wraps around. */
  lemma DeathAnimationHalts(g: Grid, z: Zomboid, dt: real, distX: real, distY: real, dist: real,
                            hit: Option<RayHit>, rnd: real)
    requires g.Valid() && z.state == Dying
    requires z.death.Valid() && |z.death.sequence| > 0
    ensures var q := UpdateZomboid(g, z, dt, distX, distY, dist, hit, rnd).0;
      && q.death.Valid()
      && z.death.index <= q.death.index <= |z.death.sequence| - 1
  {
    if z.death.index < |z.death.sequence| - 1 {
      OneShotHalts(z.death, dt);
    }
  }

  /** Outside dying, the recorded distance is the measured one when the
      player is visible and 2.5 times it when not. */
  lemma DistancePenalty(g: Grid, z: Zomboid, dt: real, distX: real, distY: real, dist: real,
                        hit: Option<RayHit>, rnd: real)
    requires g.Valid() && z.state != Dying
    ensures var q := UpdateZomboid(g, z, dt, distX, distY, dist, hit, rnd).0;
      q.dist == if hit.None? then dist else 2.5 * dist
  {
  }

  /** From idle: an invisible player changes nothing; a visible one closer than
      20 starts shooting with a timer in [0, 1), one in [20, 35) starts a walk,
      and a farther one leaves it idle. Idle never moves or fires. */
  lemma IdleTransitions(g: Grid, z: Zomboid, dt: real, distX: real, distY: real, dist: real,
                        hit: Option<RayHit>, rnd: real)
    requires g.Valid() && z.state == Idle && 0.0 <= rnd < 1.0
    ensures var (q, shot) := UpdateZomboid(g, z, dt, distX, distY, dist, hit, rnd);
      && shot.None? && q.x == z.x && q.y == z.y
      && (hit.Some? ==> q.state == Idle)
      && (hit.None? && dist < 20.0 ==> q.state == Shooting && 0.0 <= q.timer < 1.0)
      && (hit.None? && 20.0 <= dist < 35.0 ==> q.state == Walking)
      && (hit.None? && dist >= 35.0 ==> q.state == Idle)
  {
  }

  /** From walking: an invisible player sends it back to idle without moving;
      otherwise it moves 3*dt toward the player and then, judged on the
      distance measured before the move, goes idle beyond 40 or starts
      shooting below 20 with a timer in [0.5, 1.5). */
  lemma WalkingTransitions(g: Grid, z: Zomboid, dt: real, distX: real, distY: real, dist: real,
                           hit: Option<RayHit>, rnd: real)
    requires g.Valid() && z.state == Walking && 0.0 <= rnd < 1.0
    ensures var (q, shot) := UpdateZomboid(g, z, dt, distX, distY, dist, hit, rnd);
      && shot.None?
      && (hit.Some? ==> q.state == Idle && q.x == z.x && q.y == z.y)
      && (hit.None? ==>
            var s := Chase(g, z.x, z.y, distX, distY, dist, 3.0 * dt);
            && q.x == s.x && q.y == s.y
            && (dist > 40.0 ==> q.state == Idle)
            && (dist < 20.0 ==> q.state == Shooting && 0.5 <= q.timer < 1.5)
            && (20.0 <= dist <= 40.0 ==> q.state == Walking))
  {
  }

  /** From shooting: an invisible player gives idle, a distance over 30 gives
      walking; otherwise the timer runs down by dt and, on reaching zero,
      exactly one type-3 shot of speed 16 toward the player is fired from the
      zomboid's position and the timer is reset into [2, 3). */
  lemma ShootingTransitions(g: Grid, z: Zomboid, dt: real, distX: real, distY: real, dist: real,
                            hit: Option<RayHit>, rnd: real)
    requires g.Valid() && z.state == Shooting && 0.0 <= rnd < 1.0
    ensures var (q, shot) := UpdateZomboid(g, z, dt, distX, distY, dist, hit, rnd);
      && q.x == z.x && q.y == z.y
      && (hit.Some? ==> q.state == Idle && shot.None?)
      && (hit.None? && dist > 30.0 ==> q.state == Walking && shot.None?)
      && (hit.None? && dist <= 30.0 ==>
            && q.state == Shooting
            && (shot.Some? <==> z.timer - dt <= 0.0)
            && (shot.Some? ==>
                  && shot.value == Shot(z.x, z.y, Unit(distX, dist) * 16.0, Unit(distY, dist) * 16.0, 3)
                  && 2.0 <= q.timer < 3.0)
            && (shot.None? ==> q.timer == z.timer - dt))
  {
  }

  /** `Zomboid.hurt`: one hit point less; at zero it starts dying with a
      5-second countdown and the `dying` flag raised. */
  function HurtZomboid(z: Zomboid): (q: Zomboid)
    ensures q.health == z.health - 1
    ensures q.health <= 0 ==> q.state == Dying && q.timer == DeathTime && q.dying
    ensures q.health > 0 ==> q == z.(health := q.health)
    ensures q.x == z.x && q.y == z.y && q.dead == z.dead
  {
    var h := z.health - 1;
    if h <= 0 then z.(health := h, state := Dying, timer := DeathTime, dying := true)
    else z.(health := h)
  }

  /** Three hits kill a fresh zomboid: the third puts it in the dying state. */
  lemma ThreeHitsKill(x: real, y: real)
    ensures HurtZomboid(HurtZomboid(NewZomboid(x, y))).state == Idle
    ensures HurtZomboid(HurtZomboid(HurtZomboid(NewZomboid(x, y)))).state == Dying
  {
  }

  /** An idle zomboid that sees the player first at distance 30 and then at 15
      goes idle -> walking -> shooting; the player retreating to 35 and then
      45 (still visible) brings it back through walking to idle. */
  lemma ApproachAndRetreat(g: Grid, z: Zomboid, dt: real, rnd: real)
    requires g.Valid() && z.state == Idle && 0.0 <= rnd < 1.0
    ensures var z1 := UpdateZomboid(g, z, dt, 30.0, 0.0, 30.0, None, rnd).0;
      && z1.state == Walking
      && var z2 := UpdateZomboid(g, z1, dt, 15.0, 0.0, 15.0, None, rnd).0;
      && z2.state == Shooting
      && var z3 := UpdateZomboid(g, z2, dt, 35.0, 0.0, 35.0, None, rnd).0;
      && z3.state == Walking
      && UpdateZomboid(g, z3, dt, 45.0, 0.0, 45.0, None, rnd).0.state == Idle
  {
  }
}
