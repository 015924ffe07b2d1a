/** game/Enemy.js: the chaser. It walks toward the player or stands and fires,
    switching on distance alone with a hysteresis band, and dies after a
    countdown. Distance and the tick's `Math.random()` draw are passed in. */
module Enemies {
  import opened Base
  import opened Level
  import opened Motion
  import opened Anim
  import opened Projectiles

  datatype Enemy = Enemy(x: real, y: real, dead: bool, dying: bool,
                         walk: SpritePlayer, death: SpritePlayer,
                         walking: bool, timer: real, health: int)

  const EnemyShotSpeed: real := 4.0
  const EnemyWalkSpeed: real := 2.0

  /** `new Enemy(x, y)`. */
  function NewEnemy(x: real, y: real): (e: Enemy)
    ensures e.x == x && e.y == y && !e.dead && !e.dying
    ensures e.walking && e.timer == 0.0 && e.health == 3
    ensures e.walk.Valid() && |e.walk.sequence| == 4
    ensures e.death.Valid() && |e.death.sequence| == 5 && e.death.index == 0
  {
    Enemy(x, y, false, false,
          NewSpritePlayer(4.0, [(0, 0), (0, 1), (0, 2), (0, 3)]),
          NewSpritePlayer(5.0, [(1, 0), (1, 1), (1, 2), (1, 3), (1, 4)]),
          true, 0.0, 3)
  }

  /** `Enemy.update`: the new enemy and the shot it fires, if any. */
  function UpdateEnemy(g: Grid, e: Enemy, dt: real, distX: real, distY: real, dist: real,
                       rnd: real): (r: (Enemy, Option<Shot>))
    requires g.Valid()
  {
    if e.dying then
      var death := if e.death.index < |e.death.sequence| - 1 then Advance(e.death, dt) else e.death;
      var timer := e.timer - dt;
      (e.(death := death, timer := timer, dead := if timer <= 0.0 then true else e.dead), None)
    else if e.walking && dist < 13.0 then
      (e.(walking := false, walk := e.walk.(index := 0), timer := 0.0), None)
    else if e.walking && dist > 30.0 then
      (e.(walking := false), None)
    else if e.walking then
      var s := Chase(g, e.x, e.y, distX, distY, dist, EnemyWalkSpeed * dt);
      (e.(walk := Advance(e.walk, dt), x := s.x, y := s.y), None)
    else if dist >= 15.0 && dist < 25.0 then
      (e.(walking := true), None)
    else if e.timer <= 0.0 && dist < 30.0 then
      (e.(timer := 2.0 + rnd),
       Some(Shot(e.x, e.y, Unit(distX, dist) * EnemyShotSpeed, Unit(distY, dist) * EnemyShotSpeed, 3)))
    else
      (e.(timer := e.timer - dt), None)
  }

  /** While dying: nothing is fired, the enemy stays put, the death animation
      halts on its last frame, the timer drops by dt and `dead` is raised once
      it is at or below zero. */
  lemma DyingEnemy(g: Grid, e: Enemy, dt: real, distX: real, distY: real, dist: real, rnd: real)
    requires g.Valid() && e.dying && e.death.Valid() && |e.death.sequence| > 0
    ensures var (q, shot) := UpdateEnemy(g, e, dt, distX, distY, dist, rnd);
      && shot.None? && q.dying && q.x == e.x && q.y == e.y
      && q.timer == e.timer - dt
      && (q.dead <==> e.dead || e.timer - dt <= 0.0)
      && q.death.Valid() && e.death.index <= q.death.index <= |e.death.sequence| - 1
  {
    if e.death.index < |e.death.sequence| - 1 {
      OneShotHalts(e.death, dt);
    }
  }

  /** A walking enemy stops closer than 13 (walk frame and timer reset to 0),
      stops beyond 30, and otherwise moves 2*dt toward the player. */
  lemma WalkingEnemy(g: Grid, e: Enemy, dt: real, distX: real, distY: real, dist: real, rnd: real)
    requires g.Valid() && !e.dying && e.walking
    ensures var (q, shot) := UpdateEnemy(g, e, dt, distX, distY, dist, rnd);
      && shot.None?
      && (dist < 13.0 ==> !q.walking && q.walk.index == 0 && q.timer == 0.0 && q.x == e.x && q.y == e.y)
      && (dist > 30.0 ==> !q.walking && q.x == e.x && q.y == e.y)
      && (13.0 <= dist <= 30.0 ==>
            var s := Chase(g, e.x, e.y, distX, distY, dist, 2.0 * dt);
            q.walking && q.x == s.x && q.y == s.y)
  {
  }

  /** A stopped enemy resumes walking only for 15 <= dist < 25. Otherwise it
      fires exactly one type-3 shot of speed 4 when its timer has run out and
      the player is closer than 30, re-arming the timer into [2, 3); else the
      timer drops by dt. A stopped enemy never moves. */
  lemma StoppedEnemy(g: Grid, e: Enemy, dt: real, distX: real, distY: real, dist: real, rnd: real)
    requires g.Valid() && !e.dying && !e.walking && 0.0 <= rnd < 1.0
    ensures var (q, shot) := UpdateEnemy(g, e, dt, distX, distY, dist, rnd);
      && q.x == e.x && q.y == e.y
      && (q.walking <==> 15.0 <= dist < 25.0)
      && (shot.Some? <==> !(15.0 <= dist < 25.0) && e.timer <= 0.0 && dist < 30.0)
      && (shot.Some? ==>
            && shot.value == Shot(e.x, e.y, Unit(distX, dist) * 4.0, Unit(distY, dist) * 4.0, 3)
            && 2.0 <= q.timer < 3.0)
      && (!q.walking && shot.None? ==> q.timer == e.timer - dt)
  {
  }

  /** The hysteresis band: an enemy that stopped because the player came
      closer than 13 stays stopped at every distance in [13, 15). */
  lemma HysteresisBand(g: Grid, e: Enemy, dt: real, distX: real, distY: real, dist: real, rnd: real)
    requires g.Valid() && !e.dying && !e.walking && 13.0 <= dist < 15.0
    ensures !UpdateEnemy(g, e, dt, distX, distY, dist, rnd).0.walking
  {
  }

  /** No tick both moves and fires. */
  lemma NeverMovesAndFires(g: Grid, e: Enemy, dt: real, distX: real, distY: real, dist: real, rnd: real)
    requires g.Valid()
    ensures var (q, shot) := UpdateEnemy(g, e, dt, distX, distY, dist, rnd);
      shot.Some? ==> q.x == e.x && q.y == e.y
  {
  }

  /** `Enemy.hurt`: one hit point less; at zero it starts dying with a
      5-second countdown. */
  function HurtEnemy(e: Enemy): (q: Enemy)
    ensures q.health == e.health - 1
    ensures q.health <= 0 ==> q.dying && q.timer == 5.0
    ensures q.health > 0 ==> q == e.(health := q.health)
    ensures q.x == e.x && q.y == e.y && q.dead == e.dead && q.walking == e.walking
  {
    var h := e.health - 1;
    if h <= 0 then e.(health := h, dying := true, timer := 5.0) else e.(health := h)
  }
}
