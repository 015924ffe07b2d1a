/** game/specials/Player.js: the player's movement, rotation, firing cooldown
    and health. Held keys arrive as a set of key codes; `Math.sin` and
    `Math.cos` are supplied by the caller. */
module Players {
  import opened Base
  import opened Level
  import opened Motion
  import opened Projectiles

  const MoveSpeed: real := 180.0
  const Friction: real := 10.0
  const RotateSpeed: real := 3.5
  const MaxHealth: int := 10
  const ShootCooldown: real := 0.5
  const PlayerShotSpeed: real := 20.0

  datatype Player = Player(x: real, y: real, vx: real, vy: real, dead: bool, angle: real,
                           health: int, shootTimeout: real, inventory: seq<Value>)

  /** `new Player()`. */
  function NewPlayer(): (p: Player)
    ensures p.x == 0.0 && p.y == 0.0 && p.vx == 0.0 && p.vy == 0.0 && p.angle == 0.0
    ensures !p.dead && p.health == MaxHealth && p.shootTimeout == 0.0 && p.inventory == []
  {
    Player(0.0, 0.0, 0.0, 0.0, false, 0.0, MaxHealth, 0.0, [])
  }

  /** `Player.hurt`: one hit point less; at zero the player is dead and back
      at full health. */
  function HurtPlayer(p: Player): (q: Player)
    ensures 1 <= p.health <= MaxHealth ==> 1 <= q.health <= MaxHealth
    ensures q.dead <==> p.dead || p.health <= 1
    ensures p.health > 1 ==> q.health == p.health - 1
    ensures p.health <= 1 ==> q.health == MaxHealth
    ensures q == p.(health := q.health, dead := q.dead)
  {
    var h := p.health - 1;
    if h <= 0 then p.(health := MaxHealth, dead := true) else p.(health := h)
  }

  /** One key's contribution to a movement axis. */
  function Axis(keys: set<string>, negative: string, positive: string): (m: real)
    ensures m == -MoveSpeed || m == 0.0 || m == MoveSpeed
    ensures m == 0.0 <==> (negative in keys <==> positive in keys)
    ensures m == MoveSpeed <==> positive in keys && negative !in keys
  {
    (if negative in keys then -MoveSpeed else 0.0) + (if positive in keys then MoveSpeed else 0.0)
  }

  /** The angle after the rotation keys: left first, then right, each
      re-normalised. */
  function Rotate(angle: real, keys: set<string>, dt: real): (a: real)
    ensures ("ArrowLeft" in keys || "ArrowRight" in keys) ==> -Pi <= a <= Pi
    ensures ("ArrowLeft" !in keys && "ArrowRight" !in keys) ==> a == angle
    ensures ("ArrowLeft" in keys && "ArrowRight" !in keys) ==> a == NormAngle(angle - RotateSpeed * dt)
    ensures ("ArrowRight" in keys && "ArrowLeft" !in keys) ==> a == NormAngle(angle + RotateSpeed * dt)
    ensures ("ArrowLeft" in keys && "ArrowRight" in keys) ==>
      a == NormAngle(NormAngle(angle - RotateSpeed * dt) + RotateSpeed * dt)
  {
    var a1 := if "ArrowLeft" in keys then NormAngle(angle - RotateSpeed * dt) else angle;
    if "ArrowRight" in keys then NormAngle(a1 + RotateSpeed * dt) else a1
  }

  /** n whole turns, as an angle. */
  function Turn(n: int): real
  {
    n as real * TwoPi
  }

  /** Up to whole turns, the left key turns the facing by -3.5*dt, the right
      key by +3.5*dt, and both together cancel out. */
  lemma RotateTurns(angle: real, keys: set<string>, dt: real)
    ensures var a := Rotate(angle, keys, dt);
      && (("ArrowLeft" in keys && "ArrowRight" !in keys) ==>
            exists n: int :: a == angle - RotateSpeed * dt + Turn(n))
      && (("ArrowRight" in keys && "ArrowLeft" !in keys) ==>
            exists n: int :: a == angle + RotateSpeed * dt + Turn(n))
      && (("ArrowLeft" in keys && "ArrowRight" in keys) ==>
            exists n: int :: a == angle + Turn(n))
  {
    var l := angle - RotateSpeed * dt;
    var r := angle + RotateSpeed * dt;
    var a := Rotate(angle, keys, dt);
    if "ArrowLeft" in keys && "ArrowRight" !in keys {
      var nl := NormTurns(l);
      assert a == l + Turn(nl);
    }
    if "ArrowRight" in keys && "ArrowLeft" !in keys {
      var nr := NormTurns(r);
      assert a == r + Turn(nr);
    }
    if "ArrowLeft" in keys && "ArrowRight" in keys {
      var nl := NormTurns(l);
      var b := NormAngle(l) + RotateSpeed * dt;
      var nb := NormTurns(b);
      assert a == b + Turn(nb);
      assert b == angle + Turn(nl);
      TurnAdd(nl, nb);
      assert a == angle + Turn(nl + nb);
    }
  }

  /** The number of whole turns `normAngle` adds to `x`. */
  lemma NormTurns(x: real) returns (n: int)
    ensures NormAngle(x) == x + Turn(n)
  {
    NormAngleWholeTurns(x);
    n := TurnsUp(x) - TurnsDown(WrapUp(x));
  }

  lemma TurnAdd(m: int, n: int)
    ensures Turn(m) + Turn(n) == Turn(m + n)
  {
  }

  /** Velocity after integrating the move intent and applying friction. */
  function Damp(v: real, dv: real, dt: real): real
  {
    var v1 := v + dv * dt;
    v1 + -v1 * Friction * dt
  }

  /** The velocity after a tick: the move intent turned by the facing angle
      `a`, integrated over dt, then damped by friction. */
  function Velocity(p: Player, keys: set<string>, dt: real, a: real,
                    sin: real -> real, cos: real -> real): (v: (real, real))
  {
    var mx := Axis(keys, "KeyA", "KeyD");
    var my := Axis(keys, "KeyW", "KeyS");
    (Damp(p.vx, mx * cos(a) - my * sin(a), dt), Damp(p.vy, mx * sin(a) + my * cos(a), dt))
  }

  /** With no move key held, each velocity component decays by the factor
      (1 - 10*dt), whatever the facing. */
  lemma VelocityFriction(p: Player, keys: set<string>, dt: real, a: real,
                         sin: real -> real, cos: real -> real)
    requires "KeyA" !in keys && "KeyD" !in keys && "KeyW" !in keys && "KeyS" !in keys
    ensures Velocity(p, keys, dt, a, sin, cos) == (p.vx * (1.0 - Friction * dt), p.vy * (1.0 - Friction * dt))
  {
    assert Axis(keys, "KeyA", "KeyD") == 0.0;
    assert Axis(keys, "KeyW", "KeyS") == 0.0;
    assert 0.0 * cos(a) - 0.0 * sin(a) == 0.0;
    assert 0.0 * sin(a) + 0.0 * cos(a) == 0.0;
    var v := Velocity(p, keys, dt, a, sin, cos);
    assert v.0 == Damp(p.vx, 0.0, dt) && v.1 == Damp(p.vy, 0.0, dt);
    DampAtRest(p.vx, dt);
    DampAtRest(p.vy, dt);
    assert v.0 == p.vx * (1.0 - Friction * dt) && v.1 == p.vy * (1.0 - Friction * dt);
  }

  lemma DampAtRest(v: real, dt: real)
    ensures Damp(v, 0.0, dt) == v * (1.0 - Friction * dt)
  {
    assert v + 0.0 * dt == v;
    assert v + -v * Friction * dt == v * (1.0 - Friction * dt);
  }

  /** `Player.update`: rotation, move intent turned by the facing angle,
      friction, the fire check, the cooldown, then `moveAndSlide`. */
  function UpdatePlayer(g: Grid, p: Player, keys: set<string>, dt: real,
                        sin: real -> real, cos: real -> real): (r: (Player, Option<Shot>))
    requires g.Valid()
  {
    var a := Rotate(p.angle, keys, dt);
    var (vx, vy) := Velocity(p, keys, dt, a, sin, cos);
    var fire := "Enter" in keys && p.shootTimeout <= 0.0;
    var shot := if fire then Some(Shot(p.x, p.y, sin(a) * PlayerShotSpeed, -cos(a) * PlayerShotSpeed, 0))
                else None;
    var timeout := (if fire then ShootCooldown else p.shootTimeout) - dt;
    var s := MoveAndSlide(g, p.x, p.y, vx * dt, vy * dt);
    (p.(angle := a, vx := vx, vy := vy, shootTimeout := timeout, x := s.x, y := s.y), shot)
  }

  /** The angle is re-normalised into [-pi, pi] after a rotation key and left
      alone when neither is held; up to whole turns it moves by -3.5*dt for the
      left key, +3.5*dt for the right key and not at all for both; health,
      inventory and the dead flag are untouched by a tick. */
  lemma UpdatePlayerAngle(g: Grid, p: Player, keys: set<string>, dt: real,
                          sin: real -> real, cos: real -> real)
    requires g.Valid()
    ensures var q := UpdatePlayer(g, p, keys, dt, sin, cos).0;
      && (("ArrowLeft" in keys || "ArrowRight" in keys) ==> -Pi <= q.angle <= Pi)
      && (("ArrowLeft" !in keys && "ArrowRight" !in keys) ==> q.angle == p.angle)
      && (("ArrowLeft" in keys && "ArrowRight" !in keys) ==>
            exists n: int :: q.angle == p.angle - RotateSpeed * dt + Turn(n))
      && (("ArrowRight" in keys && "ArrowLeft" !in keys) ==>
            exists n: int :: q.angle == p.angle + RotateSpeed * dt + Turn(n))
      && (("ArrowLeft" in keys && "ArrowRight" in keys) ==>
            exists n: int :: q.angle == p.angle + Turn(n))
      && q.health == p.health && q.inventory == p.inventory && q.dead == p.dead
  {
    RotateTurns(p.angle, keys, dt);
  }

  /** With no move key held each velocity component decays by the factor
      (1 - 10*dt). */
  lemma UpdatePlayerFriction(g: Grid, p: Player, keys: set<string>, dt: real,
                             sin: real -> real, cos: real -> real)
    requires g.Valid()
    requires "KeyA" !in keys && "KeyD" !in keys && "KeyW" !in keys && "KeyS" !in keys
    ensures var q := UpdatePlayer(g, p, keys, dt, sin, cos).0;
      q.vx == p.vx * (1.0 - Friction * dt) && q.vy == p.vy * (1.0 - Friction * dt)
  {
    VelocityFriction(p, keys, dt, Rotate(p.angle, keys, dt), sin, cos);
  }

  /** Enter fires exactly one type-0 shot of speed 20 along the facing when the
      cooldown has run out, re-arming the cooldown to 0.5; the cooldown drops
      by dt on every tick. */
  lemma UpdatePlayerFiring(g: Grid, p: Player, keys: set<string>, dt: real,
                           sin: real -> real, cos: real -> real)
    requires g.Valid()
    ensures var (q, shot) := UpdatePlayer(g, p, keys, dt, sin, cos);
      && (shot.Some? <==> "Enter" in keys && p.shootTimeout <= 0.0)
      && (shot.Some? ==>
            && shot.value == Shot(p.x, p.y, sin(q.angle) * 20.0, -cos(q.angle) * 20.0, 0)
            && q.shootTimeout == ShootCooldown - dt)
      && (shot.None? ==> q.shootTimeout == p.shootTimeout - dt)
  {
  }

  /** Health stays within [1, 10] however many hits the player takes. */
  lemma {:induction false} HealthStaysInRange(p: Player, hits: nat)
    requires 1 <= p.health <= MaxHealth
    ensures 1 <= HurtTimes(p, hits).health <= MaxHealth
    decreases hits
  {
    if hits > 0 {
      HealthStaysInRange(HurtPlayer(p), hits - 1);
    }
  }

  /** The player after `hurt` is called n times. */
  function HurtTimes(p: Player, n: nat): Player
    decreases n
  {
    if n == 0 then p else HurtTimes(HurtPlayer(p), n - 1)
  }
}
