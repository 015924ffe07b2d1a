/** The helpers of game/util.js: angle normalisation, the angle between two
    positions, and axis-separated slide collision against the level grid. */
module Motion {
  import opened Base
  import opened Level

  // ---------------------------------------------------------------------
  // normAngle
  // ---------------------------------------------------------------------

  const TwoPi: real := 2.0 * Pi

  /** The first loop of `normAngle`: add 2*pi while below -pi. */
  function WrapUp(a: real): (r: real)
    ensures -Pi <= r
    ensures a >= -Pi ==> r == a
    ensures a < -Pi ==> r < Pi
    decreases if a < -Pi then (-a).Floor else 0
  {
    if a < -Pi then WrapUp(a + TwoPi) else a
  }

  /** The second loop of `normAngle`: subtract 2*pi while above pi. */
  function WrapDown(a: real): (r: real)
    ensures r <= Pi
    ensures a <= Pi ==> r == a
    ensures a > Pi ==> -Pi < r
    decreases if a > Pi then a.Floor else 0
  {
    if a > Pi then WrapDown(a - TwoPi) else a
  }

  /** `normAngle`: the angle brought into [-pi, pi]. */
  function NormAngle(a: real): (r: real)
    ensures -Pi <= r <= Pi
    ensures -Pi <= a <= Pi ==> r == a
  {
    WrapDown(WrapUp(a))
  }

  /** How many times the first loop adds 2*pi. */
  function TurnsUp(a: real): nat
    decreases if a < -Pi then (-a).Floor else 0
  {
    if a < -Pi then 1 + TurnsUp(a + TwoPi) else 0
  }

  /** How many times the second loop subtracts 2*pi. */
  function TurnsDown(a: real): nat
    decreases if a > Pi then a.Floor else 0
  {
    if a > Pi then 1 + TurnsDown(a - TwoPi) else 0
  }

  lemma {:induction false} WrapUpShift(a: real)
    ensures WrapUp(a) == a + TurnsUp(a) as real * TwoPi
    decreases if a < -Pi then (-a).Floor else 0
  {
    if a < -Pi {
      WrapUpShift(a + TwoPi);
    }
  }

  lemma {:induction false} WrapDownShift(a: real)
    ensures WrapDown(a) == a - TurnsDown(a) as real * TwoPi
    decreases if a > Pi then a.Floor else 0
  {
    if a > Pi {
      WrapDownShift(a - TwoPi);
    }
  }

  /** `normAngle` only ever adds or removes whole turns: its result differs from
      its argument by an integer multiple of 2*pi. */
  lemma NormAngleWholeTurns(a: real)
    ensures NormAngle(a) == a + (TurnsUp(a) - TurnsDown(WrapUp(a))) as real * TwoPi
  {
    WrapUpShift(a);
    WrapDownShift(WrapUp(a));
  }

  /** Normalising twice is normalising once. */
  lemma NormAngleIdempotent(a: real)
    ensures NormAngle(NormAngle(a)) == NormAngle(a)
  {
  }

  // ---------------------------------------------------------------------
  // angleBetweenPositions
  // ---------------------------------------------------------------------

  /** `angleBetweenPositions`, with `Math.atan2` supplied by the caller. */
  function AngleBetween(atan2: (real, real) -> real, x1: real, y1: real, x2: real, y2: real): (r: real)
    ensures x1 == x2 && y1 == y2 ==> r == 0.0
    ensures x1 != x2 || y1 != y2 ==> r == atan2(y2 - y1, x2 - x1)
  {
    var x := x2 - x1;
    var y := y2 - y1;
    if x == 0.0 && y == 0.0 then 0.0 else atan2(y, x)
  }

  // ---------------------------------------------------------------------
  // moveAndSlide
  // ---------------------------------------------------------------------

  /** Where an entity ends up, and whether any probe hit a wall. */
  datatype Slide = Slide(x: real, y: real, hit: bool)

  /** Smallest delta that counts as moving in the positive direction. */
  const Threshold: real := 0.01

  /** The x probe collides: 0.2 behind the target for deltas below 0.01
      (zero and negative included), 0.2 ahead of it for deltas above. */
  predicate XBlocked(g: Grid, x: real, y: real, dx: real)
    requires g.Valid()
  {
    || (dx < Threshold && Collides(g, x + dx - 0.2, y))
    || (dx > Threshold && Collides(g, x + dx + 0.2, y))
  }

  /** The y probe collides, tested at the already-resolved x. */
  predicate YBlocked(g: Grid, x: real, y: real, dy: real)
    requires g.Valid()
  {
    || (dy < Threshold && Collides(g, x, y + dy - 0.2))
    || (dy > Threshold && Collides(g, x, y + dy + 0.2))
  }

  function ResolveX(g: Grid, x: real, y: real, dx: real): (real, bool)
    requires g.Valid()
  {
    if dx < Threshold then
      if Collides(g, x + dx - 0.2, y) then (x.Floor as real + 0.7, true) else (x + dx, false)
    else if dx > Threshold then
      if Collides(g, x + dx + 0.2, y) then (x.Floor as real + 0.3, true) else (x + dx, false)
    else (x, false)
  }

  function ResolveY(g: Grid, x: real, y: real, dy: real): (real, bool)
    requires g.Valid()
  {
    if dy < Threshold then
      if Collides(g, x, y + dy - 0.2) then (y.Floor as real + 0.7, true) else (y + dy, false)
    else if dy > Threshold then
      if Collides(g, x, y + dy + 0.2) then (y.Floor as real + 0.4, true) else (y + dy, false)
    else (y, false)
  }

  /** `moveAndSlide`: x is resolved first, then y is probed at the new x. */
  function MoveAndSlide(g: Grid, x: real, y: real, dx: real, dy: real): (r: Slide)
    requires g.Valid()
    // the result reports a hit exactly when some probe collided
    ensures r.hit <==> XBlocked(g, x, y, dx) || YBlocked(g, r.x, y, dy)
    // a blocked axis snaps within its current cell; an open one moves by the delta
    ensures XBlocked(g, x, y, dx) ==> r.x.Floor == x.Floor
    ensures XBlocked(g, x, y, dx) ==> r.x == x.Floor as real + (if dx < Threshold then 0.7 else 0.3)
    ensures !XBlocked(g, x, y, dx) ==> r.x == if dx == Threshold then x else x + dx
    ensures YBlocked(g, r.x, y, dy) ==> r.y.Floor == y.Floor
    ensures YBlocked(g, r.x, y, dy) ==> r.y == y.Floor as real + (if dy < Threshold then 0.7 else 0.4)
    ensures !YBlocked(g, r.x, y, dy) ==> r.y == if dy == Threshold then y else y + dy
  {
    var (nx, hx) := ResolveX(g, x, y, dx);
    var (ny, hy) := ResolveY(g, nx, y, dy);
    Slide(nx, ny, hx || hy)
  }

  /** The component of a unit vector toward the player, `d / dist`. At distance
      zero the source divides by zero; the model answers 0 there. */
  function Unit(d: real, dist: real): real
  {
    if dist == 0.0 then 0.0 else d / dist
  }

  /** The chase step of the enemies: `moveAndSlide` by `speed * dt` along the
      unit vector toward the player. At distance zero the source's deltas are
      NaN, which no comparison accepts, so nothing moves. */
  function Chase(g: Grid, x: real, y: real, distX: real, distY: real, dist: real, step: real): (r: Slide)
    requires g.Valid()
    ensures dist == 0.0 ==> r == Slide(x, y, false)
    ensures dist != 0.0 ==> r == MoveAndSlide(g, x, y, distX / dist * step, distY / dist * step)
  {
    if dist == 0.0 then Slide(x, y, false)
    else MoveAndSlide(g, x, y, distX / dist * step, distY / dist * step)
  }
}
