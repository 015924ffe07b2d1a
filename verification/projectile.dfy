/** game/Projectile.js: a shot that flies in a straight line, dies on the first
    wall it touches, and hurts the first hurtable, non-dying entity other than
    its owner that comes within distance 2. */
module Projectiles {
  import opened Base
  import opened Level
  import opened Motion
  import opened Anim

  /** The arguments of `new Projectile(x, y, dx, dy, type, owner)` apart from
      the owner, which the game fills in: origin, velocity, atlas row. */
  datatype Shot = Shot(x: real, y: real, dx: real, dy: real, kind: int)

  /** A live projectile; `owner` is the identity of the entity that fired it. */
  datatype Projectile = Projectile(x: real, y: real, dead: bool, dx: real, dy: real,
                                   sprite: SpritePlayer, owner: nat)

  /** The constructor: spawned a tenth of its velocity ahead of the origin,
      animated over four tiles of the atlas row given by its type. */
  function NewProjectile(s: Shot, owner: nat): (p: Projectile)
    ensures p.x == s.x + s.dx / 10.0 && p.y == s.y + s.dy / 10.0
    ensures p.dx == s.dx && p.dy == s.dy && p.owner == owner && !p.dead
    ensures |p.sprite.sequence| == 4 && p.sprite.Valid() && p.sprite.index == 0
    ensures forall i :: 0 <= i < |p.sprite.sequence| ==> p.sprite.sequence[i] == (i, s.kind)
  {
    Projectile(s.x + s.dx / 10.0, s.y + s.dy / 10.0, false, s.dx, s.dy,
               NewSpritePlayer(8.0, [(0, s.kind), (1, s.kind), (2, s.kind), (3, s.kind)]), owner)
  }

  /** What the hit scan sees of one entity of the game's list. */
  datatype TargetView = TargetView(uid: nat, hurtable: bool, dying: bool, x: real, y: real)

  /** The scan's filter: not the owner, has `hurt`, not dying, closer than 2. */
  predicate Qualifies(t: TargetView, owner: nat, px: real, py: real, hypot: (real, real) -> real)
  {
    t.uid != owner && t.hurtable && !t.dying && hypot(px - t.x, py - t.y) < 2.0
  }

  /** The index of the first qualifying entity at or after i. */
  function FirstTarget(ts: seq<TargetView>, i: nat, owner: nat, px: real, py: real,
                       hypot: (real, real) -> real): (r: Option<nat>)
    requires i <= |ts|
    ensures r.Some? ==> i <= r.value < |ts| && Qualifies(ts[r.value], owner, px, py, hypot)
    ensures r.Some? ==> forall k :: i <= k < r.value ==> !Qualifies(ts[k], owner, px, py, hypot)
    ensures r.None? ==> forall k :: i <= k < |ts| ==> !Qualifies(ts[k], owner, px, py, hypot)
    decreases |ts| - i
  {
    if i == |ts| then None
    else if Qualifies(ts[i], owner, px, py, hypot) then Some(i)
    else FirstTarget(ts, i + 1, owner, px, py, hypot)
  }

  /** What one `update` does: the projectile after the tick, and the index of
      the entity it hurts, if any. */
  datatype Outcome = Outcome(p: Projectile, target: Option<nat>)

  /** `Projectile.update`: advance the animation, slide by velocity*dt; a wall
      hit kills it with no scan; otherwise the first qualifying entity in list
      order is hurt and the projectile dies. */
  function UpdateProjectile(g: Grid, p: Projectile, dt: real, ts: seq<TargetView>,
                            hypot: (real, real) -> real): (o: Outcome)
    requires g.Valid()
    ensures var s := MoveAndSlide(g, p.x, p.y, p.dx * dt, p.dy * dt);
      && o.p.x == s.x && o.p.y == s.y
      && o.p.sprite == Advance(p.sprite, dt)
      && o.p.dx == p.dx && o.p.dy == p.dy && o.p.owner == p.owner
      // a wall hit kills the projectile and nothing is scanned or hurt
      && (s.hit ==> o.p.dead && o.target.None?)
      // otherwise the target is the first qualifying entity in list order
      && (!s.hit ==> o.target == FirstTarget(ts, 0, p.owner, s.x, s.y, hypot))
      // the projectile dies exactly when it hit a wall or an entity
      && (o.p.dead <==> p.dead || s.hit || o.target.Some?)
  {
    var sprite := Advance(p.sprite, dt);
    var s := MoveAndSlide(g, p.x, p.y, p.dx * dt, p.dy * dt);
    var moved := p.(x := s.x, y := s.y, sprite := sprite);
    if s.hit then Outcome(moved.(dead := true), None)
    else
      var t := FirstTarget(ts, 0, p.owner, s.x, s.y, hypot);
      Outcome(if t.Some? then moved.(dead := true) else moved, t)
  }

  /** An entity hurt by a projectile satisfies the filter, and no earlier entity
      in the list does; its owner is never the one hurt. */
  lemma HitIsFirstQualifying(g: Grid, p: Projectile, dt: real, ts: seq<TargetView>,
                             hypot: (real, real) -> real)
    requires g.Valid()
    ensures var o := UpdateProjectile(g, p, dt, ts, hypot);
      o.target.Some? ==>
        && o.target.value < |ts|
        && ts[o.target.value].uid != p.owner
        && ts[o.target.value].hurtable && !ts[o.target.value].dying
        && hypot(o.p.x - ts[o.target.value].x, o.p.y - ts[o.target.value].y) < 2.0
        && forall k :: 0 <= k < o.target.value ==> !Qualifies(ts[k], p.owner, o.p.x, o.p.y, hypot)
  {
  }

  /** With no wall and nothing in range the projectile stays alive: only its
      position and animation change. */
  lemma MissKeepsFlying(g: Grid, p: Projectile, dt: real, ts: seq<TargetView>,
                        hypot: (real, real) -> real)
    requires g.Valid() && !p.dead
    requires !MoveAndSlide(g, p.x, p.y, p.dx * dt, p.dy * dt).hit
    requires var s := MoveAndSlide(g, p.x, p.y, p.dx * dt, p.dy * dt);
      forall k :: 0 <= k < |ts| ==> !Qualifies(ts[k], p.owner, s.x, s.y, hypot)
    ensures var o := UpdateProjectile(g, p, dt, ts, hypot);
      && o.target.None? && !o.p.dead
      && o.p == p.(x := o.p.x, y := o.p.y, sprite := Advance(p.sprite, dt))
  {
  }
}
