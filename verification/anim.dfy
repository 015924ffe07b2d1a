/** Animation cursors from game/SpriteSheet.js: `SpritePlayer` cycles through a
    sequence of sheet tiles at a fixed rate, `StaticSprite` shows one tile. The
    sheet's image and its scaled drawing are not modelled; a tile is its
    (column, row) pair on the sheet. */
module Anim {
  import opened Base

  type Tile = (int, int)

  /** A looping animation: tile sequence, seconds per frame, current frame and
      the time accumulated towards the next frame. */
  datatype SpritePlayer = SpritePlayer(sequence: seq<Tile>, rate: real, index: nat, timer: real)
  {
    /** The cursor invariant: on a non-empty sequence the index is a valid
        frame; on an empty one it stays 0. */
    predicate Valid()
    {
      if |sequence| == 0 then index == 0 else index < |sequence|
    }
  }

  /** `new SpritePlayer(sheet, fps, sequence)`. */
  function NewSpritePlayer(fps: real, sequence: seq<Tile>): (p: SpritePlayer)
    requires fps > 0.0
    ensures p.Valid()
    ensures p.index == 0 && p.timer == 0.0 && p.rate * fps == 1.0
    ensures p.sequence == sequence
  {
    SpritePlayer(sequence, 1.0 / fps, 0, 0.0)
  }

  /** `SpritePlayer.update(dt)`. */
  function Advance(p: SpritePlayer, dt: real): (q: SpritePlayer)
    ensures q.sequence == p.sequence && q.rate == p.rate
    // the cursor invariant is kept
    ensures p.Valid() ==> q.Valid()
    // at most one frame per call, wrapping to 0 past the last frame
    ensures q.index == p.index || q.index == p.index + 1 || q.index == 0
    ensures p.index + 1 < |p.sequence| ==> q.index == p.index || q.index == p.index + 1
    // the frame moves exactly when the accumulated time reaches the rate, and
    // then the rate is paid out of the timer
    ensures p.timer + dt >= p.rate ==> q.timer == p.timer + dt - p.rate
    ensures p.timer + dt >= p.rate ==>
              q.index == if p.index + 1 >= |p.sequence| then 0 else p.index + 1
    ensures p.timer + dt < p.rate ==> q == p.(timer := p.timer + dt)
  {
    var t := p.timer + dt;
    if t >= p.rate then
      var i := p.index + 1;
      p.(index := if i >= |p.sequence| then 0 else i, timer := t - p.rate)
    else
      p.(timer := t)
  }

  /** The tile `draw` reads: `sequence[index]`, in bounds under the invariant. */
  function CurrentTile(p: SpritePlayer): (t: Tile)
    requires p.Valid() && |p.sequence| > 0
    ensures t in p.sequence
  {
    p.sequence[p.index]
  }

  /** Advancing only while the index is below the last frame (the death
      animations' guard) moves the index forward by at most one, never wraps,
      and never passes the last frame. */
  lemma OneShotHalts(p: SpritePlayer, dt: real)
    requires p.Valid() && |p.sequence| > 0 && p.index < |p.sequence| - 1
    ensures p.index <= Advance(p, dt).index <= p.index + 1
    ensures Advance(p, dt).index <= |p.sequence| - 1
  {
  }

  /** An animation that is either a single tile or a looping player. */
  datatype Sprite = Static(tile: Tile) | Looping(player: SpritePlayer)
  {
    predicate Valid()
    {
      Looping? ==> player.Valid()
    }
  }

  /** `update` on either kind: `StaticSprite.update` changes nothing. */
  function UpdateSprite(s: Sprite, dt: real): (t: Sprite)
    ensures s.Valid() ==> t.Valid()
    ensures s.Static? ==> t == s
    ensures s.Looping? ==> t == Looping(Advance(s.player, dt))
  {
    match s
    case Static(_) => s
    case Looping(p) => Looping(Advance(p, dt))
  }

  /** `lookupSprite` (game/resources.js): the two orb pickups loop over four
      tiles at 4 frames per second; every other name is one static tile. */
  function LookupSprite(name: Value): (s: Sprite)
    ensures s.Valid()
    ensures s.Looping? <==> name == Str("blue-key") || name == Str("spectral-core")
  {
    if name == Str("blue-key") then
      Looping(NewSpritePlayer(4.0, [(0, 1), (1, 1), (2, 1), (3, 1)]))
    else if name == Str("spectral-core") then
      Looping(NewSpritePlayer(4.0, [(0, 4), (1, 4), (2, 4), (3, 4)]))
    else Static((0, 0))
  }
}
