/** The level map (`LevelData` in game/game.js): a width-by-height grid of RGBA
    cells read in row-major order, the marker scan that turns reserved cells
    into `Special` records, bounds-checked cell access, point collision, and
    the fixed-step raycaster. */
module Level {
  import opened Base

  datatype Rgba = Rgba(r: Byte, g: Byte, b: Byte, a: Byte)

  /** What `at` answers outside the grid: opaque black. */
  const Black: Rgba := Rgba(0, 0, 0, 0xff)

  /** What a marker cell becomes once it has been extracted. */
  const Cleared: Rgba := Rgba(0, 0, 0, 0)

  /** Sub-steps the raycaster takes per cell unit. */
  const RenderSteps: nat := 50

  /** A cell blocks movement and rays when its alpha is at least this. */
  const SolidAlpha: int := 0x80

  /** The grid, cells in row-major order: cell (x, y) is `cells[width * y + x]`. */
  datatype Grid = Grid(width: nat, height: nat, cells: seq<Rgba>)
  {
    predicate Valid()
    {
      |cells| == width * height
    }
  }

  predicate InBounds(g: Grid, x: int, y: int)
  {
    0 <= x < g.width && 0 <= y < g.height
  }

  predicate Solid(c: Rgba)
  {
    c.a >= SolidAlpha
  }

  lemma IndexInRange(w: nat, h: nat, x: int, y: int)
    requires 0 <= x < w && 0 <= y < h
    ensures 0 <= w * y + x < w * h
  {
    assert w * y + x < w * y + w == w * (y + 1);
    assert w * (y + 1) <= w * h;
  }

  /** The row-major position of an in-bounds cell. */
  function Index(g: Grid, x: int, y: int): (i: nat)
    requires g.Valid() && InBounds(g, x, y)
    ensures i < |g.cells|
  {
    IndexInRange(g.width, g.height, x, y);
    g.width * y + x
  }

  /** `maybeAt`: the cell at (x, y), or None outside the grid. */
  function MaybeAt(g: Grid, x: int, y: int): (r: Option<Rgba>)
    requires g.Valid()
    ensures r.Some? <==> InBounds(g, x, y)
    ensures r.Some? ==> r.value == g.cells[Index(g, x, y)]
  {
    if x >= g.width || x < 0 || y >= g.height || y < 0 then None
    else Some(g.cells[Index(g, x, y)])
  }

  /** `at`: like `maybeAt`, but opaque black outside the grid. */
  function At(g: Grid, x: int, y: int): (r: Rgba)
    requires g.Valid()
    ensures !InBounds(g, x, y) ==> r == Black && Solid(r)
    ensures InBounds(g, x, y) ==> MaybeAt(g, x, y) == Some(r)
  {
    if x >= g.width || x < 0 || y >= g.height || y < 0 then Black
    else g.cells[Index(g, x, y)]
  }

  /** `Math.floor(v + 0.5)`: the cell a continuous coordinate belongs to. */
  function Round(v: real): (k: int)
    ensures k as real - 0.5 <= v < k as real + 0.5
  {
    (v + 0.5).Floor
  }

  /** `collides`: the cell the point rounds to is solid (off-grid counts as solid). */
  predicate Collides(g: Grid, x: real, y: real)
    requires g.Valid()
  {
    Solid(At(g, Round(x), Round(y)))
  }

  /** Collision is exactly: the rounded cell is off the grid, or its alpha is at
      least 0x80. */
  lemma CollidesIff(g: Grid, x: real, y: real)
    requires g.Valid()
    ensures var cx, cy := Round(x), Round(y);
      Collides(g, x, y) <==>
        (!InBounds(g, cx, cy) || g.cells[Index(g, cx, cy)].a >= 0x80)
  {
    var cx, cy := Round(x), Round(y);
    if InBounds(g, cx, cy) {
      assert MaybeAt(g, cx, cy) == Some(At(g, cx, cy));
    }
  }

  /** Every point within half a cell of a cell's centre (lower edge included,
      upper edge excluded) collides exactly when that cell is solid. */
  lemma CollidesNearCell(g: Grid, cx: int, cy: int, x: real, y: real)
    requires g.Valid()
    requires cx as real - 0.5 <= x < cx as real + 0.5
    requires cy as real - 0.5 <= y < cy as real + 0.5
    ensures Collides(g, x, y) <==> Solid(At(g, cx, cy))
  {
    assert Round(x) == cx;
    assert Round(y) == cy;
  }

  // ---------------------------------------------------------------------
  // Marker extraction (the scan in the LevelData constructor)
  // ---------------------------------------------------------------------

  /** An entry of the metadata's specials table: a bare JSON value (normally a
      type string) or an object with a `type` field and further parameters. */
  datatype SpecEntry = Scalar(v: Value) | Object(fields: Params)

  /** The specials table, keyed by marker id (the hex keys already parsed). */
  type SpecTable = map<int, SpecEntry>

  /** `!spec` is false: objects are always truthy. */
  predicate EntryTruthy(e: SpecEntry)
  {
    match e
    case Scalar(v) => Truthy(v)
    case Object(_) => true
  }

  /** A decoded marker: grid position, type tag and parameter bag. */
  datatype Special = Special(x: int, y: int, kind: Value, params: Params)

  /** The reserved pattern FF xx FF FF: red, blue and alpha all 0xff. */
  predicate MarkerPattern(c: Rgba)
  {
    c.r == 0xff && c.b == 0xff && c.a == 0xff
  }

  /** A marker whose green id has a (truthy) entry in the table. */
  predicate KnownMarker(table: SpecTable, c: Rgba)
  {
    MarkerPattern(c) && c.g in table && EntryTruthy(table[c.g])
  }

  /** The Special built for a known marker at (x, y): a string entry is the type
      with empty parameters; otherwise the type is the entry's `type` field and
      the parameters are the whole entry. */
  function SpecialOf(table: SpecTable, c: Rgba, x: int, y: int): (s: Special)
    requires KnownMarker(table, c)
    ensures s.x == x && s.y == y
    ensures table[c.g].Scalar? && table[c.g].v.Str? ==> s.kind == table[c.g].v && s.params == map[]
    ensures table[c.g].Object? ==> s.kind == Get(table[c.g].fields, "type") && s.params == table[c.g].fields
  {
    match table[c.g]
    case Scalar(v) => Special(x, y, if v.Str? then v else Undefined, map[])
    case Object(f) => Special(x, y, Get(f, "type"), f)
  }

  /** The row-major index of a special's cell. */
  function IndexOf(w: nat, s: Special): int
  {
    s.y * w + s.x
  }

  lemma NonEmptyGridHasWidth(g: Grid)
    requires g.Valid() && |g.cells| > 0
    ensures g.width > 0
  {

  }

  /** The scan from cell index k onwards, in row-major order: the Specials found
      and the rewritten cells k.. (a known marker is cleared, everything else is
      kept). */
  function ScanFrom(table: SpecTable, g: Grid, k: nat): (r: (seq<Special>, seq<Rgba>))
    requires g.Valid()
    requires k <= |g.cells|
    ensures |r.1| == |g.cells| - k
    decreases |g.cells| - k
  {
    if k == |g.cells| then ([], [])
    else
      NonEmptyGridHasWidth(g);
      var rest := ScanFrom(table, g, k + 1);
      var c := g.cells[k];
      if KnownMarker(table, c) then
        ([SpecialOf(table, c, k % g.width, k / g.width)] + rest.0, [Cleared] + rest.1)
      else
        (rest.0, [c] + rest.1)
  }

  /** The level as loaded: the grid with its known markers cleared, and the
      Specials in the order the scan found them. */
  datatype LevelData = LevelData(grid: Grid, specials: seq<Special>)

  function Load(table: SpecTable, g: Grid): (lv: LevelData)
    requires g.Valid()
    ensures lv.grid.Valid()
    ensures lv.grid.width == g.width && lv.grid.height == g.height
  {
    var r := ScanFrom(table, g, 0);
    LevelData(Grid(g.width, g.height, r.1), r.0)
  }

  /** Each remaining cell is cleared iff it is a known marker; every other cell is kept. */
  ghost predicate CellsCleared(table: SpecTable, g: Grid, k: nat, cs: seq<Rgba>)
    requires g.Valid() && k <= |g.cells|
  {
    && |cs| == |g.cells| - k
    && forall i :: k <= i < |g.cells| ==>
         cs[i - k] == if KnownMarker(table, g.cells[i]) then Cleared else g.cells[i]
  }

  /** Each special comes from a known marker cell at or after k and carries that
      cell's coordinates, type and parameters. */
  ghost predicate SpecialsSound(table: SpecTable, g: Grid, k: nat, ss: seq<Special>)
    requires g.Valid() && g.width > 0
  {
    forall j :: 0 <= j < |ss| ==>
      var i := IndexOf(g.width, ss[j]);
      && k <= i < |g.cells|
      && KnownMarker(table, g.cells[i])
      && ss[j] == SpecialOf(table, g.cells[i], i % g.width, i / g.width)
  }

  /** Specials appear in strictly increasing row-major order. */
  ghost predicate SpecialsOrdered(w: nat, ss: seq<Special>)
  {
    forall j1, j2 :: 0 <= j1 < j2 < |ss| ==> IndexOf(w, ss[j1]) < IndexOf(w, ss[j2])
  }

  /** Every known marker cell at or after k yields a special. */
  ghost predicate SpecialsComplete(table: SpecTable, g: Grid, k: nat, ss: seq<Special>)
    requires g.Valid()
  {
    forall i :: k <= i < |g.cells| && KnownMarker(table, g.cells[i]) ==>
      exists j :: 0 <= j < |ss| && IndexOf(g.width, ss[j]) == i
  }

  lemma SpecialIndex(table: SpecTable, g: Grid, i: nat)
    requires g.Valid() && g.width > 0 && i < |g.cells| && KnownMarker(table, g.cells[i])
    ensures IndexOf(g.width, SpecialOf(table, g.cells[i], i % g.width, i / g.width)) == i
  {
    var s := SpecialOf(table, g.cells[i], i % g.width, i / g.width);
    assert s.y * g.width + s.x == (i / g.width) * g.width + i % g.width;
  }

  lemma {:induction false} ScanClears(table: SpecTable, g: Grid, k: nat)
    requires g.Valid() && k <= |g.cells|
    ensures CellsCleared(table, g, k, ScanFrom(table, g, k).1)
    decreases |g.cells| - k
  {
    if k < |g.cells| {
      ScanClears(table, g, k + 1);
      var rest := ScanFrom(table, g, k + 1).1;
      var cs := ScanFrom(table, g, k).1;
      assert cs[1..] == rest;
      forall i | k < i < |g.cells|
        ensures cs[i - k] == if KnownMarker(table, g.cells[i]) then Cleared else g.cells[i]
      {
        assert cs[i - k] == rest[i - (k + 1)];
      }
    }
  }

  lemma {:induction false} ScanSound(table: SpecTable, g: Grid, k: nat)
    requires g.Valid() && k <= |g.cells| && g.width > 0
    ensures SpecialsSound(table, g, k, ScanFrom(table, g, k).0)
    decreases |g.cells| - k
  {
    if k < |g.cells| {
      ScanSound(table, g, k + 1);
      if KnownMarker(table, g.cells[k]) {
        SpecialIndex(table, g, k);
      }
    }
  }

  lemma {:induction false} ScanOrdered(table: SpecTable, g: Grid, k: nat)
    requires g.Valid() && k <= |g.cells| && g.width > 0
    ensures SpecialsOrdered(g.width, ScanFrom(table, g, k).0)
    decreases |g.cells| - k
  {
    if k < |g.cells| {
      ScanOrdered(table, g, k + 1);
      ScanSound(table, g, k + 1);
      if KnownMarker(table, g.cells[k]) {
        SpecialIndex(table, g, k);
        var ss := ScanFrom(table, g, k).0;
        var rest := ScanFrom(table, g, k + 1).0;
        assert ss[1..] == rest;
        forall j1, j2 | 0 <= j1 < j2 < |ss|
          ensures IndexOf(g.width, ss[j1]) < IndexOf(g.width, ss[j2])
        {
          assert ss[j2] == rest[j2 - 1];
          if j1 > 0 {
            assert ss[j1] == rest[j1 - 1];
          }
        }
      }
    }
  }

  lemma {:induction false} ScanComplete(table: SpecTable, g: Grid, k: nat)
    requires g.Valid() && k <= |g.cells| && g.width > 0
    ensures SpecialsComplete(table, g, k, ScanFrom(table, g, k).0)
    decreases |g.cells| - k
  {
    if k < |g.cells| {
      ScanComplete(table, g, k + 1);
      var r := ScanFrom(table, g, k).0;
      var rest := ScanFrom(table, g, k + 1).0;
      if KnownMarker(table, g.cells[k]) {
        SpecialIndex(table, g, k);
        forall i | k <= i < |g.cells| && KnownMarker(table, g.cells[i])
          ensures exists j :: 0 <= j < |r| && IndexOf(g.width, r[j]) == i
        {
          if i == k {
            assert IndexOf(g.width, r[0]) == i;
          } else {
            var j :| 0 <= j < |rest| && IndexOf(g.width, rest[j]) == i;
            assert r[j + 1] == rest[j];
          }
        }
      } else {
        assert r == rest;
      }
    }
  }

  /** The load scan, characterised: a cell becomes a Special iff it is a known
      marker (and is then cleared, every other cell being kept); each Special
      carries its cell's coordinates and the decoded type and parameters; and
      Specials come in row-major order. */
  lemma LoadMeaning(table: SpecTable, g: Grid)
    requires g.Valid() && g.width > 0
    ensures var lv := Load(table, g);
      && CellsCleared(table, g, 0, lv.grid.cells)
      && SpecialsSound(table, g, 0, lv.specials)
      && SpecialsOrdered(g.width, lv.specials)
      && SpecialsComplete(table, g, 0, lv.specials)
  {
    ScanClears(table, g, 0);
    ScanSound(table, g, 0);
    ScanOrdered(table, g, 0);
    ScanComplete(table, g, 0);
  }

  /** A marker whose id has no entry (or a falsy one) is left as it was: still
      opaque, so still solid. */
  lemma UnknownMarkerStaysSolid(table: SpecTable, g: Grid, x: int, y: int)
    requires g.Valid() && InBounds(g, x, y)
    requires MarkerPattern(At(g, x, y)) && !KnownMarker(table, At(g, x, y))
    ensures At(Load(table, g).grid, x, y) == At(g, x, y)
    ensures Solid(At(Load(table, g).grid, x, y))
  {
    ScanClears(table, g, 0);
    var i := Index(g, x, y);
    assert Load(table, g).grid.cells[i - 0] == g.cells[i];
  }

  /** After loading no cell still encodes a known marker. */
  lemma NoKnownMarkerAfterLoad(table: SpecTable, g: Grid, i: nat)
    requires g.Valid() && i < |g.cells|
    ensures !KnownMarker(table, Load(table, g).grid.cells[i])
  {
    ScanClears(table, g, 0);
    assert Load(table, g).grid.cells[i - 0] == if KnownMarker(table, g.cells[i]) then Cleared else g.cells[i];
  }

  // ---------------------------------------------------------------------
  // Raycasting
  // ---------------------------------------------------------------------

  /** A ray's result: the hit cell's colour and the distance travelled. */
  datatype RayHit = RayHit(r: Byte, g: Byte, b: Byte, dist: real)

  /** The number of loop iterations `i < max * RENDER_STEPS` allows. */
  function Iterations(max: real): (n: nat)
    ensures max <= 0.0 ==> n == 0
    ensures (n as real) >= max * RenderSteps as real
    ensures n > 0 ==> ((n - 1) as real) < max * RenderSteps as real
  {
    if max <= 0.0 then 0 else -((-(max * RenderSteps as real)).Floor)
  }

  /** The cell the march is in after sub-step i (0-based); over the reals the
      accumulated position equals this closed form. */
  function StepCell(ox: real, oy: real, sx: real, sy: real, i: nat): (int, int)
  {
    ((ox + (i + 1) as real * sx).Floor, (oy + (i + 1) as real * sy).Floor)
  }

  function HitAt(c: Rgba, i: nat): RayHit
  {
    RayHit(c.r, c.g, c.b, i as real / RenderSteps as real)
  }

  /** The loop of `raycast` from iteration i: a cell is tested only when the
      floored position differs from the last tested cell. */
  function March(g: Grid, ox: real, oy: real, sx: real, sy: real,
                 i: nat, n: nat, last: Option<(int, int)>): Option<RayHit>
    requires g.Valid()
    decreases n - i
  {
    if i >= n then None
    else
      var c := StepCell(ox, oy, sx, sy, i);
      if last == Some(c) then March(g, ox, oy, sx, sy, i + 1, n, last)
      else
        match MaybeAt(g, c.0, c.1)
        case None => None
        case Some(px) =>
          if px.a < SolidAlpha then March(g, ox, oy, sx, sy, i + 1, n, Some(c))
          else Some(HitAt(px, i))
  }

  /** The same march testing the cell at every sub-step: the reference the
      cell-change shortcut is measured against. */
  function MarchEvery(g: Grid, ox: real, oy: real, sx: real, sy: real, i: nat, n: nat): Option<RayHit>
    requires g.Valid()
    decreases n - i
  {
    if i >= n then None
    else
      var c := StepCell(ox, oy, sx, sy, i);
      match MaybeAt(g, c.0, c.1)
      case None => None
      case Some(px) =>
        if px.a < SolidAlpha then MarchEvery(g, ox, oy, sx, sy, i + 1, n)
        else Some(HitAt(px, i))
  }

  /** A cell the ray passes through freely: in the grid and not solid. */
  predicate Passable(g: Grid, c: (int, int))
    requires g.Valid()
  {
    MaybeAt(g, c.0, c.1).Some? && MaybeAt(g, c.0, c.1).value.a < SolidAlpha
  }

  /** Skipping a test while the floored position is unchanged never changes the
      answer, because the skipped cell was already found passable. */
  lemma {:induction false} MarchSkipSound(g: Grid, ox: real, oy: real, sx: real, sy: real,
                                          i: nat, n: nat, last: Option<(int, int)>)
    requires g.Valid()
    requires last.Some? ==> Passable(g, last.value)
    ensures March(g, ox, oy, sx, sy, i, n, last) == MarchEvery(g, ox, oy, sx, sy, i, n)
    decreases n - i
  {
    if i < n {
      var c := StepCell(ox, oy, sx, sy, i);
      if last == Some(c) {
        MarchSkipSound(g, ox, oy, sx, sy, i + 1, n, last);
      } else if MaybeAt(g, c.0, c.1).Some? && MaybeAt(g, c.0, c.1).value.a < SolidAlpha {
        MarchSkipSound(g, ox, oy, sx, sy, i + 1, n, Some(c));
      }
    }
  }

  /** Every sub-step from i up to (not including) k lands on a passable cell. */
  ghost predicate ClearBetween(g: Grid, ox: real, oy: real, sx: real, sy: real, i: nat, k: nat)
    requires g.Valid()
  {
    forall j: nat :: i <= j < k ==> Passable(g, StepCell(ox, oy, sx, sy, j))
  }

  /** The sub-step k lands on a solid cell inside the grid. */
  predicate OpaqueStep(g: Grid, ox: real, oy: real, sx: real, sy: real, k: nat)
    requires g.Valid()
  {
    var c := StepCell(ox, oy, sx, sy, k);
    MaybeAt(g, c.0, c.1).Some? && Solid(MaybeAt(g, c.0, c.1).value)
  }

  /** The reference march answers with the first solid cell reached before the
      ray leaves the grid, and with nothing when no such cell exists. */
  lemma {:induction false} MarchEveryMeaning(g: Grid, ox: real, oy: real, sx: real, sy: real, i: nat, n: nat)
    requires g.Valid()
    ensures MarchEvery(g, ox, oy, sx, sy, i, n).Some? ==>
      exists k: nat :: i <= k < n && ClearBetween(g, ox, oy, sx, sy, i, k)
        && OpaqueStep(g, ox, oy, sx, sy, k)
        && MarchEvery(g, ox, oy, sx, sy, i, n).value
             == HitAt(MaybeAt(g, StepCell(ox, oy, sx, sy, k).0, StepCell(ox, oy, sx, sy, k).1).value, k)
    ensures MarchEvery(g, ox, oy, sx, sy, i, n).None? ==>
      forall k: nat :: i <= k < n && ClearBetween(g, ox, oy, sx, sy, i, k) ==>
        !OpaqueStep(g, ox, oy, sx, sy, k)
    decreases n - i
  {
    if i < n {
      var c := StepCell(ox, oy, sx, sy, i);
      if Passable(g, c) {
        MarchEveryMeaning(g, ox, oy, sx, sy, i + 1, n);
        var r := MarchEvery(g, ox, oy, sx, sy, i, n);
        assert r == MarchEvery(g, ox, oy, sx, sy, i + 1, n);
        if r.Some? {
          var k: nat :| i + 1 <= k < n && ClearBetween(g, ox, oy, sx, sy, i + 1, k)
            && OpaqueStep(g, ox, oy, sx, sy, k)
            && r.value == HitAt(MaybeAt(g, StepCell(ox, oy, sx, sy, k).0, StepCell(ox, oy, sx, sy, k).1).value, k);
          assert ClearBetween(g, ox, oy, sx, sy, i, k);
        } else {
          forall k: nat | i <= k < n && ClearBetween(g, ox, oy, sx, sy, i, k)
            ensures !OpaqueStep(g, ox, oy, sx, sy, k)
          {
            if k > i {
              assert ClearBetween(g, ox, oy, sx, sy, i + 1, k);
            }
          }
        }
      } else if MaybeAt(g, c.0, c.1).Some? {
        assert ClearBetween(g, ox, oy, sx, sy, i, i);
        assert OpaqueStep(g, ox, oy, sx, sy, i);
      } else {
        assert !Passable(g, c);
        forall k: nat | i <= k < n && ClearBetween(g, ox, oy, sx, sy, i, k)
          ensures !OpaqueStep(g, ox, oy, sx, sy, k)
        {
        }
      }
    }
  }

  /** `raycast(x, y, dx, dy, len, max)` with a finite `max`: marches from the
      centre-shifted origin (x + 0.5, y + 0.5) in steps of (dx, dy) / (len * 50). */
  function Raycast(g: Grid, x: real, y: real, dx: real, dy: real, len: real, max: real): (r: Option<RayHit>)
    requires g.Valid()
    requires len != 0.0 || Iterations(max) == 0
    ensures r.Some? ==> 0.0 <= r.value.dist < max
  {
    var n := Iterations(max);
    if n == 0 then None
    else
      var sx := dx / (len * RenderSteps as real);
      var sy := dy / (len * RenderSteps as real);
      var r := March(g, x + 0.5, y + 0.5, sx, sy, 0, n, None);
      MarchSkipSound(g, x + 0.5, y + 0.5, sx, sy, 0, n, None);
      MarchEveryMeaning(g, x + 0.5, y + 0.5, sx, sy, 0, n);
      r
  }

  /** The ray's sub-step vector. */
  function StepOf(d: real, len: real): real
    requires len != 0.0
  {
    d / (len * RenderSteps as real)
  }

  /** Raycast's full meaning: it hits iff some sub-step k below max*50 lands on a
      solid in-grid cell with every earlier sub-step passable, and then it
      reports that cell's colour at distance k/50; otherwise it reports nothing
      (the ray left the grid, or ran out of steps). */
  lemma RaycastMeaning(g: Grid, x: real, y: real, dx: real, dy: real, len: real, max: real)
    requires g.Valid() && len != 0.0
    ensures var ox, oy, sx, sy := x + 0.5, y + 0.5, StepOf(dx, len), StepOf(dy, len);
      var r := Raycast(g, x, y, dx, dy, len, max);
      && (r.Some? <==>
            exists k: nat :: (k as real) < max * RenderSteps as real
              && ClearBetween(g, ox, oy, sx, sy, 0, k) && OpaqueStep(g, ox, oy, sx, sy, k))
      && (r.Some? ==>
            exists k: nat :: (k as real) < max * RenderSteps as real
              && ClearBetween(g, ox, oy, sx, sy, 0, k) && OpaqueStep(g, ox, oy, sx, sy, k)
              && r.value == HitAt(MaybeAt(g, StepCell(ox, oy, sx, sy, k).0, StepCell(ox, oy, sx, sy, k).1).value, k))
  {
    var ox, oy, sx, sy := x + 0.5, y + 0.5, StepOf(dx, len), StepOf(dy, len);
    var n := Iterations(max);
    MarchSkipSound(g, ox, oy, sx, sy, 0, n, None);
    MarchEveryMeaning(g, ox, oy, sx, sy, 0, n);
  }

  /** A ray whose first sub-step already lands on a solid cell hits it at
      distance 0 (the first step is always tested). */
  lemma RaycastAdjacentWall(g: Grid, x: real, y: real, dx: real, dy: real, len: real, max: real)
    requires g.Valid() && len != 0.0 && max > 0.0
    requires OpaqueStep(g, x + 0.5, y + 0.5, StepOf(dx, len), StepOf(dy, len), 0)
    ensures Raycast(g, x, y, dx, dy, len, max).Some?
    ensures Raycast(g, x, y, dx, dy, len, max).value.dist == 0.0
  {
    assert Iterations(max) > 0 by {
      assert (0 as real) < max * RenderSteps as real;
    }
  }
}
