/** The `Game` class of game/game.js: the entity list built from the level's
    Specials, the per-tick update pass with swap-remove of dead entities, the
    end-of-tick bookkeeping, and the depth buffer and sprite ordering of
    `render`. */
module Game {
  import opened Base
  import opened Level
  import opened Motion
  import opened Anim
  import opened Projectiles
  import opened Players
  import opened Zomboids
  import opened Enemies
  import opened Pickups
  import opened Transitions

  // ---------------------------------------------------------------------
  // Entities and the world
  // ---------------------------------------------------------------------

  /** What an entity is. The player's state lives in `World.player`, because
      `game.player` and the list's first element are one and the same object. */
  datatype Body =
    | PlayerBody
    | ZomboidBody(z: Zomboid)
    | EnemyBody(e: Enemy)
    | ProjectileBody(p: Projectile)
    | PickupBody(pk: Pickup)
    | TransitionBody(t: LevelTransition)
    | SpriteBody(x: real, y: real, name: Value)

  /** An element of `game.entities`; `uid` stands for JavaScript object identity
      (the projectile's `owner` test compares it). */
  datatype Entity = Entity(uid: nat, body: Body)

  /** A named landing spot: grid position and an optional facing angle. */
  datatype LevelEntry = LevelEntry(x: int, y: int, angle: Option<Value>)

  /** The outside world the simulation consults: `Math.hypot`, `Math.sin`,
      `Math.cos`, `Math.atan2`, and the n-th draw of `Math.random()`. */
  datatype Env = Env(hypot: (real, real) -> real, sin: real -> real, cos: real -> real,
                     atan2: (real, real) -> real, random: nat -> real)

  /** A game session. `requests` logs the calls of the `levelTransition`
      callback; `nextUid` and `draws` count allocated objects and random draws. */
  datatype World = World(grid: Grid, player: Player, entities: seq<Entity>,
                         entries: map<Value, LevelEntry>, overlay: Option<Overlay>,
                         keys: set<string>, requests: seq<Request>,
                         nextUid: nat, draws: nat)

  const PlayerUid: nat := 0

  /** An entity's `dead` flag (`undefined`, hence false, for transitions and
      decorative sprites). */
  predicate Dead(w: World, e: Entity)
  {
    match e.body
    case PlayerBody => w.player.dead
    case ZomboidBody(z) => z.dead
    case EnemyBody(en) => en.dead
    case ProjectileBody(p) => p.dead
    case PickupBody(pk) => pk.dead
    case TransitionBody(_) => false
    case SpriteBody(_, _, _) => false
  }

  function PosOf(w: World, e: Entity): (real, real)
  {
    match e.body
    case PlayerBody => (w.player.x, w.player.y)
    case ZomboidBody(z) => (z.x, z.y)
    case EnemyBody(en) => (en.x, en.y)
    case ProjectileBody(p) => (p.x, p.y)
    case PickupBody(pk) => (pk.x, pk.y)
    case TransitionBody(t) => (t.x, t.y)
    case SpriteBody(x, y, _) => (x, y)
  }

  /** Has a `hurt` method: the player and the two enemy kinds. */
  predicate Hurtable(b: Body)
  {
    b.PlayerBody? || b.ZomboidBody? || b.EnemyBody?
  }

  /** The `dying` flag (absent, hence false, on everything but the enemies). */
  predicate Dying(b: Body)
  {
    match b
    case ZomboidBody(z) => z.dying
    case EnemyBody(en) => en.dying
    case _ => false
  }

  /** Has a `draw` method: everything but the player and the transitions. */
  predicate Drawable(b: Body)
  {
    !(b.PlayerBody? || b.TransitionBody?)
  }

  /** Can append a projectile to the list during its update. */
  predicate Spawner(b: Body)
  {
    var k := KindOf(b);
    k == KPlayer || k == KZomboid || k == KEnemy
  }

  datatype Kind = KPlayer | KZomboid | KEnemy | KProjectile | KPickup | KTransition | KSprite

  function KindOf(b: Body): Kind
  {
    match b
    case PlayerBody => KPlayer
    case ZomboidBody(_) => KZomboid
    case EnemyBody(_) => KEnemy
    case ProjectileBody(_) => KProjectile
    case PickupBody(_) => KPickup
    case TransitionBody(_) => KTransition
    case SpriteBody(_, _, _) => KSprite
  }

  // ---------------------------------------------------------------------
  // Populating a level (constructor and handleSpecial)
  // ---------------------------------------------------------------------

  /** Appends a freshly allocated entity. */
  function Push(w: World, b: Body): (r: World)
    ensures r.entities == w.entities + [Entity(w.nextUid, b)] && r.nextUid == w.nextUid + 1
    ensures r == w.(entities := r.entities, nextUid := r.nextUid)
  {
    w.(entities := w.entities + [Entity(w.nextUid, b)], nextUid := w.nextUid + 1)
  }

  /** `s.params.name || "default"`. */
  function EntryKey(params: Params): (k: Value)
    ensures Truthy(k)
    ensures Truthy(Get(params, "name")) ==> k == Get(params, "name")
    ensures !Truthy(Get(params, "name")) ==> k == Str("default")
  {
    var n := Get(params, "name");
    if Truthy(n) then n else Str("default")
  }

  /** `s.params.angle == null ? null : s.params.angle`: both null and a missing
      angle mean "keep the previous facing". */
  function EntryAngle(params: Params): (a: Option<Value>)
    ensures a.Some? ==> a.value != Null && a.value != Undefined
    ensures var v := Get(params, "angle");
      (v != Null && v != Undefined ==> a == Some(v)) && (v == Null || v == Undefined ==> a.None?)
  {
    var v := Get(params, "angle");
    if v == Null || v == Undefined then None else Some(v)
  }

  /** `handleSpecial`: dispatch on the special's type. */
  function HandleSpecial(w: World, s: Special): (r: World)
    // an entry records its spot and touches nothing else
    ensures s.kind == Str("entry") ==>
      r == w.(entries := w.entries[EntryKey(s.params) := LevelEntry(s.x, s.y, EntryAngle(s.params))])
    // a level transition is appended, followed by its sprite when one is named,
    // and carries the `requires` parameter when that is set
    ensures s.kind == Str("level-transition") ==>
      var t := NewTransition(s.x as real, s.y as real, Get(s.params, "to"), Get(s.params, "entry"));
      var t' := if Truthy(Get(s.params, "requires")) then t.(required := Get(s.params, "requires")) else t;
      && r.entries == w.entries
      && |r.entities| > |w.entities| && r.entities[..|w.entities|] == w.entities
      && r.entities[|w.entities|] == Entity(w.nextUid, TransitionBody(t'))
      && (Truthy(Get(s.params, "sprite")) ==>
            |r.entities| == |w.entities| + 2
            && r.entities[|w.entities| + 1] == Entity(w.nextUid + 1, SpriteBody(s.x as real, s.y as real, Get(s.params, "sprite"))))
      && (!Truthy(Get(s.params, "sprite")) ==> |r.entities| == |w.entities| + 1)
    // the spawning types append exactly one entity of their kind
    ensures s.kind in {Str("zomboid"), Str("sprite"), Str("pickup")} ==>
      && r.entries == w.entries
      && |r.entities| == |w.entities| + 1 && r.entities[..|w.entities|] == w.entities
      && r.entities[|w.entities|].uid == w.nextUid
      && (s.kind == Str("zomboid") ==> r.entities[|w.entities|].body == ZomboidBody(NewZomboid(s.x as real, s.y as real)))
      && (s.kind == Str("sprite") ==>
            r.entities[|w.entities|].body == SpriteBody(s.x as real, s.y as real, Get(s.params, "sprite")))
      && (s.kind == Str("pickup") ==>
            r.entities[|w.entities|].body == PickupBody(NewPickup(s.x as real, s.y as real, Get(s.params, "name"), Get(s.params, "sprite"))))
    // an unknown type changes nothing
    ensures s.kind !in {Str("entry"), Str("zomboid"), Str("level-transition"), Str("sprite"), Str("pickup")} ==> r == w
    // the player and everything already listed are left as they were
    ensures r == w.(entities := r.entities, entries := r.entries, nextUid := r.nextUid)
    ensures |r.entities| >= |w.entities| && r.entities[..|w.entities|] == w.entities
  {
    var x, y := s.x as real, s.y as real;
    if s.kind == Str("entry") then
      w.(entries := w.entries[EntryKey(s.params) := LevelEntry(s.x, s.y, EntryAngle(s.params))])
    else if s.kind == Str("zomboid") then
      Push(w, ZomboidBody(NewZomboid(x, y)))
    else if s.kind == Str("level-transition") then
      var t := NewTransition(x, y, Get(s.params, "to"), Get(s.params, "entry"));
      var t' := if Truthy(Get(s.params, "requires")) then t.(required := Get(s.params, "requires")) else t;
      var w1 := Push(w, TransitionBody(t'));
      if Truthy(Get(s.params, "sprite")) then Push(w1, SpriteBody(x, y, Get(s.params, "sprite"))) else w1
    else if s.kind == Str("sprite") then
      Push(w, SpriteBody(x, y, Get(s.params, "sprite")))
    else if s.kind == Str("pickup") then
      Push(w, PickupBody(NewPickup(x, y, Get(s.params, "name"), Get(s.params, "sprite"))))
    else w
  }

  /** The bodies a Special adds to the list, in order: none for an entry or an
      unknown type; a zomboid, a decorative sprite or a pickup for those types;
      a level transition followed, when `sprite` is set, by its sprite. */
  function Spawns(s: Special): seq<Body>
  {
    var x, y := s.x as real, s.y as real;
    if s.kind == Str("zomboid") then [ZomboidBody(NewZomboid(x, y))]
    else if s.kind == Str("level-transition") then
      var t := NewTransition(x, y, Get(s.params, "to"), Get(s.params, "entry"));
      var t' := if Truthy(Get(s.params, "requires")) then t.(required := Get(s.params, "requires")) else t;
      [TransitionBody(t')] + (if Truthy(Get(s.params, "sprite")) then [SpriteBody(x, y, Get(s.params, "sprite"))] else [])
    else if s.kind == Str("sprite") then [SpriteBody(x, y, Get(s.params, "sprite"))]
    else if s.kind == Str("pickup") then [PickupBody(NewPickup(x, y, Get(s.params, "name"), Get(s.params, "sprite")))]
    else []
  }

  /** The bodies a run of Specials adds, in order. */
  function SpawnsAll(ss: seq<Special>): seq<Body>
    decreases |ss|
  {
    if |ss| == 0 then [] else Spawns(ss[0]) + SpawnsAll(ss[1..])
  }

  /** Bodies given consecutive identities from `first`. */
  function Tagged(bs: seq<Body>, first: nat): (es: seq<Entity>)
    ensures |es| == |bs|
    ensures forall k :: 0 <= k < |bs| ==> es[k] == Entity(first + k, bs[k])
  {
    seq(|bs|, k requires 0 <= k < |bs| => Entity(first + k, bs[k]))
  }

  lemma TaggedAppend(a: seq<Body>, b: seq<Body>, first: nat)
    ensures Tagged(a + b, first) == Tagged(a, first) + Tagged(b, first + |a|)
  {
    var l, r := Tagged(a + b, first), Tagged(a, first) + Tagged(b, first + |a|);
    assert |l| == |r|;
    forall k | 0 <= k < |l|
      ensures l[k] == r[k]
    {
      if k >= |a| {
        assert r[k] == Tagged(b, first + |a|)[k - |a|];
      }
    }
  }

  /** Handling a run of Specials in two batches spawns the same bodies. */
  lemma {:induction false} SpawnsAllAppend(a: seq<Special>, b: seq<Special>)
    ensures SpawnsAll(a + b) == SpawnsAll(a) + SpawnsAll(b)
    decreases |a|
  {
    if |a| == 0 {
      assert a + b == b;
    } else {
      assert (a + b)[0] == a[0] && (a + b)[1..] == a[1..] + b;
      SpawnsAllAppend(a[1..], b);
    }
  }

  /** Is `s` an entry Special filed under `k`? */
  predicate IsEntryFor(s: Special, k: Value)
  {
    s.kind == Str("entry") && EntryKey(s.params) == k
  }

  /** The landing spot an entry Special records. */
  function EntryOf(s: Special): LevelEntry
  {
    LevelEntry(s.x, s.y, EntryAngle(s.params))
  }

  /** The entries a run of Specials records, a later one replacing an earlier
      one under the same key. */
  function EntryUpdates(ss: seq<Special>): map<Value, LevelEntry>
    decreases |ss|
  {
    if |ss| == 0 then map[]
    else
      EntryUpdate(ss[0]) + EntryUpdates(ss[1..])
  }

  /** A key is recorded iff some entry Special is filed under it. */
  lemma {:induction false} EntryRecordedIff(ss: seq<Special>, k: Value)
    ensures k in EntryUpdates(ss) <==> exists j :: 0 <= j < |ss| && IsEntryFor(ss[j], k)
    decreases |ss|
  {
    if |ss| > 0 {
      var rest := ss[1..];
      EntryRecordedIff(rest, k);
      assert EntryUpdates(ss) == EntryUpdate(ss[0]) + EntryUpdates(rest);
      assert k in EntryUpdate(ss[0]) <==> IsEntryFor(ss[0], k);
      if exists j :: 0 <= j < |ss| && IsEntryFor(ss[j], k) {
        var j :| 0 <= j < |ss| && IsEntryFor(ss[j], k);
        if j > 0 {
          assert rest[j - 1] == ss[j];
        }
      }
      if exists j :: 0 <= j < |rest| && IsEntryFor(rest[j], k) {
        var j :| 0 <= j < |rest| && IsEntryFor(rest[j], k);
        assert ss[j + 1] == rest[j];
      }
    }
  }

  /** The last entry Special filed under a key gives that key's spot. */
  lemma {:induction false} EntryFromLast(ss: seq<Special>, k: Value, j: nat)
    requires j < |ss| && IsEntryFor(ss[j], k)
    requires forall j' :: j < j' < |ss| ==> !IsEntryFor(ss[j'], k)
    ensures k in EntryUpdates(ss) && EntryUpdates(ss)[k] == EntryOf(ss[j])
    decreases |ss|
  {
    var rest := ss[1..];
    assert EntryUpdates(ss) == EntryUpdate(ss[0]) + EntryUpdates(rest);
    if j == 0 {
      EntryRecordedIff(rest, k);
      forall j1 | 0 <= j1 < |rest|
        ensures !IsEntryFor(rest[j1], k)
      {
        assert rest[j1] == ss[j1 + 1];
      }
      assert k !in EntryUpdates(rest);
    } else {
      forall j' | j - 1 < j' < |rest|
        ensures !IsEntryFor(rest[j'], k)
      {
        assert rest[j'] == ss[j' + 1];
      }
      assert rest[j - 1] == ss[j];
      EntryFromLast(rest, k, j - 1);
    }
  }

  /** A key is recorded iff some entry Special is filed under it, and it holds
      the spot of the last such Special. */
  lemma EntryUpdatesMeaning(ss: seq<Special>, k: Value)
    ensures k in EntryUpdates(ss) <==> exists j :: 0 <= j < |ss| && IsEntryFor(ss[j], k)
    ensures forall j :: 0 <= j < |ss| && IsEntryFor(ss[j], k)
                        && (forall j' :: j < j' < |ss| ==> !IsEntryFor(ss[j'], k)) ==>
                          k in EntryUpdates(ss) && EntryUpdates(ss)[k] == EntryOf(ss[j])
  {
    EntryRecordedIff(ss, k);
    forall j | 0 <= j < |ss| && IsEntryFor(ss[j], k) && (forall j' :: j < j' < |ss| ==> !IsEntryFor(ss[j'], k))
      ensures k in EntryUpdates(ss) && EntryUpdates(ss)[k] == EntryOf(ss[j])
    {
      EntryFromLast(ss, k, j);
    }
  }

  /** `handleSpecial` applied to the Specials in order: the spawned bodies are
      appended with consecutive fresh identities and the recorded entries are
      laid over the existing ones. */
  function HandleAll(w: World, ss: seq<Special>): (r: World)
    ensures r == w.(entities := r.entities, entries := r.entries, nextUid := r.nextUid)
    ensures r.entities == w.entities + Tagged(SpawnsAll(ss), w.nextUid)
    ensures r.nextUid == w.nextUid + |SpawnsAll(ss)|
    ensures r.entries == w.entries + EntryUpdates(ss)
    decreases |ss|
  {
    if |ss| == 0 then
      assert w.entities + Tagged([], w.nextUid) == w.entities;
      assert w.entries + map[] == w.entries;
      w
    else
      var w1 := HandleSpecial(w, ss[0]);
      HandleSpecialSpawns(w, ss[0]);
      var r := HandleAll(w1, ss[1..]);
      HandleAllStep(w, ss, w1, r);
      r
  }

  /** Composing the first Special's effect with the rest's. */
  lemma HandleAllStep(w: World, ss: seq<Special>, w1: World, r: World)
    requires |ss| > 0
    requires w1 == w.(entities := w1.entities, entries := w1.entries, nextUid := w1.nextUid)
    requires w1.entities == w.entities + Tagged(Spawns(ss[0]), w.nextUid)
    requires w1.nextUid == w.nextUid + |Spawns(ss[0])|
    requires w1.entries == w.entries + EntryUpdate(ss[0])
    requires r == w1.(entities := r.entities, entries := r.entries, nextUid := r.nextUid)
    requires r.entities == w1.entities + Tagged(SpawnsAll(ss[1..]), w1.nextUid)
    requires r.nextUid == w1.nextUid + |SpawnsAll(ss[1..])|
    requires r.entries == w1.entries + EntryUpdates(ss[1..])
    ensures r == w.(entities := r.entities, entries := r.entries, nextUid := r.nextUid)
    ensures r.entities == w.entities + Tagged(SpawnsAll(ss), w.nextUid)
    ensures r.nextUid == w.nextUid + |SpawnsAll(ss)|
    ensures r.entries == w.entries + EntryUpdates(ss)
  {
    assert SpawnsAll(ss) == Spawns(ss[0]) + SpawnsAll(ss[1..]);
    HandleAllStepEntities(w.entities, w.nextUid, ss, w1.entities, r.entities);
    HandleAllStepEntries(w.entries, ss, r.entries);
  }

  /** The recorded entry of one Special, if it is an entry. */
  function EntryUpdate(s: Special): map<Value, LevelEntry>
  {
    if s.kind == Str("entry") then map[EntryKey(s.params) := EntryOf(s)] else map[]
  }

  /** Composing the first Special's appended entities with the rest's. */
  lemma HandleAllStepEntities(es: seq<Entity>, n: nat, ss: seq<Special>, es1: seq<Entity>, r: seq<Entity>)
    requires |ss| > 0
    requires es1 == es + Tagged(Spawns(ss[0]), n)
    requires r == es1 + Tagged(SpawnsAll(ss[1..]), n + |Spawns(ss[0])|)
    ensures r == es + Tagged(SpawnsAll(ss), n)
  {
    TaggedAppend(Spawns(ss[0]), SpawnsAll(ss[1..]), n);
    assert SpawnsAll(ss) == Spawns(ss[0]) + SpawnsAll(ss[1..]);
  }

  /** Composing the first Special's recorded entry with the rest's. */
  lemma HandleAllStepEntries(m: map<Value, LevelEntry>, ss: seq<Special>, r: map<Value, LevelEntry>)
    requires |ss| > 0
    requires r == (m + EntryUpdate(ss[0])) + EntryUpdates(ss[1..])
    ensures r == m + EntryUpdates(ss)
  {
    MapUnionAssoc(m, EntryUpdate(ss[0]), EntryUpdates(ss[1..]));
  }

  lemma MapUnionAssoc<K, V>(a: map<K, V>, b: map<K, V>, c: map<K, V>)
    ensures (a + b) + c == a + (b + c)
  {
    var l, r := (a + b) + c, a + (b + c);
    assert l.Keys == r.Keys;
    forall k | k in l
      ensures l[k] == r[k]
    {
    }
  }

  /** One Special appends exactly its spawned bodies and records its entry. */
  lemma HandleSpecialSpawns(w: World, s: Special)
    ensures var r := HandleSpecial(w, s);
      && r == w.(entities := r.entities, entries := r.entries, nextUid := r.nextUid)
      && r.entities == w.entities + Tagged(Spawns(s), w.nextUid)
      && r.nextUid == w.nextUid + |Spawns(s)|
      && r.entries == w.entries + EntryUpdate(s)
  {
    var r := HandleSpecial(w, s);
    var bs := Spawns(s);
    if s.kind != Str("entry") {
      assert w.entries + map[] == w.entries;
    }
    if s.kind == Str("level-transition") && Truthy(Get(s.params, "sprite")) {
      assert |bs| == 2;
      assert r.entities == w.entities + [r.entities[|w.entities|], r.entities[|w.entities| + 1]];
    } else if |bs| == 1 {
      assert r.entities == w.entities + [r.entities[|w.entities|]];
    } else {
      assert r.entities == w.entities;
    }
  }

  /** Every entity has a distinct identity below `nextUid`. */
  ghost predicate UidsFresh(w: World)
  {
    && (forall j :: 0 <= j < |w.entities| ==> w.entities[j].uid < w.nextUid)
    && (forall j1, j2 :: 0 <= j1 < j2 < |w.entities| ==> w.entities[j1].uid != w.entities[j2].uid)
  }

  lemma {:induction false} HandleAllFresh(w: World, ss: seq<Special>)
    requires UidsFresh(w)
    ensures UidsFresh(HandleAll(w, ss))
    decreases |ss|
  {
    if |ss| > 0 {
      var w1 := HandleSpecial(w, ss[0]);
      assert UidsFresh(w1) by {
        var s := ss[0];
        if s.kind == Str("level-transition") {
          var t := NewTransition(s.x as real, s.y as real, Get(s.params, "to"), Get(s.params, "entry"));
          var t' := if Truthy(Get(s.params, "requires")) then t.(required := Get(s.params, "requires")) else t;
          var wa := Push(w, TransitionBody(t'));
          assert UidsFresh(wa);
        }
      }
      HandleAllFresh(w1, ss[1..]);
    }
  }

  /** The level's entry text as written in the metadata: absent, an array of
      JSON values, or a single string. */
  datatype EntryText = NoText | TextLines(lines: seq<Value>) | TextString(text: string)

  /** How the overlay shows one element of an entry-text array. */
  function LineOf(v: Value): OverlayLine
  {
    if v.Str? then Plain(v.s) else Shown(v)
  }

  /** The overlay lines the constructor shows for the entry text, as the code
      is written: the filtered value computed first is overwritten by the raw
      metadata value, so an array keeps its non-string elements and a string
      is kept as a string, which the overlay's `for ... of` walks character by
      character. */
  function EntryOverlayAsWritten(t: EntryText): (o: Option<Overlay>)
    ensures t.TextString? && t.text != "" ==>
      o.Some? && |o.value.lines| == |t.text|
      && forall k :: 0 <= k < |t.text| ==> o.value.lines[k] == Plain([t.text[k]])
    ensures t.TextLines? ==>
      o.Some? && |o.value.lines| == |t.lines|
      && forall k :: 0 <= k < |t.lines| ==> o.value.lines[k] == LineOf(t.lines[k])
  {
    match t
    case NoText => None
    case TextLines(vs) => Some(Overlay(8.0, seq(|vs|, k requires 0 <= k < |vs| => LineOf(vs[k]))))
    case TextString(s) =>
      if s == "" then None else Some(Overlay(8.0, seq(|s|, k requires 0 <= k < |s| => Plain([s[k]]))))
  }

  /** A two-character entry text shows as two one-character lines. */
  lemma EntryTextSplitIntoCharacters()
    ensures EntryOverlayAsWritten(TextString("Hi")).value.lines == [Plain("H"), Plain("i")]
    ensures EntryOverlayAsWritten(TextString("Hi")).value.lines != [Plain("Hi")]
  {
    var ls := EntryOverlayAsWritten(TextString("Hi")).value.lines;
    assert ls[0] == Plain("H");
    assert ls[1] == Plain("i");
  }

  /** A number in an entry-text array is shown, where the filter meant to
      drop it. */
  lemma EntryArrayKeepsNonStrings()
    ensures EntryOverlayAsWritten(TextLines([Str("a"), Num(1.0)])).value.lines == [Plain("a"), Shown(Num(1.0))]
    ensures EntryOverlay(TextLines([Str("a"), Num(1.0)])).value.lines == [Plain("a")]
  {
    var ls := EntryOverlayAsWritten(TextLines([Str("a"), Num(1.0)])).value.lines;
    assert ls[0] == Plain("a") && ls[1] == Shown(Num(1.0));
    assert StringsOf([Num(1.0)]) == [];
    assert [Str("a"), Num(1.0)][1..] == [Num(1.0)];
  }

  /** `lines.filter(x => typeof x == "string")`: the string elements, in order. */
  function StringsOf(vs: seq<Value>): (r: seq<string>)
    ensures |r| <= |vs|
    ensures forall t :: t in r <==> Str(t) in vs
    ensures (forall k :: 0 <= k < |vs| ==> vs[k].Str?) ==>
      |r| == |vs| && forall k :: 0 <= k < |r| ==> r[k] == vs[k].s
    decreases |vs|
  {
    if |vs| == 0 then []
    else
      var rest := StringsOf(vs[1..]);
      assert forall v :: v in vs <==> v == vs[0] || v in vs[1..];
      if vs[0].Str? then [vs[0].s] + rest else rest
  }

  /** The overlay the constructor evidently intends: a string entry text,
      even an empty one, is wrapped as the single line it is, and an array
      keeps its string elements; either is a (truthy) array, so an overlay is
      shown whenever the metadata has entry text. */
  function EntryOverlay(t: EntryText): (o: Option<Overlay>)
    ensures t.TextString? ==> o == Some(Overlay(8.0, [Plain(t.text)]))
    ensures t.TextLines? ==>
      var ls := StringsOf(t.lines);
      (o.Some? && o.value.timer == 8.0 && |o.value.lines| == |ls|
       && forall k :: 0 <= k < |ls| ==> o.value.lines[k] == Plain(ls[k]))
    ensures o.None? <==> t.NoText?
  {
    match t
    case NoText => None
    case TextLines(vs) =>
      var ls := StringsOf(vs);
      Some(Overlay(8.0, seq(|ls|, k requires 0 <= k < |ls| => Plain(ls[k]))))
    case TextString(s) => Some(Overlay(8.0, [Plain(s)]))
  }

  /** Where the correction matters: with no text, or an array holding only
      strings, the code as written and the intended reading agree; an array
      holding a non-string, or a string of two or more characters, tells them
      apart. */
  lemma CorrectionScope(t: EntryText)
    ensures t.NoText? ==> EntryOverlayAsWritten(t) == EntryOverlay(t)
    ensures t.TextLines? && (forall k :: 0 <= k < |t.lines| ==> t.lines[k].Str?) ==>
      EntryOverlayAsWritten(t) == EntryOverlay(t)
    ensures t.TextLines? && (exists k :: 0 <= k < |t.lines| && !t.lines[k].Str?) ==>
      EntryOverlayAsWritten(t) != EntryOverlay(t)
    ensures t.TextString? && |t.text| >= 2 ==> EntryOverlayAsWritten(t) != EntryOverlay(t)
  {
    if t.TextString? && |t.text| >= 2 {
      assert |EntryOverlayAsWritten(t).value.lines| == |t.text|;
    }
    if t.TextLines? {
      var a, b := EntryOverlayAsWritten(t).value.lines, EntryOverlay(t).value.lines;
      if forall k :: 0 <= k < |t.lines| ==> t.lines[k].Str? {
        assert a == b;
      }
      if exists k :: 0 <= k < |t.lines| && !t.lines[k].Str? {
        var k :| 0 <= k < |t.lines| && !t.lines[k].Str?;
        assert a[k] == Shown(t.lines[k]);
        assert forall m :: 0 <= m < |b| ==> b[m].Plain?;
      }
    }
  }

  /** `new Game(canvas, level, keys, transition)`: the player first, then the
      Specials handled in order. */
  function NewGame(lv: LevelData, text: EntryText, keys: set<string>): (w: World)
    ensures |w.entities| >= 1 && w.entities[0] == Entity(PlayerUid, PlayerBody)
    ensures w.player == NewPlayer() && w.grid == lv.grid && w.requests == [] && w.keys == keys
    ensures w.overlay == EntryOverlay(text)
    ensures UidsFresh(w)
    // then every Special's bodies in order, with identities 1, 2, ...
    ensures w.entities == [Entity(PlayerUid, PlayerBody)] + Tagged(SpawnsAll(lv.specials), PlayerUid + 1)
    ensures w.entries == EntryUpdates(lv.specials)
  {
    var w0 := World(lv.grid, NewPlayer(), [Entity(PlayerUid, PlayerBody)], map[], EntryOverlay(text),
                    keys, [], PlayerUid + 1, 0);
    var w := HandleAll(w0, lv.specials);
    HandleAllFresh(w0, lv.specials);
    assert map[] + EntryUpdates(lv.specials) == EntryUpdates(lv.specials);
    w.(overlay := EntryOverlay(text))
  }

  // ---------------------------------------------------------------------
  // One entity's update
  // ---------------------------------------------------------------------

  /** What every entity update keeps: the level, the entry map and the keys;
      the identity and kind of every listed entity; requests only grow; a dead
      player stays dead; and at most one projectile is appended, only by an
      entity that can fire, with a fresh identity. */
  ghost predicate StepShape(w: World, r: World, i: nat)
    requires i < |w.entities|
  {
    && r.grid == w.grid && r.entries == w.entries && r.keys == w.keys
    && |w.requests| <= |r.requests| && r.requests[..|w.requests|] == w.requests
    && (w.player.dead ==> r.player.dead)
    && |r.entities| >= |w.entities|
    && (forall j :: 0 <= j < |w.entities| ==>
          r.entities[j].uid == w.entities[j].uid
          && KindOf(r.entities[j].body) == KindOf(w.entities[j].body))
    && ((|r.entities| == |w.entities| && r.nextUid == w.nextUid)
        || (&& |r.entities| == |w.entities| + 1 && r.nextUid == w.nextUid + 1
            && Spawner(w.entities[i].body)
            && r.entities[|w.entities|].uid == w.nextUid
            && r.entities[|w.entities|].body.ProjectileBody?))
  }

  /** Appends the projectile of a shot, if any, owned by `owner`. */
  function Fire(w: World, shot: Option<Shot>, owner: nat): (r: World)
    ensures shot.None? ==> r == w
    ensures shot.Some? ==> r == Push(w, ProjectileBody(NewProjectile(shot.value, owner)))
  {
    if shot.Some? then Push(w, ProjectileBody(NewProjectile(shot.value, owner))) else w
  }

  /** The view the projectile scan has of the list. */
  function Views(w: World): (ts: seq<TargetView>)
    ensures |ts| == |w.entities|
    ensures forall k :: 0 <= k < |ts| ==>
      ts[k] == TargetView(w.entities[k].uid, Hurtable(w.entities[k].body), Dying(w.entities[k].body),
                          PosOf(w, w.entities[k]).0, PosOf(w, w.entities[k]).1)
  {
    seq(|w.entities|, k requires 0 <= k < |w.entities| =>
      TargetView(w.entities[k].uid, Hurtable(w.entities[k].body), Dying(w.entities[k].body),
                 PosOf(w, w.entities[k]).0, PosOf(w, w.entities[k]).1))
  }

  /** `entity.hurt(game)` on the k-th entity. */
  function HurtAt(w: World, k: nat): (r: World)
    requires k < |w.entities|
    ensures |r.entities| == |w.entities| && r.nextUid == w.nextUid
    ensures forall j :: 0 <= j < |w.entities| && j != k ==> r.entities[j] == w.entities[j]
    ensures r.entities[k].uid == w.entities[k].uid
    ensures KindOf(r.entities[k].body) == KindOf(w.entities[k].body)
    ensures r == w.(entities := r.entities, player := r.player)
    ensures w.player.dead ==> r.player.dead
  {
    var e := w.entities[k];
    match e.body
    case PlayerBody => w.(player := HurtPlayer(w.player))
    case ZomboidBody(z) => w.(entities := w.entities[k := Entity(e.uid, ZomboidBody(HurtZomboid(z)))])
    case EnemyBody(en) => w.(entities := w.entities[k := Entity(e.uid, EnemyBody(HurtEnemy(en)))])
    case _ => w
  }

  /** `Player.update`: the player moves, turns and may fire; a shot becomes a
      projectile owned by the player, appended at the end of the list. */
  function StepPlayer(env: Env, w: World, i: nat, dt: real): (r: World)
    requires i < |w.entities| && w.entities[i].body.PlayerBody? && w.grid.Valid()
    ensures StepShape(w, r, i)
    ensures var (p, shot) := UpdatePlayer(w.grid, w.player, w.keys, dt, env.sin, env.cos);
      && r.player == p && r.entities[..|w.entities|] == w.entities
      && (shot.None? <==> |r.entities| == |w.entities|)
      && (shot.Some? ==>
            r.entities[|w.entities|] == Entity(w.nextUid, ProjectileBody(NewProjectile(shot.value, w.entities[i].uid))))
  {
    var (p, shot) := UpdatePlayer(w.grid, w.player, w.keys, dt, env.sin, env.cos);
    Fire(w.(player := p), shot, w.entities[i].uid)
  }

  /** `Zomboid.update`: the zomboid measures the distance to the player with
      `Math.hypot` and sees the player iff the raycast from its position toward
      the player, over exactly that distance, hits nothing. It takes one random
      draw, and a shot becomes a projectile it owns at the end of the list. */
  function StepZomboid(env: Env, w: World, i: nat, dt: real): (r: World)
    requires i < |w.entities| && w.entities[i].body.ZomboidBody? && w.grid.Valid()
    ensures StepShape(w, r, i)
    ensures var z := w.entities[i].body.z;
      var dx := w.player.x - z.x;
      var dy := w.player.y - z.y;
      var dist := env.hypot(dx, dy);
      assert dist == 0.0 ==> Iterations(dist) == 0;
      var (z', shot) := UpdateZomboid(w.grid, z, dt, dx, dy, dist, Raycast(w.grid, z.x, z.y, dx, dy, dist, dist),
                                      env.random(w.draws));
      && r.entities[i] == Entity(w.entities[i].uid, ZomboidBody(z'))
      && (forall j :: 0 <= j < |w.entities| && j != i ==> r.entities[j] == w.entities[j])
      && r.player == w.player && r.draws == w.draws + 1
      && (shot.None? <==> |r.entities| == |w.entities|)
      && (shot.Some? ==>
            r.entities[|w.entities|] == Entity(w.nextUid, ProjectileBody(NewProjectile(shot.value, w.entities[i].uid))))
  {
    var e := w.entities[i];
    var z := e.body.z;
    var distX := w.player.x - z.x;
    var distY := w.player.y - z.y;
    var dist := env.hypot(distX, distY);
    assert dist == 0.0 ==> Iterations(dist) == 0;
    var hit := Raycast(w.grid, z.x, z.y, distX, distY, dist, dist);
    var (z', shot) := UpdateZomboid(w.grid, z, dt, distX, distY, dist, hit, env.random(w.draws));
    var w1 := w.(entities := w.entities[i := Entity(e.uid, ZomboidBody(z'))], draws := w.draws + 1);
    Fire(w1, shot, e.uid)
  }

  /** `Enemy.update`: distance by `Math.hypot`, one random draw, and a shot
      becomes a projectile it owns at the end of the list. */
  function StepEnemy(env: Env, w: World, i: nat, dt: real): (r: World)
    requires i < |w.entities| && w.entities[i].body.EnemyBody? && w.grid.Valid()
    ensures StepShape(w, r, i)
    ensures var en := w.entities[i].body.e;
      var dx := w.player.x - en.x;
      var dy := w.player.y - en.y;
      var (en', shot) := UpdateEnemy(w.grid, en, dt, dx, dy, env.hypot(dx, dy), env.random(w.draws));
      && r.entities[i] == Entity(w.entities[i].uid, EnemyBody(en'))
      && (forall j :: 0 <= j < |w.entities| && j != i ==> r.entities[j] == w.entities[j])
      && r.player == w.player && r.draws == w.draws + 1
      && (shot.None? <==> |r.entities| == |w.entities|)
      && (shot.Some? ==>
            r.entities[|w.entities|] == Entity(w.nextUid, ProjectileBody(NewProjectile(shot.value, w.entities[i].uid))))
  {
    var e := w.entities[i];
    var en := e.body.e;
    var distX := w.player.x - en.x;
    var distY := w.player.y - en.y;
    var dist := env.hypot(distX, distY);
    var (en', shot) := UpdateEnemy(w.grid, en, dt, distX, distY, dist, env.random(w.draws));
    var w1 := w.(entities := w.entities[i := Entity(e.uid, EnemyBody(en'))], draws := w.draws + 1);
    Fire(w1, shot, e.uid)
  }

  /** `Projectile.update`: the projectile moves, and the entity its scan of
      the list picks, never the projectile itself, is hurt; everything else is
      left alone. */
  function StepProjectile(env: Env, w: World, i: nat, dt: real): (r: World)
    requires i < |w.entities| && w.entities[i].body.ProjectileBody? && w.grid.Valid()
    ensures StepShape(w, r, i)
    ensures |r.entities| == |w.entities|
    ensures var e := w.entities[i];
      var o := UpdateProjectile(w.grid, e.body.p, dt, Views(w), env.hypot);
      && r.entities[i] == Entity(e.uid, ProjectileBody(o.p))
      && (o.target.None? ==> r == w.(entities := w.entities[i := r.entities[i]]))
      && (o.target.Some? ==>
            var t := o.target.value;
            && t < |w.entities| && t != i
            && Hurtable(w.entities[t].body) && !Dying(w.entities[t].body)
            && w.entities[t].uid != e.body.p.owner
            && (forall j :: 0 <= j < |w.entities| && j != i && j != t ==> r.entities[j] == w.entities[j])
            && match w.entities[t].body
               case PlayerBody => r.player == HurtPlayer(w.player)
               case ZomboidBody(z) =>
                 r.entities[t] == Entity(w.entities[t].uid, ZomboidBody(HurtZomboid(z))) && r.player == w.player
               case EnemyBody(en) =>
                 r.entities[t] == Entity(w.entities[t].uid, EnemyBody(HurtEnemy(en))) && r.player == w.player
               case _ => false)
  {
    var e := w.entities[i];
    var o := UpdateProjectile(w.grid, e.body.p, dt, Views(w), env.hypot);
    var w1 := w.(entities := w.entities[i := Entity(e.uid, ProjectileBody(o.p))]);
    if o.target.Some? then HurtAt(w1, o.target.value) else w1
  }

  /** `Pickup.update`: the pickup, the player's inventory and the overlay as
      the pickup's update leaves them; no other entity changes. */
  function StepPickup(w: World, i: nat, dt: real): (r: World)
    requires i < |w.entities| && w.entities[i].body.PickupBody?
    ensures StepShape(w, r, i)
    ensures |r.entities| == |w.entities|
    ensures var (pk, pl, ov) := UpdatePickup(w.entities[i].body.pk, dt, w.player, w.overlay);
      && r.entities[i] == Entity(w.entities[i].uid, PickupBody(pk))
      && r.player == pl && r.overlay == ov
      && (forall j :: 0 <= j < |w.entities| && j != i ==> r.entities[j] == w.entities[j])
  {
    var e := w.entities[i];
    var (pk, pl, ov) := UpdatePickup(e.body.pk, dt, w.player, w.overlay);
    w.(entities := w.entities[i := Entity(e.uid, PickupBody(pk))], player := pl, overlay := ov)
  }

  /** `LevelTransition.update`: the player as the transition leaves it, and
      its request, if any, appended to the log; the list is untouched. */
  function StepTransition(w: World, i: nat): (r: World)
    requires i < |w.entities| && w.entities[i].body.TransitionBody?
    ensures StepShape(w, r, i)
    ensures |r.entities| == |w.entities|
    ensures var (pl, req) := UpdateTransition(w.entities[i].body.t, w.player);
      && r.player == pl && r.entities == w.entities
      && (req.None? ==> r.requests == w.requests)
      && (req.Some? ==> r.requests == w.requests + [req.value])
  {
    var (pl, req) := UpdateTransition(w.entities[i].body.t, w.player);
    w.(player := pl, requests := w.requests + (if req.Some? then [req.value] else []))
  }

  /** `if (entity.update) entity.update(game, dt)` for the i-th entity. */
  function UpdateEntity(env: Env, w: World, i: nat, dt: real): (r: World)
    requires i < |w.entities| && w.grid.Valid()
    ensures StepShape(w, r, i)
    // each kind runs its own update; a decorative sprite has none
    ensures w.entities[i].body.PlayerBody? ==> r == StepPlayer(env, w, i, dt)
    ensures w.entities[i].body.ZomboidBody? ==> r == StepZomboid(env, w, i, dt)
    ensures w.entities[i].body.EnemyBody? ==> r == StepEnemy(env, w, i, dt)
    ensures w.entities[i].body.ProjectileBody? ==> r == StepProjectile(env, w, i, dt)
    ensures w.entities[i].body.PickupBody? ==> r == StepPickup(w, i, dt)
    ensures w.entities[i].body.TransitionBody? ==> r == StepTransition(w, i)
    ensures w.entities[i].body.SpriteBody? ==> r == w
  {
    match w.entities[i].body
    case PlayerBody => StepPlayer(env, w, i, dt)
    case ZomboidBody(_) => StepZomboid(env, w, i, dt)
    case EnemyBody(_) => StepEnemy(env, w, i, dt)
    case ProjectileBody(_) => StepProjectile(env, w, i, dt)
    case PickupBody(_) => StepPickup(w, i, dt)
    case TransitionBody(_) => StepTransition(w, i)
    case SpriteBody(_, _, _) => w
  }

  // ---------------------------------------------------------------------
  // The update pass
  // ---------------------------------------------------------------------

  /** The identities of a list, in order. */
  function Uids(es: seq<Entity>): (us: seq<nat>)
    ensures |us| == |es| && forall k :: 0 <= k < |es| ==> us[k] == es[k].uid
  {
    seq(|es|, k requires 0 <= k < |es| => es[k].uid)
  }

  /** The identities allocated between two counter values. */
  function Allocated(a: nat, b: nat): multiset<nat>
    decreases if a < b then b - a else 0
  {
    if a >= b then multiset{} else multiset{a} + Allocated(a + 1, b)
  }

  /** Slot i taken over by the last element, which is popped. */
  function Swapped(w: World, i: nat): (r: World)
    requires i < |w.entities|
    ensures |r.entities| == |w.entities| - 1
    ensures r == w.(entities := r.entities)
    ensures i < |w.entities| - 1 ==> r.entities[i] == w.entities[|w.entities| - 1]
    ensures forall j :: 0 <= j < |r.entities| && j != i ==> r.entities[j] == w.entities[j]
  {
    var n := |w.entities|;
    if i == n - 1 then w.(entities := w.entities[..i])
    else w.(entities := w.entities[..n - 1][i := w.entities[n - 1]])
  }

  /** The result of visiting one slot of the list. */
  datatype Visit = Visit(w: World, removed: Option<Entity>, stop: bool)

  /** One iteration of the loop in `update`: a dead entity is removed when it
      is visited, by popping it if it is last (ending the pass) or by moving the
      last element into its slot; the entity now in the slot is then updated
      without its `dead` flag being looked at again. */
  function VisitSlot(env: Env, w: World, i: nat, dt: real): (v: Visit)
    requires i < |w.entities| && w.grid.Valid()
  {
    var e := w.entities[i];
    var n := |w.entities|;
    if !Dead(w, e) then Visit(UpdateEntity(env, w, i, dt), None, false)
    else if i == n - 1 then Visit(w.(entities := w.entities[..i]), Some(e), true)
    else Visit(UpdateEntity(env, Swapped(w, i), i, dt), Some(e), false)
  }

  /** A visit removes only the entity it finds dead, and a swapped-in entity is
      updated in its new slot even if it is dead itself: it is not removed on
      this pass. */
  lemma VisitRemovesOnlyTheDead(env: Env, w: World, i: nat, dt: real)
    requires i < |w.entities| && w.grid.Valid()
    ensures var v := VisitSlot(env, w, i, dt);
      && (v.removed.Some? <==> Dead(w, w.entities[i]))
      && (v.removed.Some? ==> v.removed.value == w.entities[i])
      && (v.stop <==> Dead(w, w.entities[i]) && i == |w.entities| - 1)
      && (v.stop ==> v.w.entities == w.entities[..i])
      && (v.removed.Some? && !v.stop ==>
            && |v.w.entities| >= |w.entities| - 1
            && v.w.entities[i].uid == w.entities[|w.entities| - 1].uid)
      && (v.removed.None? ==> v.w.entities[i].uid == w.entities[i].uid)
  {
  }

  /** The weight of a list for the termination of the pass: an entity that can
      fire counts 2, any other 1, so an update that appends a projectile still
      lowers the weight of what is left to visit. */
  function Weight(es: seq<Entity>): nat
  {
    if |es| == 0 then 0 else (if Spawner(es[0].body) then 2 else 1) + Weight(es[1..])
  }

  lemma {:induction false} WeightAppend(a: seq<Entity>, b: seq<Entity>)
    ensures Weight(a + b) == Weight(a) + Weight(b)
    decreases |a|
  {
    if |a| > 0 {
      assert (a + b)[0] == a[0];
      assert (a + b)[1..] == a[1..] + b;
      WeightAppend(a[1..], b);
    } else {
      assert a + b == b;
    }
  }

  lemma {:induction false} WeightByKind(a: seq<Entity>, b: seq<Entity>)
    requires |a| == |b|
    requires forall j :: 0 <= j < |a| ==> KindOf(a[j].body) == KindOf(b[j].body)
    ensures Weight(a) == Weight(b)
    decreases |a|
  {
    if |a| > 0 {
      assert KindOf(a[0].body) == KindOf(b[0].body);
      assert forall j :: 0 <= j < |a| - 1 ==> a[1..][j] == a[j + 1] && b[1..][j] == b[j + 1];
      WeightByKind(a[1..], b[1..]);
      assert Weight(a) == (if Spawner(a[0].body) then 2 else 1) + Weight(a[1..]);
      assert Weight(b) == (if Spawner(b[0].body) then 2 else 1) + Weight(b[1..]);
    }
  }

  /** An update at slot i lowers the weight of the slots from i on to below
      that of the slots from i on before it. */
  lemma UpdateLowersWeight(w: World, r: World, i: nat)
    requires i < |w.entities| && StepShape(w, r, i)
    ensures Weight(r.entities[i + 1..]) < Weight(w.entities[i..])
  {
    var n := |w.entities|;
    assert w.entities[i..] == [w.entities[i]] + w.entities[i + 1..];
    WeightAppend([w.entities[i]], w.entities[i + 1..]);
    WeightByKind(r.entities[i + 1..n], w.entities[i + 1..]);
    if |r.entities| == n + 1 {
      assert r.entities[i + 1..] == r.entities[i + 1..n] + [r.entities[n]];
      WeightAppend(r.entities[i + 1..n], [r.entities[n]]);
    } else {
      assert r.entities[i + 1..] == r.entities[i + 1..n];
    }
  }

  /** Moving the last element into slot i and popping keeps every other
      identity and drops the one in slot i. */
  lemma UidsAppend(a: seq<Entity>, b: seq<Entity>)
    ensures Uids(a + b) == Uids(a) + Uids(b)
  {
  }

  lemma SwapRemoveUids(es: seq<Entity>, i: nat)
    requires i < |es| - 1
    ensures var es' := es[..|es| - 1][i := es[|es| - 1]];
      multiset(Uids(es')) + multiset{es[i].uid} == multiset(Uids(es))
  {
    var n := |es|;
    var es' := es[..n - 1][i := es[n - 1]];
    var a, m, b, z := es[..i], [es[i]], es[i + 1..n - 1], [es[n - 1]];
    assert es == (a + m) + (b + z);
    assert es' == a + (z + b);
    UidsAppend(a + m, b + z);
    UidsAppend(a, m);
    UidsAppend(b, z);
    UidsAppend(a, z + b);
    UidsAppend(z, b);
  }

  lemma StepKeepsUids(w: World, r: World, i: nat)
    requires i < |w.entities| && StepShape(w, r, i)
    ensures multiset(Uids(r.entities)) == multiset(Uids(w.entities)) + Allocated(w.nextUid, r.nextUid)
  {
    var n := |w.entities|;
    assert Uids(r.entities[..n]) == Uids(w.entities);
    if |r.entities| == n + 1 {
      assert r.entities == r.entities[..n] + [r.entities[n]];
      assert Uids(r.entities) == Uids(r.entities[..n]) + [w.nextUid];
      assert Allocated(w.nextUid, r.nextUid) == multiset{w.nextUid};
    } else {
      assert r.entities == r.entities[..n];
    }
  }

  lemma AllocatedSplit(a: nat, b: nat, c: nat)
    requires a <= b <= c
    ensures Allocated(a, c) == Allocated(a, b) + Allocated(b, c)
    decreases b - a
  {
    if a < b {
      AllocatedSplit(a + 1, b, c);
    }
  }

  /** The bookkeeping facts the update loop keeps across one visit. */
  ghost predicate VisitKeeps(w: World, i: nat, v: Visit)
    requires i < |w.entities|
  {
    && v.w.grid == w.grid && v.w.entries == w.entries && v.w.keys == w.keys
    && |w.requests| <= |v.w.requests| && v.w.requests[..|w.requests|] == w.requests
    && (w.player.dead ==> v.w.player.dead)
    && v.w.nextUid >= w.nextUid
    && (v.removed.Some? ==> v.removed.value == w.entities[i] && Dead(w, w.entities[i]))
    && multiset(Uids(v.w.entities)) + (if v.removed.Some? then multiset{w.entities[i].uid} else multiset{})
       == multiset(Uids(w.entities)) + Allocated(w.nextUid, v.w.nextUid)
    && (v.stop ==> |v.w.entities| == i)
    && (!v.stop ==> i < |v.w.entities| && Weight(v.w.entities[i + 1..]) < Weight(w.entities[i..]))
  }

  /** Visiting a live entity: it is updated in place. */
  lemma VisitLive(w: World, i: nat, updated: World)
    requires i < |w.entities| && !Dead(w, w.entities[i]) && StepShape(w, updated, i)
    ensures VisitKeeps(w, i, Visit(updated, None, false))
  {
    StepKeepsUids(w, updated, i);
    UpdateLowersWeight(w, updated, i);
  }

  /** Visiting a dead last entity: it is popped and the pass ends. */
  lemma VisitPop(w: World, i: nat)
    requires i == |w.entities| - 1 && Dead(w, w.entities[i])
    ensures VisitKeeps(w, i, Visit(w.(entities := w.entities[..i]), Some(w.entities[i]), true))
  {
    var e := w.entities[i];
    assert w.entities == w.entities[..i] + [e];
    assert Uids(w.entities) == Uids(w.entities[..i]) + [e.uid];
  }

  /** Visiting a dead entity that is not last: the last one takes its slot
      and is updated there. */
  lemma VisitSwap(w: World, i: nat, updated: World)
    requires i < |w.entities| - 1 && Dead(w, w.entities[i]) && StepShape(Swapped(w, i), updated, i)
    ensures VisitKeeps(w, i, Visit(updated, Some(w.entities[i]), false))
  {
    var w1 := Swapped(w, i);
    var n := |w.entities|;
    assert w1.entities == w.entities[..n - 1][i := w.entities[n - 1]];
    SwapRemoveUids(w.entities, i);
    StepKeepsUids(w1, updated, i);
    SwapLowersWeight(w.entities, i);
    UpdateLowersWeight(w1, updated, i);
  }

  lemma SwapLowersWeight(es: seq<Entity>, i: nat)
    requires i < |es| - 1
    ensures Weight(es[..|es| - 1][i := es[|es| - 1]][i..]) < Weight(es[i..])
  {
    var n := |es|;
    var e := es[i];
    var es1 := es[..n - 1][i := es[n - 1]];
    assert es[i..] == [e] + es[i + 1..];
    WeightAppend([e], es[i + 1..]);
    assert es1[i..] == [es[n - 1]] + es[i + 1..n - 1];
    assert es[i + 1..] == es[i + 1..n - 1] + [es[n - 1]];
    WeightAppend([es[n - 1]], es[i + 1..n - 1]);
    WeightAppend(es[i + 1..n - 1], [es[n - 1]]);
  }

  /** The invariant of the update loop, against the world `w` it started from. */
  ghost predicate PassInv(w: World, r: World, removed: seq<Entity>)
  {
    && r.grid == w.grid && r.entries == w.entries && r.keys == w.keys
    && |w.requests| <= |r.requests| && r.requests[..|w.requests|] == w.requests
    && (w.player.dead ==> r.player.dead)
    && r.nextUid >= w.nextUid
    && (forall k :: 0 <= k < |removed| ==> Dead(r, removed[k]))
    && multiset(Uids(r.entities)) + multiset(Uids(removed))
       == multiset(Uids(w.entities)) + Allocated(w.nextUid, r.nextUid)
  }

  /** The removal log after a visit. */
  function LogRemoval(removed: seq<Entity>, v: Visit): seq<Entity>
  {
    if v.removed.Some? then removed + [v.removed.value] else removed
  }

  lemma PassStep(w: World, r: World, removed: seq<Entity>, i: nat, v: Visit)
    requires i < |r.entities| && PassInv(w, r, removed) && VisitKeeps(r, i, v)
    ensures PassInv(w, v.w, LogRemoval(removed, v))
  {
    AllocatedSplit(w.nextUid, r.nextUid, v.w.nextUid);
    var gone := if v.removed.Some? then multiset{r.entities[i].uid} else multiset{};
    var removed' := LogRemoval(removed, v);
    if v.removed.Some? {
      assert Uids(removed') == Uids(removed) + [r.entities[i].uid];
    }
    assert multiset(Uids(removed')) == multiset(Uids(removed)) + gone;
    calc {
      multiset(Uids(v.w.entities)) + multiset(Uids(removed'));
      multiset(Uids(v.w.entities)) + gone + multiset(Uids(removed));
      multiset(Uids(r.entities)) + Allocated(r.nextUid, v.w.nextUid) + multiset(Uids(removed));
      multiset(Uids(w.entities)) + Allocated(w.nextUid, r.nextUid) + Allocated(r.nextUid, v.w.nextUid);
    }
    assert v.w.requests[..|w.requests|] == v.w.requests[..|r.requests|][..|w.requests|];
    forall k | 0 <= k < |removed'|
      ensures Dead(v.w, removed'[k])
    {
      if k < |removed| {
        assert Dead(r, removed[k]);
      }
    }
  }

  /** The update loop of `Game.update`. Visits slots 0, 1, ... while the index
      is below the list's current length (so entities appended during the pass
      are visited too). Returns the world after the pass, the entities
      removed in removal order, and the index the loop stopped at. */
  method UpdatePass(env: Env, w: World, dt: real) returns (r: World, removed: seq<Entity>, visited: nat)
    requires w.grid.Valid()
    // the loop runs to the end of the list as it is when the pass ends, so
    // every slot of the final list, appended ones included, was visited
    ensures visited == |r.entities|
    // only entities whose dead flag was set are removed
    ensures forall k :: 0 <= k < |removed| ==> Dead(r, removed[k])
    // nothing is lost or invented: every identity is still listed or was
    // removed, plus the projectiles allocated during the pass
    ensures multiset(Uids(r.entities)) + multiset(Uids(removed))
            == multiset(Uids(w.entities)) + Allocated(w.nextUid, r.nextUid)
    ensures r.nextUid >= w.nextUid
    // the level, the entry points and the keys are untouched; requests only grow
    ensures r.grid == w.grid && r.entries == w.entries && r.keys == w.keys
    ensures |w.requests| <= |r.requests| && r.requests[..|w.requests|] == w.requests
    ensures w.player.dead ==> r.player.dead
  {
    r := w;
    removed := [];
    var i := 0;
    assert r.requests[..|w.requests|] == w.requests;
    while i < |r.entities|
      invariant i <= |r.entities| && r.grid == w.grid
      invariant PassInv(w, r, removed)
      decreases Weight(r.entities[i..])
    {
      var v := VisitSlot(env, r, i, dt);
      if !Dead(r, r.entities[i]) {
        VisitLive(r, i, v.w);
      } else if i == |r.entities| - 1 {
        VisitPop(r, i);
      } else {
        VisitSwap(r, i, v.w);
      }
      PassStep(w, r, removed, i, v);
      removed := LogRemoval(removed, v);
      r := v.w;
      if v.stop {
        break;
      }
      i := i + 1;
    }
    visited := i;
  }

  /** After the pass: a dead player triggers `levelTransition(null)`, and the
      overlay's countdown drops by dt, the overlay vanishing at or below zero. */
  function AfterPass(w: World, dt: real): (r: World)
    ensures w.player.dead ==> r.requests == w.requests + [Request(Null, Undefined)]
    ensures !w.player.dead ==> r.requests == w.requests
    ensures w.overlay.None? ==> r.overlay.None?
    ensures w.overlay.Some? ==>
      (r.overlay.None? <==> w.overlay.value.timer - dt <= 0.0)
      && (r.overlay.Some? ==> r.overlay.value == w.overlay.value.(timer := w.overlay.value.timer - dt))
    ensures r == w.(requests := r.requests, overlay := r.overlay)
  {
    var w1 := if w.player.dead then w.(requests := w.requests + [Request(Null, Undefined)]) else w;
    match w1.overlay
    case None => w1
    case Some(o) =>
      var t := o.timer - dt;
      if t <= 0.0 then w1.(overlay := None) else w1.(overlay := Some(o.(timer := t)))
  }

  /** `Game.update(dt)`: the pass, then the end-of-tick bookkeeping. */
  method Update(env: Env, w: World, dt: real) returns (r: World)
    requires w.grid.Valid()
    ensures r.grid == w.grid && r.entries == w.entries
    ensures |w.requests| <= |r.requests| && r.requests[..|w.requests|] == w.requests
    ensures w.player.dead ==>
      r.player.dead && |r.requests| > |w.requests| && r.requests[|r.requests| - 1] == Request(Null, Undefined)
    // a player dead at the end of the pass, even one killed during it, ends
    // the tick with `levelTransition(null)`
    ensures r.player.dead ==>
      |r.requests| > |w.requests| && r.requests[|r.requests| - 1] == Request(Null, Undefined)
  {
    var passed, _, _ := UpdatePass(env, w, dt);
    r := AfterPass(passed, dt);
  }

  // ---------------------------------------------------------------------
  // Render: depth buffer, culling and back-to-front order
  // ---------------------------------------------------------------------

  const ScreenWidth: int := 640

  /** A depth-buffer entry: Infinity or a distance. */
  datatype Depth = Infinity | Finite(d: real)

  /** The depth buffer from each column's raycast: Infinity on a miss, the
      raw hit distance (not the perspective-corrected one) on a hit. */
  function DepthBuffer(hits: seq<Option<RayHit>>): (db: seq<Depth>)
    ensures |db| == |hits|
    ensures forall x :: 0 <= x < |hits| ==> (db[x] == Infinity <==> hits[x].None?)
    ensures forall x :: 0 <= x < |hits| && hits[x].Some? ==> db[x] == Finite(hits[x].value.dist)
  {
    seq(|hits|, x requires 0 <= x < |hits| => if hits[x].None? then Infinity else Finite(hits[x].value.dist))
  }

  /** The depth entries the raycaster can produce are never negative. */
  lemma DepthNeverNegative(g: Grid, px: real, py: real, dirs: seq<(real, real)>, max: real)
    requires g.Valid()
    ensures var db := DepthBuffer(seq(|dirs|, x requires 0 <= x < |dirs| =>
                        Raycast(g, px, py, dirs[x].0, dirs[x].1, 1.0, max)));
      forall x :: 0 <= x < |db| && db[x].Finite? ==> 0.0 <= db[x].d < max
  {
  }

  /** A sprite to draw: its slot in the list, projected column and corrected distance. */
  datatype RenderItem = RenderItem(index: nat, column: int, dist: real)

  const ScreenFov: real := 80.0 * (Pi / 180.0)

  /** The screen column of the k-th entity and its distance corrected by the
      sine of the angle to the screen edge, as seen from the player. */
  function Project(env: Env, w: World, k: nat): (int, real)
    requires k < |w.entities|
  {
    var (ex, ey) := PosOf(w, w.entities[k]);
    var angle := AngleBetween(env.atan2, w.player.x, w.player.y, ex, ey);
    var ray := NormAngle(angle - w.player.angle + Pi / 2.0);
    var column := ((ray / ScreenFov + 0.5) * (ScreenWidth as real)).Floor;
    var realDist := env.hypot(w.player.x - ex, w.player.y - ey);
    var a := Pi / 2.0 - (if ray < 0.0 then -ray else ray);
    (column, env.sin(a) * realDist)
  }

  function Projections(env: Env, w: World): (proj: seq<(int, real)>)
    ensures |proj| == |w.entities|
  {
    seq(|w.entities|, k requires 0 <= k < |w.entities| => Project(env, w, k))
  }

  /** The sprites `render` draws, in drawing order. */
  function RenderList(env: Env, w: World): seq<RenderItem>
  {
    SortFarFirst(Cull(w, Projections(env, w), 0))
  }

  /** The projection's culling test: has `draw` and lands in [-20, 660). */
  predicate OnScreen(w: World, k: nat, proj: seq<(int, real)>)
    requires k < |w.entities| && |proj| == |w.entities|
  {
    Drawable(w.entities[k].body) && -20 <= proj[k].0 < ScreenWidth + 20
  }

  /** The entities from slot k on that survive culling, in list order. */
  function Cull(w: World, proj: seq<(int, real)>, k: nat): (items: seq<RenderItem>)
    requires |proj| == |w.entities| && k <= |w.entities|
    ensures forall j :: 0 <= j < |items| ==>
      && k <= items[j].index < |w.entities| && OnScreen(w, items[j].index, proj)
      && items[j] == RenderItem(items[j].index, proj[items[j].index].0, proj[items[j].index].1)
    ensures forall m :: k <= m < |w.entities| && OnScreen(w, m, proj) ==>
      exists j :: 0 <= j < |items| && items[j].index == m
    decreases |w.entities| - k
  {
    if k == |w.entities| then []
    else
      var rest := Cull(w, proj, k + 1);
      if OnScreen(w, k, proj) then
        var items := [RenderItem(k, proj[k].0, proj[k].1)] + rest;
        assert forall j :: 0 < j < |items| ==> items[j] == rest[j - 1];
        forall m | k <= m < |w.entities| && OnScreen(w, m, proj)
          ensures exists j :: 0 <= j < |items| && items[j].index == m
        {
          if m == k {
            assert items[0].index == m;
          } else {
            var j :| 0 <= j < |rest| && rest[j].index == m;
            assert items[j + 1].index == m;
          }
        }
        items
      else rest
  }

  /** Slots in strictly increasing list order. */
  predicate InListOrder(s: seq<RenderItem>)
  {
    forall j, j' :: 0 <= j < j' < |s| ==> s[j].index < s[j'].index
  }

  lemma InListOrderCons(h: RenderItem, s: seq<RenderItem>)
    requires InListOrder(s) && forall j :: 0 <= j < |s| ==> h.index < s[j].index
    ensures InListOrder([h] + s)
  {
    var r := [h] + s;
    forall j, j' | 0 <= j < j' < |r|
      ensures r[j].index < r[j'].index
    {
      assert r[j'] == s[j' - 1];
      if j > 0 {
        assert r[j] == s[j - 1];
      }
    }
  }

  /** Culling keeps list order, so no slot is listed twice: the loop in
      `render` visits each entity once. */
  lemma {:induction false} CullInListOrder(w: World, proj: seq<(int, real)>, k: nat)
    requires |proj| == |w.entities| && k <= |w.entities|
    ensures InListOrder(Cull(w, proj, k))
    ensures DistinctIndices(Cull(w, proj, k))
    decreases |w.entities| - k
  {
    if k < |w.entities| {
      CullInListOrder(w, proj, k + 1);
      var rest := Cull(w, proj, k + 1);
      if OnScreen(w, k, proj) {
        InListOrderCons(RenderItem(k, proj[k].0, proj[k].1), rest);
      }
    }
    var c := Cull(w, proj, k);
    assert forall j, j' :: 0 <= j < j' < |c| ==> c[j].index < c[j'].index;
  }

  /** Farthest first. */
  predicate FarFirst(s: seq<RenderItem>)
  {
    forall i, j :: 0 <= i < j < |s| ==> s[i].dist >= s[j].dist
  }

  /** No slot of the list appears twice. */
  predicate DistinctIndices(s: seq<RenderItem>)
  {
    forall i, j :: 0 <= i < j < |s| ==> s[i].index != s[j].index
  }

  /** Putting an item no nearer than the head in front keeps the order. */
  lemma FarFirstCons(h: RenderItem, s: seq<RenderItem>)
    requires FarFirst(s) && (|s| == 0 || h.dist >= s[0].dist)
    ensures FarFirst([h] + s)
  {
    var r := [h] + s;
    forall i, j | 0 <= i < j < |r|
      ensures r[i].dist >= r[j].dist
    {
      if i == 0 {
        assert r[j] == s[j - 1];
        assert s[0].dist >= s[j - 1].dist || j - 1 == 0;
      } else {
        assert r[i] == s[i - 1] && r[j] == s[j - 1];
      }
    }
  }

  /** Inserts an item before the first one that is not farther. */
  function Insert(x: RenderItem, s: seq<RenderItem>): (r: seq<RenderItem>)
    requires FarFirst(s)
    ensures FarFirst(r) && multiset(r) == multiset(s) + multiset{x}
    ensures |r| == |s| + 1 && (r[0] == x || (|s| > 0 && r[0] == s[0]))
    decreases |s|
  {
    if |s| == 0 || s[0].dist <= x.dist then
      FarFirstCons(x, s);
      [x] + s
    else
      assert s == [s[0]] + s[1..];
      var t := Insert(x, s[1..]);
      assert FarFirst(s[1..]) && (|s| == 1 || s[0].dist >= s[1].dist);
      FarFirstCons(s[0], t);
      [s[0]] + t
  }

  /** The `sort((a, b) => b.dist - a.dist)` of the render list. */
  function SortFarFirst(s: seq<RenderItem>): (r: seq<RenderItem>)
    ensures FarFirst(r) && multiset(r) == multiset(s)
    decreases |s|
  {
    if |s| == 0 then []
    else
      assert s == [s[0]] + s[1..];
      Insert(s[0], SortFarFirst(s[1..]))
  }

  lemma DistinctCons(h: RenderItem, t: seq<RenderItem>)
    requires DistinctIndices(t) && forall y :: y in t ==> y.index != h.index
    ensures DistinctIndices([h] + t)
  {
    var r := [h] + t;
    forall i, j | 0 <= i < j < |r|
      ensures r[i].index != r[j].index
    {
      assert r[j] == t[j - 1];
      if i > 0 {
        assert r[i] == t[i - 1];
      }
    }
  }

  lemma DistinctTail(s: seq<RenderItem>)
    requires |s| > 0 && DistinctIndices(s)
    ensures DistinctIndices(s[1..])
    ensures forall y :: y in s[1..] ==> y.index != s[0].index
  {
    forall i, j | 0 <= i < j < |s| - 1
      ensures s[1..][i].index != s[1..][j].index
    {
      assert s[1..][i] == s[i + 1] && s[1..][j] == s[j + 1];
    }
    forall y | y in s[1..]
      ensures y.index != s[0].index
    {
      var k :| 0 <= k < |s[1..]| && s[1..][k] == y;
      assert y == s[k + 1];
    }
  }

  /** Inserting an item whose slot is not yet listed keeps the slots distinct. */
  lemma {:induction false} InsertDistinct(x: RenderItem, s: seq<RenderItem>)
    requires FarFirst(s) && DistinctIndices(s)
    requires forall y :: y in s ==> y.index != x.index
    ensures DistinctIndices(Insert(x, s))
    decreases |s|
  {
    if |s| == 0 || s[0].dist <= x.dist {
      DistinctCons(x, s);
    } else {
      assert s == [s[0]] + s[1..];
      assert FarFirst(s[1..]);
      DistinctTail(s);
      InsertDistinct(x, s[1..]);
      var t := Insert(x, s[1..]);
      forall y | y in t
        ensures y.index != s[0].index
      {
        assert y in multiset(t);
        assert y == x || y in multiset(s[1..]);
      }
      DistinctCons(s[0], t);
    }
  }

  /** Sorting a list whose slots are distinct keeps them distinct. */
  lemma {:induction false} SortDistinct(s: seq<RenderItem>)
    requires DistinctIndices(s)
    ensures DistinctIndices(SortFarFirst(s))
    decreases |s|
  {
    if |s| > 0 {
      assert s == [s[0]] + s[1..];
      var rest := SortFarFirst(s[1..]);
      DistinctTail(s);
      SortDistinct(s[1..]);
      forall y | y in rest
        ensures y.index != s[0].index
      {
        assert y in multiset(s[1..]);
      }
      InsertDistinct(s[0], rest);
    }
  }

  /** Whatever the projections, culling and then sorting yields a permutation
      of the survivors of culling, farthest first, covering every visible slot. */
  lemma CullSortOrder(w: World, proj: seq<(int, real)>)
    requires |proj| == |w.entities|
    ensures var order := SortFarFirst(Cull(w, proj, 0));
      && FarFirst(order)
      && multiset(order) == multiset(Cull(w, proj, 0))
      && (forall j :: 0 <= j < |order| ==> order[j].index < |w.entities| && OnScreen(w, order[j].index, proj))
      && (forall m :: 0 <= m < |w.entities| && OnScreen(w, m, proj) ==>
            exists j :: 0 <= j < |order| && order[j].index == m)
  {
    var c := Cull(w, proj, 0);
    var order := SortFarFirst(c);
    SortedSurvivorsOnScreen(w, proj);
    SortedCoversOnScreen(w, proj);
  }

  lemma SortedSurvivorsOnScreen(w: World, proj: seq<(int, real)>)
    requires |proj| == |w.entities|
    ensures var order := SortFarFirst(Cull(w, proj, 0));
      forall j :: 0 <= j < |order| ==> order[j].index < |w.entities| && OnScreen(w, order[j].index, proj)
  {
    var c := Cull(w, proj, 0);
    var order := SortFarFirst(c);
    forall j | 0 <= j < |order|
      ensures order[j].index < |w.entities| && OnScreen(w, order[j].index, proj)
    {
      assert order[j] in multiset(c);
      var jc :| 0 <= jc < |c| && c[jc] == order[j];
    }
  }

  /** Every on-screen slot is listed in `s`. */
  ghost predicate CoversOnScreen(w: World, proj: seq<(int, real)>, s: seq<RenderItem>)
    requires |proj| == |w.entities|
  {
    forall m :: 0 <= m < |w.entities| && OnScreen(w, m, proj) ==>
      exists j :: 0 <= j < |s| && s[j].index == m
  }

  lemma SortedCoversOnScreen(w: World, proj: seq<(int, real)>)
    requires |proj| == |w.entities|
    ensures CoversOnScreen(w, proj, SortFarFirst(Cull(w, proj, 0)))
  {
    var c := Cull(w, proj, 0);
    assert CoversOnScreen(w, proj, c);
    CoversAfterPermutation(w, proj, c, SortFarFirst(c));
  }

  /** Every slot on screen listed in `c` is listed in any permutation of it. */
  lemma CoversAfterPermutation(w: World, proj: seq<(int, real)>, c: seq<RenderItem>, order: seq<RenderItem>)
    requires |proj| == |w.entities| && multiset(order) == multiset(c)
    requires CoversOnScreen(w, proj, c)
    ensures CoversOnScreen(w, proj, order)
  {
    forall m | 0 <= m < |w.entities| && OnScreen(w, m, proj)
      ensures exists j :: 0 <= j < |order| && order[j].index == m
    {
      PermutationKeepsIndex(c, order, m);
    }
  }

  lemma PermutationKeepsIndex(c: seq<RenderItem>, order: seq<RenderItem>, m: nat)
    requires multiset(order) == multiset(c)
    requires exists jc :: 0 <= jc < |c| && c[jc].index == m
    ensures exists j :: 0 <= j < |order| && order[j].index == m
  {
    var jc :| 0 <= jc < |c| && c[jc].index == m;
    assert c[jc] in multiset(order);
    var j :| 0 <= j < |order| && order[j] == c[jc];
  }

  /** Sorting the survivors of culling lists every slot at most once. */
  lemma CullSortOnce(w: World, proj: seq<(int, real)>)
    requires |proj| == |w.entities|
    ensures DistinctIndices(SortFarFirst(Cull(w, proj, 0)))
  {
    CullInListOrder(w, proj, 0);
    SortDistinct(Cull(w, proj, 0));
  }

  /** The draw order of `render`: exactly the entities that have `draw` and
      project into [-20, 660), each once, farthest corrected distance first. */
  lemma RenderOrder(env: Env, w: World)
    ensures var proj := Projections(env, w);
      var order := RenderList(env, w);
      && FarFirst(order)
      && multiset(order) == multiset(Cull(w, proj, 0))
      && DistinctIndices(order)
      && (forall j :: 0 <= j < |order| ==> order[j].index < |w.entities| && OnScreen(w, order[j].index, proj))
      && (forall m :: 0 <= m < |w.entities| && OnScreen(w, m, proj) ==>
            exists j :: 0 <= j < |order| && order[j].index == m)
  {
    CullSortOrder(w, Projections(env, w));
    CullSortOnce(w, Projections(env, w));
  }
}
