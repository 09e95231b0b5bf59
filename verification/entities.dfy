/** Tiles (`blocktile`, graphics.h:819-842) and the snake enemy (`zerg`,
    graphics.h:872-913). */
module Entities {
  import opened Numerics
  import opened DrawSort

  /** The `layer` argument of the `blocktile` constructor: 0 selects the
      collision tile sprites, 1 the background sprites. */
  datatype Layer = Collision | Background

  /** A 16x16 tile; `kind` is its index into its layer's sprite table. */
  datatype Tile = Tile(x: int, y: int, depth: int, xsize: int, ysize: int, kind: int, layer: Layer)

  /** Number of sprites a tile kind may index on `layer`. */
  function KindCount(layer: Layer): (n: int)
    ensures n == (if layer == Collision then TILE_SPRITES else BACKGROUND_SPRITES)
  {
    match layer
    case Collision => TILE_SPRITES
    case Background => BACKGROUND_SPRITES
  }

  /** `kind` indexes an existing sprite on `layer`. */
  predicate KindFits(kind: int, layer: Layer) {
    0 <= kind < KindCount(layer)
  }

  /** The sprite a tile draws with (graphics.h:825-826). */
  function TileSpriteOf(t: Tile): (s: SpriteRef)
    requires KindFits(t.kind, t.layer)
    ensures ValidRef(s)
    ensures s.index == t.kind
    ensures t.layer == Collision <==> s.TileSprite?
    ensures t.layer == Background <==> s.BackgroundSprite?
  {
    match t.layer
    case Collision => TileSprite(t.kind)
    case Background => BackgroundSprite(t.kind)
  }

  /** `blocktile::Draw` (graphics.h:839-841): the tile's own position and
      depth, unit scale, no rotation. */
  function TileRequest(t: Tile): (q: Request)
    requires KindFits(t.kind, t.layer)
    ensures ValidRef(q.owner) && q.owner == TileSpriteOf(t)
    ensures q.x == t.x as real && q.y == t.y as real && q.depth == t.depth as real
    ensures q.xscale == 1.0 && q.yscale == 1.0 && q.rotation == 0.0
  {
    Request(TileSpriteOf(t), t.x as real, t.y as real, 1.0, 1.0, 0.0, t.depth as real)
  }

  /** The snake enemy. `frame` selects one of its two sprites. The fields
      the source declares but never writes or reads for behaviour
      (`direction`, `xsp`, `ysp`) are not kept. */
  datatype Enemy = Enemy(x: int, y: int, width: int, height: int, speed: int, frame: real)

  /** Frames advance by this step per `DoStuff` call (graphics.h:903). */
  const FRAME_STEP: real := 0.01

  /** The `zerg(x, y, width, height, speed)` constructor. The source leaves
      `frame` uninitialised; the model starts it at 0. */
  function NewEnemy(x: int, y: int, width: int, height: int, speed: int): (z: Enemy)
    ensures z.frame == 0.0
    ensures z.x == x && z.y == y && z.width == width && z.height == height && z.speed == speed
  {
    Enemy(x, y, width, height, speed, 0.0)
  }

  /** `zerg::DoStuff` (graphics.h:901-908): step the animation counter,
      wrapping to 0 at 2. Nothing but the frame changes. */
  function DoStuff(z: Enemy): (r: Enemy)
    ensures r.frame < 2.0
    ensures z.frame >= 0.0 ==> r.frame >= 0.0
    ensures z.frame + FRAME_STEP < 2.0 ==> r.frame == z.frame + FRAME_STEP
    ensures z.frame + FRAME_STEP >= 2.0 ==> r.frame == 0.0
    ensures r == z.(frame := r.frame)
  {
    var f := z.frame + FRAME_STEP;
    z.(frame := if f >= 2.0 then 0.0 else f)
  }

  /** `n` consecutive `DoStuff` calls on one enemy. */
  function Advance(z: Enemy, n: nat): (r: Enemy)
    ensures r == z.(frame := r.frame)
    ensures n > 0 ==> r.frame < 2.0
    ensures 0.0 <= z.frame < 2.0 ==> 0.0 <= r.frame < 2.0
    decreases n
  {
    if n == 0 then z else Advance(DoStuff(z), n - 1)
  }

  /** Without a wrap, `n` steps advance the frame by exactly `n` times the step. */
  lemma {:induction false} AdvanceWithoutWrap(z: Enemy, n: nat)
    requires z.frame >= 0.0
    requires z.frame + FRAME_STEP * (n as real) < 2.0
    ensures Advance(z, n).frame == z.frame + FRAME_STEP * (n as real)
    decreases n
  {
    if n > 0 {
      var z' := DoStuff(z);
      assert z'.frame == z.frame + FRAME_STEP;
      AdvanceWithoutWrap(z', n - 1);
    }
  }

  /** One more call after `n` calls: the loop's step. */
  lemma {:induction false} AdvanceOneMore(z: Enemy, n: nat)
    ensures Advance(z, n + 1) == DoStuff(Advance(z, n))
    decreases n
  {
    if n > 0 {
      AdvanceOneMore(DoStuff(z), n - 1);
    }
  }

  /** `zerg::Draw` (graphics.h:910-912): sprite `(int)frame` at the
      enemy's position, unit scale, no rotation, depth 0. */
  function EnemyRequest(z: Enemy): (q: Request)
    requires 0.0 <= z.frame < 2.0
    ensures ValidRef(q.owner) && q.owner.EnemySprite?
    ensures q.owner.index as real <= z.frame < q.owner.index as real + 1.0
    ensures q.x == z.x as real && q.y == z.y as real && q.depth == 0.0
    ensures q.xscale == 1.0 && q.yscale == 1.0 && q.rotation == 0.0
  {
    Request(EnemySprite(Trunc(z.frame)), z.x as real, z.y as real, 1.0, 1.0, 0.0, 0.0)
  }
}
