/** The game state of main.cpp and what one pass of its main loop does to
    it (main.cpp:322-355): the player tick, the enemy loop, the camera
    scroll, the draw requests in their order, and the sorter's flush. */
module Game {
  import opened Outcome
  import opened DrawSort
  import opened Entities
  import opened LevelFormat
  import opened PlayerControl
  import opened Camera

  /** The globals the loop works on: `bg`, `bgtiles`, `walgreens`,
      `zergvec`, `PIKO`, `GLOBCAM` and `globalsorter`. */
  datatype World = World(background: Colour, bgTiles: seq<Tile>, tiles: seq<Tile>,
                         enemies: seq<Enemy>, player: Player, cam: Cam, sorter: Sorter)

  /** The globals before the first level is loaded: black background, no
      tiles or enemies, the default player, the camera at the origin and an
      empty sorter. */
  function StartWorld(): (w: World)
    ensures w.bgTiles == [] && w.tiles == [] && w.enemies == []
    ensures w.player == DefaultPlayer() && w.cam == StartCam() && w.sorter.pending == []
  {
    World(Colour(0, 0, 0), [], [], [], DefaultPlayer(), StartCam(), NewSorter())
  }

  /** What every frame relies on: tiles on their layer with a kind inside
      its sprite table and the layer's depth, enemy frames that index their
      two sprites, a player that satisfies its own invariant at depth 0,
      and a valid, empty sorter between frames. */
  predicate WorldInv(w: World) {
    && (forall t :: t in w.bgTiles ==> t.layer == Background && KindFits(t.kind, Background) && t.depth == 2)
    && (forall t :: t in w.tiles ==> t.layer == Collision && KindFits(t.kind, Collision) && t.depth == 1)
    && (forall z :: z in w.enemies ==> 0.0 <= z.frame < 2.0)
    && PlayerInv(w.player) && w.player.depth == 0
    && Valid(w.sorter) && w.sorter.pending == []
  }

  lemma StartWorldInv()
    ensures WorldInv(StartWorld())
  {
  }

  /** `LoadLVL` (main.cpp:91-200) on the bytes of a level file. It fails
      exactly on buffers that are not well formed. On success the three
      collections hold the file's contents and nothing from before, the
      background colour is the file's, the player moves to the last player
      spawn if there is one, and the camera and sorter are untouched. */
  function LoadLevel(w: World, buf: seq<Byte>): (r: Result<World, DecodeError>)
    ensures r.Ok? <==> WellFormed(buf)
    ensures r.Ok? ==> var lv := LevelOf(buf);
                      && r.value.background == lv.background
                      && r.value.bgTiles == lv.bgTiles && r.value.tiles == lv.tiles
                      && r.value.enemies == lv.enemies
    ensures r.Ok? ==> r.value.cam == w.cam && r.value.sorter == w.sorter
    ensures r.Ok? ==> match LevelOf(buf).spawn
                      case None => r.value.player == w.player
                      case Some(pos) => r.value.player == w.player.(x := pos.x, y := pos.y)
  {
    match Decode(buf)
    case Err(e) => Err(e)
    case Ok(d) =>
      var lv := d.level;
      var player := match lv.spawn
                    case None => w.player
                    case Some(pos) => w.player.(x := pos.x, y := pos.y);
      Ok(w.(background := lv.background, bgTiles := lv.bgTiles, tiles := lv.tiles,
            enemies := lv.enemies, player := player))
  }

  /** A load leaves the world satisfying the frame invariant. */
  lemma LoadLevelInv(w: World, buf: seq<Byte>)
    requires WorldInv(w)
    ensures LoadLevel(w, buf).Ok? ==> WorldInv(LoadLevel(w, buf).value)
  {
    if LoadLevel(w, buf).Ok? {
      var r := LoadLevel(w, buf).value;
      LevelTilesFit(buf);
      assert r.player.(x := w.player.x, y := w.player.y) == w.player;
    }
  }

  /** Two worlds loading the same file end with the same collections and
      colour: nothing survives from the previous level. */
  lemma LoadForgetsPrevious(w1: World, w2: World, buf: seq<Byte>)
    ensures LoadLevel(w1, buf).Ok? <==> LoadLevel(w2, buf).Ok?
    ensures LoadLevel(w1, buf).Ok? ==>
              var r1, r2 := LoadLevel(w1, buf).value, LoadLevel(w2, buf).value;
              && r1.bgTiles == r2.bgTiles && r1.tiles == r2.tiles && r1.enemies == r2.enemies
              && r1.background == r2.background
  {
  }

  /** The enemy loop (main.cpp:327-329) as written: it runs once per enemy
      but always on `zergvec[0]`. The first enemy's animation advances by
      `|zs|` steps; every other enemy is left as it was. */
  method UpdateEnemies(zs: seq<Enemy>) returns (r: seq<Enemy>)
    ensures |r| == |zs|
    ensures forall i :: 1 <= i < |zs| ==> r[i] == zs[i]
    ensures |zs| > 0 ==> r[0] == Advance(zs[0], |zs|)
    ensures r == EnemiesAfterLoop(zs)
  {
    r := zs;
    var i := 0;
    while i < |zs|
      invariant 0 <= i <= |zs|
      invariant |r| == |zs|
      invariant forall j :: 1 <= j < |zs| ==> r[j] == zs[j]
      invariant |zs| > 0 ==> r[0] == Advance(zs[0], i)
    {
      AdvanceOneMore(zs[0], i);
      r := r[0 := DoStuff(r[0])];
      i := i + 1;
    }
  }

  /** The enemies after the loop, as a value: the first enemy has taken
      one `DoStuff` step per enemy, the others are untouched. */
  function EnemiesAfterLoop(zs: seq<Enemy>): (r: seq<Enemy>)
    ensures |r| == |zs|
    ensures |zs| > 0 ==> r[0] == Advance(zs[0], |zs|)
    ensures forall i :: 1 <= i < |zs| ==> r[i] == zs[i]
    ensures forall i :: 0 <= i < |zs| && 0.0 <= zs[i].frame < 2.0 ==> 0.0 <= r[i].frame < 2.0
    ensures forall i :: 0 <= i < |zs| ==> r[i] == zs[i].(frame := r[i].frame)
  {
    if |zs| == 0 then zs else zs[0 := Advance(zs[0], |zs|)]
  }

  /** Without a wrap, the first enemy's frame grows by exactly `0.01 * |zs|`. */
  lemma FirstEnemyAdvance(zs: seq<Enemy>)
    requires |zs| > 0 && zs[0].frame >= 0.0
    requires zs[0].frame + FRAME_STEP * (|zs| as real) < 2.0
    ensures EnemiesAfterLoop(zs)[0].frame == zs[0].frame + FRAME_STEP * (|zs| as real)
  {
    AdvanceWithoutWrap(zs[0], |zs|);
  }

  function TileRequests(ts: seq<Tile>): (qs: seq<Request>)
    requires forall t :: t in ts ==> KindFits(t.kind, t.layer)
    ensures |qs| == |ts|
    ensures forall i :: 0 <= i < |ts| ==> qs[i] == TileRequest(ts[i])
  {
    seq(|ts|, i requires 0 <= i < |ts| => TileRequest(ts[i]))
  }

  function EnemyRequests(zs: seq<Enemy>): (qs: seq<Request>)
    requires forall z :: z in zs ==> 0.0 <= z.frame < 2.0
    ensures |qs| == |zs|
    ensures forall i :: 0 <= i < |zs| ==> qs[i] == EnemyRequest(zs[i])
  {
    seq(|zs|, i requires 0 <= i < |zs| => EnemyRequest(zs[i]))
  }

  /** The draw calls of one frame in call order (main.cpp:338-351):
      background tiles, collision tiles, enemies, then the player. Every
      request names an existing sprite, and its depth says which group it
      came from: 2 for background tiles, 1 for collision tiles, 0 for the
      enemies and the player. */
  function FrameRequests(w: World): (qs: seq<Request>)
    requires WorldInv(w)
    ensures |qs| == |w.bgTiles| + |w.tiles| + |w.enemies| + 1
    ensures forall i :: 0 <= i < |w.bgTiles| ==> qs[i] == TileRequest(w.bgTiles[i])
    ensures forall i :: 0 <= i < |w.tiles| ==> qs[|w.bgTiles| + i] == TileRequest(w.tiles[i])
    ensures forall i :: 0 <= i < |w.enemies| ==>
              qs[|w.bgTiles| + |w.tiles| + i] == EnemyRequest(w.enemies[i])
    ensures qs[|qs| - 1] == PlayerRequest(w.player)
    ensures forall q :: q in qs ==> ValidRef(q.owner)
    ensures forall q :: q in qs ==>
              && (q.owner.BackgroundSprite? <==> q.depth == 2.0)
              && (q.owner.TileSprite? <==> q.depth == 1.0)
              && (q.owner.EnemySprite? || q.owner.PlayerSprite? <==> q.depth == 0.0)
  {
    TileRequests(w.bgTiles) + TileRequests(w.tiles) + EnemyRequests(w.enemies)
      + [PlayerRequest(w.player)]
  }

  /** What a frame leaves: the world and the requests `GraphicDraw` got, in order. */
  datatype Frame = Frame(world: World, drawn: seq<Request>)

  /** Submit the frame's requests, flush the sorter, reset it
      (main.cpp:338-355). Every request of the frame is drawn once, back to
      front, and the sorter ends empty. */
  function Render(w: World): (r: Frame)
    requires WorldInv(w)
    ensures multiset(r.drawn) == multiset(FrameRequests(w))
    ensures SortedByDepth(r.drawn)
    ensures |r.drawn| == |w.bgTiles| + |w.tiles| + |w.enemies| + 1
    ensures forall q :: q in r.drawn ==> ValidRef(q.owner)
    ensures r.world == w
  {
    var submitted := SubmitAll(w.sorter, FrameRequests(w));
    var flushed := DrawStack(submitted);
    assert submitted.pending == FrameRequests(w);
    Frame(w.(sorter := ResetStack(flushed.sorter)), flushed.drawn)
  }

  /** In a back-to-front trace a deeper request comes first. */
  lemma DeeperDrawnFirst(d: seq<Request>, i: int, j: int)
    requires SortedByDepth(d)
    requires 0 <= i < |d| && 0 <= j < |d| && d[i].depth > d[j].depth
    ensures i < j
  {
  }

  /** The world after the player tick produced `p`: the player replaced,
      the enemy loop run (main.cpp:327-329) and the camera scrolled to the
      new player position (main.cpp:333-335). */
  function Moved(w: World, p: Player): (r: World)
    requires WorldInv(w) && PlayerInv(p) && p.depth == 0
    ensures WorldInv(r)
    ensures r.player == p && r.tiles == w.tiles && r.bgTiles == w.bgTiles
    ensures r.cam.x >= w.cam.x && p.x - r.cam.x <= HALF_WIDTH && r.cam.y == w.cam.y
    ensures r.enemies == EnemiesAfterLoop(w.enemies)
    ensures r.background == w.background && r.sorter == w.sorter
  {
    var enemies := EnemiesAfterLoop(w.enemies);
    assert forall z :: z in enemies ==> 0.0 <= z.frame < 2.0 by {
      forall z | z in enemies ensures 0.0 <= z.frame < 2.0 {
        var i :| 0 <= i < |enemies| && enemies[i] == z;
        assert w.enemies[i] in w.enemies;
      }
    }
    w.(player := p, enemies := enemies, cam := Scroll(w.cam, p.x))
  }

  /** One pass of the main loop (main.cpp:325-355): the player tick, the
      enemy loop, the camera scroll, then the frame's draw. It ends exactly
      when the player tick ends; it keeps the frame invariant; the camera
      ends at most 128 pixels behind the player and never moves back; and
      every sprite the frame draws exists. */
  function Tick(w: World, k: Keys): (r: Run<Frame>)
    requires WorldInv(w)
    ensures r.Halts? <==> Control(w.player, k, w.tiles).Halts?
    ensures r.Halts? ==> WorldInv(r.value.world)
    ensures r.Halts? ==> r.value.world.player == Control(w.player, k, w.tiles).value
    ensures r.Halts? ==> && r.value.world.tiles == w.tiles && r.value.world.bgTiles == w.bgTiles
                         && r.value.world.enemies == EnemiesAfterLoop(w.enemies)
                         && r.value.world.background == w.background
    ensures r.Halts? ==> var c := r.value.world.cam;
                         c.x >= w.cam.x && r.value.world.player.x - c.x <= HALF_WIDTH && c.y == w.cam.y
    ensures r.Halts? ==> SortedByDepth(r.value.drawn) && forall q :: q in r.value.drawn ==> ValidRef(q.owner)
    ensures r.Halts? ==> |r.value.drawn| == |w.bgTiles| + |w.tiles| + |w.enemies| + 1
    ensures r.Halts? ==> multiset(r.value.drawn) == multiset(FrameRequests(r.value.world))
  {
    ControlKeepsInv(w.player, k, w.tiles);
    match Control(w.player, k, w.tiles)
    case Diverges => Diverges
    case Halts(p) => Halts(Render(Moved(w, p)))
  }

  /** The layers of one frame: background tiles before collision tiles,
      and all tiles before every enemy and the player. */
  predicate LayeredBackToFront(d: seq<Request>) {
    forall i, j :: 0 <= i < |d| && 0 <= j < |d| &&
                   ((d[i].owner.BackgroundSprite? && d[j].owner.TileSprite?) ||
                    ((d[i].owner.BackgroundSprite? || d[i].owner.TileSprite?) &&
                     (d[j].owner.EnemySprite? || d[j].owner.PlayerSprite?)))
                   ==> i < j
  }

  lemma RenderLayered(w: World)
    requires WorldInv(w)
    ensures LayeredBackToFront(Render(w).drawn)
  {
    var d := Render(w).drawn;
    var qs := FrameRequests(w);
    forall i, j | 0 <= i < |d| && 0 <= j < |d| &&
                  ((d[i].owner.BackgroundSprite? && d[j].owner.TileSprite?) ||
                   ((d[i].owner.BackgroundSprite? || d[i].owner.TileSprite?) &&
                    (d[j].owner.EnemySprite? || d[j].owner.PlayerSprite?)))
      ensures i < j
    {
      assert d[i] in multiset(qs) && d[j] in multiset(qs);
      DeeperDrawnFirst(d, i, j);
    }
  }

  /** In every frame all background tiles are drawn before all collision
      tiles, and all tiles before every enemy and the player. */
  lemma TilesDrawnBehind(w: World, k: Keys)
    requires WorldInv(w)
    ensures Tick(w, k).Halts? ==> LayeredBackToFront(Tick(w, k).value.drawn)
  {
    ControlKeepsInv(w.player, k, w.tiles);
    if Tick(w, k).Halts? {
      RenderLayered(Moved(w, Control(w.player, k, w.tiles).value));
    }
  }
}
