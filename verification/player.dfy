/** The player (`player`, graphics.h:917-1116): its per-tick control step
    `Control` against the collision tiles, and the draw request it makes.

    Keyboard state is an input record instead of `glfwGetKey` calls. The
    float fields are reals; `round` is `Numerics.Round` and `(int)` is
    `Numerics.Trunc`. The tick reproduces the source's statement order.
    Its two contact loops do not stop for every state, so a tick is a
    `Run<Player>`: `Diverges` exactly where the source would loop forever. */
module PlayerControl {
  import opened Outcome
  import opened Numerics
  import opened DrawSort
  import opened Entities

  /** The keys `Control` polls: A, D, S, J and K. */
  datatype Keys = Keys(left: bool, right: bool, down: bool, jump: bool, dash: bool)

  /** The `action` field: -1 crouching, 0 idle, 1 walking, 2 jumping. */
  datatype Action = Crouching | Idle | Moving | Jumping

  /** The fields `Control` and `Draw` use. `gnd` only ever holds 0 or 1,
      so it is a boolean. */
  datatype Player = Player(x: int, y: int, xsp: real, ysp: real, grounded: bool, action: Action,
                           jumping: bool, jumpTimer: real, pressedDownStill: bool, lastDir: int,
                           frame: real, maxSpeed: real, offsetX: int, depth: int)

  /** The default-constructor constants (graphics.h:920-934); `PIKO` is
      built with that constructor (main.cpp:84). */
  const ACC: real := 0.25
  const DCC: real := 0.125
  const JUMP_SPEED: real := 3.0
  const MAX_JUMP_TIME: real := 7.0
  const MIN_JUMP_TIME: real := 4.0
  /** Gravity per airborne tick (graphics.h:1064). */
  const GRAVITY: real := 0.425
  /** Number of player frames; `Draw` indexes them with `(int)frame`. */
  const FRAMES: real := 7.0

  /** `PIKO`: a global, so zero-initialised before the default constructor
      sets its constants. */
  function DefaultPlayer(): (p: Player)
    ensures p.grounded && !p.jumping && !p.pressedDownStill
    ensures p.xsp == 0.0 && p.ysp == 0.0 && p.lastDir == 1 && p.maxSpeed == 1.0
  {
    Player(0, 0, 0.0, 0.0, true, Idle, false, 0.0, false, 1, 0.0, 1.0, 0, 0)
  }

  // ---------------------------------------------------------------------
  // Collision

  /** `BCol` (graphics.h:971-979): the 14x22 player box moved by
      (xoff, yoff) overlaps the 16x16 box of `t`. */
  predicate BCol(x: int, y: int, xoff: real, yoff: real, t: Tile) {
    && (x as real) + xoff < (t.x + 16) as real
    && (x as real) + xoff + 14.0 > t.x as real
    && (y as real) + yoff < (t.y + 16) as real
    && (y as real) + yoff + 22.0 > t.y as real
  }

  /** Closed form of "the horizontal contact loop with step `s` (+1 or -1)
      reaches a position where `BCol(s, 1, t)` holds". The player's y is
      fixed during the loop, so the vertical band must already overlap;
      stepping right, the loop stops unless it starts past the tile's
      right edge, and symmetrically stepping left. */
  predicate PushXHalts(x: int, y: int, s: int, t: Tile) {
    && y + 1 < t.y + 16 && y + 23 > t.y
    && (if s == 1 then x < t.x + 15 else x > t.x - 13)
  }

  /** The horizontal contact loop (graphics.h:1070-1072): step x by `s`
      until the box moved by `s` touches `t`. The result is the first
      position on the way where it does. */
  function PushX(x: int, y: int, s: int, t: Tile): (r: int)
    requires s == 1 || s == -1
    requires PushXHalts(x, y, s, t)
    ensures BCol(r, y, s as real, 1.0, t)
    ensures s == 1 ==> x <= r && forall z :: x <= z < r ==> !BCol(z, y, 1.0, 1.0, t)
    ensures s == -1 ==> r <= x && forall z :: r < z <= x ==> !BCol(z, y, -1.0, 1.0, t)
    decreases if s == 1 then t.x - x else x - t.x
  {
    if BCol(x, y, s as real, 1.0, t) then x else PushX(x + s, y, s, t)
  }

  /** Outside `PushXHalts` the loop test never fails: after any number of
      steps the moved box still misses the tile, so the loop runs forever. */
  lemma PushXDiverges(x: int, y: int, s: int, t: Tile, n: nat)
    requires s == 1 || s == -1
    requires !PushXHalts(x, y, s, t)
    ensures !BCol(x + s * n, y, s as real, 1.0, t)
  {
  }

  /** Closed form of termination for the vertical contact loop with step
      `s` (+1 or -1): the horizontal band overlaps, and the loop does not
      start beyond the tile in its direction of travel. */
  predicate PushYHalts(x: int, y: int, s: int, t: Tile) {
    && x < t.x + 16 && x + 14 > t.x
    && (if s == 1 then y < t.y + 14 else y + 22 > t.y)
  }

  /** The vertical contact loop (graphics.h:1081-1083): step y by `s` until
      the box moved by `s + 1` touches `t`; the first such position. */
  function PushY(x: int, y: int, s: int, t: Tile): (r: int)
    requires s == 1 || s == -1
    requires PushYHalts(x, y, s, t)
    ensures BCol(x, r, 0.0, (s + 1) as real, t)
    ensures s == 1 ==> y <= r && forall z :: y <= z < r ==> !BCol(x, z, 0.0, 2.0, t)
    ensures s == -1 ==> r <= y && forall z :: r < z <= y ==> !BCol(x, z, 0.0, 0.0, t)
    decreases if s == 1 then t.y - y else y - t.y
  {
    if BCol(x, y, 0.0, (s + 1) as real, t) then y else PushY(x, y + s, s, t)
  }

  /** Outside `PushYHalts` the vertical loop runs forever. */
  lemma PushYDiverges(x: int, y: int, s: int, t: Tile, n: nat)
    requires s == 1 || s == -1
    requires !PushYHalts(x, y, s, t)
    ensures !BCol(x, y + s * n, 0.0, (s + 1) as real, t)
  {
  }

  /** One tile of the horizontal pass, entered because `BCol(xsp, 1, t)`
      holds: the contact loop with step `sign(xsp)`. With `xsp == 0` the
      loop test is the entry test, so it stops at once. */
  function ContactX(x: int, y: int, xsp: real, t: Tile): (r: Run<int>)
    requires BCol(x, y, xsp, 1.0, t)
    ensures r.Halts? <==> xsp == 0.0 || PushXHalts(x, y, Sign(xsp), t)
    ensures r.Halts? ==> BCol(r.value, y, Sign(xsp) as real, 1.0, t)
    ensures r.Halts? ==> (xsp > 0.0 ==> r.value >= x) && (xsp < 0.0 ==> r.value <= x)
                         && (xsp == 0.0 ==> r.value == x)
  {
    var s := Sign(xsp);
    if s == 0 then Halts(x)
    else if PushXHalts(x, y, s, t) then Halts(PushX(x, y, s, t))
    else Diverges
  }

  /** Some tile of `tiles` overlaps the box moved by (xoff, yoff). */
  predicate HitsAny(x: int, y: int, xoff: real, yoff: real, tiles: seq<Tile>) {
    exists i :: 0 <= i < |tiles| && BCol(x, y, xoff, yoff, tiles[i])
  }

  /** The horizontal pass (graphics.h:1067-1073): every tile the box moved
      by `xsp` would overlap triggers the contact loop, in tile order, from
      wherever x has got to. Yields the final x and whether any tile was
      hit. The first hit happens at the starting x, so "collided" means
      some tile overlaps the starting box; x moves only through contact
      loops, never against the direction of `xsp`. */
  function HorizontalPass(x: int, y: int, xsp: real, tiles: seq<Tile>): (r: Run<(int, bool)>)
    ensures r.Halts? ==> (r.value.1 <==> HitsAny(x, y, xsp, 1.0, tiles))
    ensures r.Halts? && !r.value.1 ==> r.value.0 == x
    ensures r.Halts? ==> (xsp > 0.0 ==> r.value.0 >= x) && (xsp < 0.0 ==> r.value.0 <= x)
                         && (xsp == 0.0 ==> r.value.0 == x)
    ensures !HitsAny(x, y, xsp, 1.0, tiles) ==> r == Halts((x, false))
    ensures r.Halts? && r.value.1 ==>
              exists i :: 0 <= i < |tiles| && BCol(r.value.0, y, Sign(xsp) as real, 1.0, tiles[i])
    decreases |tiles|
  {
    if |tiles| == 0 then Halts((x, false))
    else if !BCol(x, y, xsp, 1.0, tiles[0]) then
      var rest := HorizontalPass(x, y, xsp, tiles[1..]);
      assert HitsAny(x, y, xsp, 1.0, tiles) <==> HitsAny(x, y, xsp, 1.0, tiles[1..]) by {
        if HitsAny(x, y, xsp, 1.0, tiles) {
          var i :| 0 <= i < |tiles| && BCol(x, y, xsp, 1.0, tiles[i]);
          assert tiles[1..][i - 1] == tiles[i];
        }
        if HitsAny(x, y, xsp, 1.0, tiles[1..]) {
          var i :| 0 <= i < |tiles[1..]| && BCol(x, y, xsp, 1.0, tiles[1..][i]);
          assert tiles[i + 1] == tiles[1..][i];
        }
      }
      assert rest.Halts? && rest.value.1 ==>
               exists i :: 0 <= i < |tiles| && BCol(rest.value.0, y, Sign(xsp) as real, 1.0, tiles[i]) by {
        if rest.Halts? && rest.value.1 {
          var i :| 0 <= i < |tiles[1..]| && BCol(rest.value.0, y, Sign(xsp) as real, 1.0, tiles[1..][i]);
          assert tiles[i + 1] == tiles[1..][i];
        }
      }
      rest
    else
      match ContactX(x, y, xsp, tiles[0])
      case Diverges => Diverges
      case Halts(x1) =>
        match HorizontalPass(x1, y, xsp, tiles[1..])
        case Diverges => Diverges
        case Halts(res) =>
          assert exists i :: 0 <= i < |tiles| && BCol(res.0, y, Sign(xsp) as real, 1.0, tiles[i]) by {
            if res.1 {
              var i :| 0 <= i < |tiles[1..]| && BCol(res.0, y, Sign(xsp) as real, 1.0, tiles[1..][i]);
              assert tiles[i + 1] == tiles[1..][i];
            } else {
              assert BCol(res.0, y, Sign(xsp) as real, 1.0, tiles[0]);
            }
          }
          Halts((res.0, true))
  }

  /** The horizontal contact loop entered at `x` against `t` never ends:
      the box moved by `xsp` overlaps `t`, `xsp` is not 0, and stepping by
      `sign(xsp)` never brings the box into contact. */
  predicate StuckX(x: int, y: int, xsp: real, t: Tile) {
    xsp != 0.0 && BCol(x, y, xsp, 1.0, t) && !PushXHalts(x, y, Sign(xsp), t)
  }

  /** Tile `i` is where the horizontal pass hangs: the pass over the tiles
      before it ends, and the x it leaves is one from which the contact
      loop against `tiles[i]` never ends. */
  predicate StuckEntryX(x: int, y: int, xsp: real, tiles: seq<Tile>, i: int) {
    && 0 <= i < |tiles|
    && var e := HorizontalPass(x, y, xsp, tiles[..i]);
       e.Halts? && StuckX(e.value.0, y, xsp, tiles[i])
  }

  /** The horizontal pass hangs exactly when it reaches a tile whose contact
      loop it enters at an x from which that loop never ends; in particular
      it always ends when `xsp` is 0. */
  lemma {:induction false} HorizontalPassEnds(x: int, y: int, xsp: real, tiles: seq<Tile>)
    ensures HorizontalPass(x, y, xsp, tiles).Diverges? <==>
              exists i :: StuckEntryX(x, y, xsp, tiles, i)
    ensures xsp == 0.0 ==> HorizontalPass(x, y, xsp, tiles).Halts?
    decreases |tiles|
  {
    if |tiles| == 0 {
      return;
    }
    assert HorizontalPass(x, y, xsp, tiles[..0]) == Halts((x, false));
    if BCol(x, y, xsp, 1.0, tiles[0]) && ContactX(x, y, xsp, tiles[0]).Diverges? {
      assert StuckEntryX(x, y, xsp, tiles, 0);
      return;
    }
    assert !StuckEntryX(x, y, xsp, tiles, 0);
    var x1 := if BCol(x, y, xsp, 1.0, tiles[0]) then ContactX(x, y, xsp, tiles[0]).value else x;
    HorizontalPassEnds(x1, y, xsp, tiles[1..]);
    forall i | 1 <= i < |tiles|
      ensures StuckEntryX(x, y, xsp, tiles, i) <==> StuckEntryX(x1, y, xsp, tiles[1..], i - 1)
    {
      assert tiles[..i][0] == tiles[0];
      assert tiles[..i][1..] == tiles[1..][..i - 1];
      assert tiles[1..][i - 1] == tiles[i];
    }
    if HorizontalPass(x, y, xsp, tiles).Diverges? {
      var j :| StuckEntryX(x1, y, xsp, tiles[1..], j);
      assert StuckEntryX(x, y, xsp, tiles, j + 1);
    }
  }

  /** One tile of the vertical pass, entered because `BCol(0, ysp + 1, t)`
      holds: the contact loop with step `sign(ysp)`. */
  function ContactY(x: int, y: int, ysp: real, t: Tile): (r: Run<int>)
    requires BCol(x, y, 0.0, ysp + 1.0, t)
    ensures r.Halts? <==> ysp == 0.0 || PushYHalts(x, y, Sign(ysp), t)
    ensures r.Halts? ==> BCol(x, r.value, 0.0, (Sign(ysp) + 1) as real, t)
    ensures r.Halts? ==> (ysp > 0.0 ==> r.value >= y) && (ysp < 0.0 ==> r.value <= y)
                         && (ysp == 0.0 ==> r.value == y)
  {
    var s := Sign(ysp);
    if s == 0 then Halts(y)
    else if PushYHalts(x, y, s, t) then Halts(PushY(x, y, s, t))
    else Diverges
  }

  /** The vertical pass (graphics.h:1078-1087): each tile the box moved by
      `ysp + 1` overlaps runs the contact loop and zeroes `ysp`. Yields the
      final y and `ysp`. Without a hit nothing changes; with one `ysp` ends
      at 0; y never moves against the direction of `ysp`. */
  function VerticalPass(x: int, y: int, ysp: real, tiles: seq<Tile>): (r: Run<(int, real)>)
    ensures r.Halts? && HitsAny(x, y, 0.0, ysp + 1.0, tiles) ==> r.value.1 == 0.0
    ensures !HitsAny(x, y, 0.0, ysp + 1.0, tiles) ==> r == Halts((y, ysp))
    ensures r.Halts? ==> (ysp > 0.0 ==> r.value.0 >= y) && (ysp < 0.0 ==> r.value.0 <= y)
                         && (ysp == 0.0 ==> r.value.0 == y)
    ensures r.Halts? && HitsAny(x, y, 0.0, ysp + 1.0, tiles) ==>
              exists i :: 0 <= i < |tiles| && BCol(x, r.value.0, 0.0, (Sign(ysp) + 1) as real, tiles[i])
    decreases |tiles|
  {
    if |tiles| == 0 then Halts((y, ysp))
    else if !BCol(x, y, 0.0, ysp + 1.0, tiles[0]) then
      var rest := VerticalPass(x, y, ysp, tiles[1..]);
      assert HitsAny(x, y, 0.0, ysp + 1.0, tiles) <==> HitsAny(x, y, 0.0, ysp + 1.0, tiles[1..]) by {
        if HitsAny(x, y, 0.0, ysp + 1.0, tiles) {
          var i :| 0 <= i < |tiles| && BCol(x, y, 0.0, ysp + 1.0, tiles[i]);
          assert tiles[1..][i - 1] == tiles[i];
        }
        if HitsAny(x, y, 0.0, ysp + 1.0, tiles[1..]) {
          var i :| 0 <= i < |tiles[1..]| && BCol(x, y, 0.0, ysp + 1.0, tiles[1..][i]);
          assert tiles[i + 1] == tiles[1..][i];
        }
      }
      assert rest.Halts? && HitsAny(x, y, 0.0, ysp + 1.0, tiles[1..]) ==>
               exists i :: 0 <= i < |tiles| && BCol(x, rest.value.0, 0.0, (Sign(ysp) + 1) as real, tiles[i]) by {
        if rest.Halts? && HitsAny(x, y, 0.0, ysp + 1.0, tiles[1..]) {
          var i :| 0 <= i < |tiles[1..]| && BCol(x, rest.value.0, 0.0, (Sign(ysp) + 1) as real, tiles[1..][i]);
          assert tiles[i + 1] == tiles[1..][i];
        }
      }
      rest
    else
      match ContactY(x, y, ysp, tiles[0])
      case Diverges => Diverges
      case Halts(y1) =>
        var rest := VerticalPass(x, y1, 0.0, tiles[1..]);
        assert rest.Halts? ==> BCol(x, rest.value.0, 0.0, (Sign(ysp) + 1) as real, tiles[0]);
        rest
  }

  /** The vertical contact loop entered at `y` against `t` never ends: the
      box moved by `ysp + 1` overlaps `t`, `ysp` is not 0, and stepping by
      `sign(ysp)` never brings the box into contact. */
  predicate StuckY(x: int, y: int, ysp: real, t: Tile) {
    ysp != 0.0 && BCol(x, y, 0.0, ysp + 1.0, t) && !PushYHalts(x, y, Sign(ysp), t)
  }

  /** Tile `i` is where the vertical pass hangs: it is the first tile the
      box moved by `ysp + 1` overlaps, and the contact loop entered there at
      the starting y never ends. */
  predicate StuckFirstY(x: int, y: int, ysp: real, tiles: seq<Tile>, i: int) {
    && 0 <= i < |tiles|
    && StuckY(x, y, ysp, tiles[i])
    && forall j :: 0 <= j < i ==> !BCol(x, y, 0.0, ysp + 1.0, tiles[j])
  }

  /** The vertical pass hangs exactly when its first hit is a tile whose
      contact loop never ends: after the first hit `ysp` is 0, and every
      later loop stops at once. */
  lemma {:induction false} VerticalPassEnds(x: int, y: int, ysp: real, tiles: seq<Tile>)
    ensures VerticalPass(x, y, ysp, tiles).Diverges? <==>
              exists i :: StuckFirstY(x, y, ysp, tiles, i)
    ensures ysp == 0.0 ==> VerticalPass(x, y, ysp, tiles).Halts?
    decreases |tiles|
  {
    if |tiles| == 0 {
      return;
    }
    if !BCol(x, y, 0.0, ysp + 1.0, tiles[0]) {
      VerticalPassEnds(x, y, ysp, tiles[1..]);
      forall i | 1 <= i < |tiles|
        ensures StuckFirstY(x, y, ysp, tiles, i) <==> StuckFirstY(x, y, ysp, tiles[1..], i - 1)
      {
        assert tiles[1..][i - 1] == tiles[i];
        if StuckFirstY(x, y, ysp, tiles[1..], i - 1) {
          forall j | 0 <= j < i ensures !BCol(x, y, 0.0, ysp + 1.0, tiles[j]) {
            if j > 0 {
              assert tiles[1..][j - 1] == tiles[j];
            }
          }
        }
      }
      assert !StuckFirstY(x, y, ysp, tiles, 0);
      if VerticalPass(x, y, ysp, tiles).Diverges? {
        var j :| StuckFirstY(x, y, ysp, tiles[1..], j);
        assert StuckFirstY(x, y, ysp, tiles, j + 1);
      }
    } else {
      match ContactY(x, y, ysp, tiles[0])
      case Diverges =>
        assert StuckFirstY(x, y, ysp, tiles, 0);
      case Halts(y1) =>
        VerticalPassEnds(x, y1, 0.0, tiles[1..]);
        assert forall i :: !StuckFirstY(x, y, ysp, tiles, i);
    }
  }

  /** The ground probe's counter `timesgndded` (graphics.h:1043-1054): the
      number of tiles the box moved by (0, ysp) overlaps. */
  function CountHits(x: int, y: int, ysp: real, tiles: seq<Tile>): (c: nat)
    ensures c <= |tiles|
    ensures c > 0 <==> HitsAny(x, y, 0.0, ysp, tiles)
    decreases |tiles|
  {
    if |tiles| == 0 then 0
    else
      var rest := CountHits(x, y, ysp, tiles[1..]);
      assert HitsAny(x, y, 0.0, ysp, tiles) <==>
             BCol(x, y, 0.0, ysp, tiles[0]) || HitsAny(x, y, 0.0, ysp, tiles[1..]) by {
        if HitsAny(x, y, 0.0, ysp, tiles) {
          var i :| 0 <= i < |tiles| && BCol(x, y, 0.0, ysp, tiles[i]);
          if i > 0 { assert tiles[1..][i - 1] == tiles[i]; }
        }
        if HitsAny(x, y, 0.0, ysp, tiles[1..]) {
          var i :| 0 <= i < |tiles[1..]| && BCol(x, y, 0.0, ysp, tiles[1..][i]);
          assert tiles[i + 1] == tiles[1..][i];
        }
      }
      (if BCol(x, y, 0.0, ysp, tiles[0]) then 1 else 0) + rest
  }

  // ---------------------------------------------------------------------
  // The stages of one tick, in source order

  /** A held (graphics.h:984-988): accelerate left, by 1.25 times `acc`
      with K on the ground, `acc` on the ground, `acc / 1.25` in the air;
      on the ground the player is walking. */
  function PressLeft(p: Player, k: Keys): (r: Player)
    ensures !k.left ==> r == p
    ensures k.left && p.grounded && k.dash ==> r.xsp == p.xsp - 0.3125
    ensures k.left && p.grounded && !k.dash ==> r.xsp == p.xsp - ACC
    ensures k.left && !p.grounded ==> r.xsp == p.xsp - 0.2
    ensures r.action == (if k.left && p.grounded then Moving else p.action)
    ensures r == p.(xsp := r.xsp, action := r.action)
  {
    if !k.left then p
    else
      var xsp := if k.dash && p.grounded then p.xsp - ACC * 1.25
                 else if p.grounded then p.xsp - ACC
                 else p.xsp - ACC / 1.25;
      p.(xsp := xsp, action := if p.grounded then Moving else p.action)
  }

  /** D held without A, unless crouching (graphics.h:990-993): accelerate
      right. Unlike A, K gives the 1.25 boost in the air too. */
  function PressRight(p: Player, k: Keys): (r: Player)
    ensures !(k.right && !k.left && p.action != Crouching) ==> r == p
    ensures k.right && !k.left && p.action != Crouching && k.dash ==> r.xsp == p.xsp + 0.3125
    ensures k.right && !k.left && p.action != Crouching && !k.dash && p.grounded ==> r.xsp == p.xsp + ACC
    ensures k.right && !k.left && p.action != Crouching && !k.dash && !p.grounded ==> r.xsp == p.xsp + 0.2
    ensures r.action == (if k.right && !k.left && p.action != Crouching && p.grounded then Moving else p.action)
    ensures r == p.(xsp := r.xsp, action := r.action)
  {
    if !(k.right && !k.left && p.action != Crouching) then p
    else
      var xsp := if k.dash then p.xsp + ACC * 1.25
                 else if p.grounded then p.xsp + ACC
                 else p.xsp + ACC / 1.25;
      p.(xsp := xsp, action := if p.grounded then Moving else p.action)
  }

  /** S held on the ground: crouch (graphics.h:995-997). */
  function PressDown(p: Player, k: Keys): (r: Player)
    ensures r.action == (if k.down && p.grounded then Crouching else p.action)
    ensures r == p.(action := r.action)
  {
    if k.down && p.grounded then p.(action := Crouching) else p
  }

  /** No A, D or S on the ground while standing still: idle
      (graphics.h:999-1001). The test `!getKey(..) == GLFW_PRESS` reads as
      "not pressed" because `GLFW_PRESS` is 1. */
  function ReleaseKeys(p: Player, k: Keys): (r: Player)
    ensures r.action == (if !k.left && !k.right && !k.down && p.grounded && p.xsp == 0.0 && p.ysp == 0.0
                         then Idle else p.action)
    ensures r == p.(action := r.action)
  {
    if !k.left && !k.right && !k.down && p.grounded && p.xsp == 0.0 && p.ysp == 0.0
    then p.(action := Idle) else p
  }

  /** Walking on the ground without the key of the current direction of
      motion drops to idle (graphics.h:1004-1007). */
  function AutoStop(p: Player, k: Keys): (r: Player)
    ensures r.action == Idle <==>
              p.action == Idle ||
              (p.action == Moving && p.grounded && ((p.xsp > 0.0 && !k.right) || (p.xsp < 0.0 && !k.left)))
    ensures r.action != Idle ==> r.action == p.action
    ensures r == p.(action := r.action)
  {
    if p.action == Moving && p.xsp != 0.0 && p.grounded then
      var a1 := if p.xsp > 0.0 && !k.right then Idle else p.action;
      var a2 := if p.xsp < 0.0 && !k.left then Idle else a1;
      p.(action := a2)
    else p
  }

  /** Ground deceleration while idle or crouching (graphics.h:1009-1013),
      two `if`s in sequence: a speed above `dcc` loses `dcc`, a speed of
      exactly `dcc` stops, a positive speed below `dcc` is lowered and
      raised back so it stays, and a negative speed gains `dcc` whatever
      its size, possibly turning positive. */
  function Decelerate(p: Player): (r: Player)
    ensures !((p.action == Idle || p.action == Crouching) && p.grounded) ==> r == p
    ensures (p.action == Idle || p.action == Crouching) && p.grounded ==>
              && (p.xsp > DCC ==> r.xsp == p.xsp - DCC)
              && (p.xsp == DCC ==> r.xsp == 0.0)
              && (0.0 < p.xsp < DCC ==> r.xsp == p.xsp)
              && (p.xsp < 0.0 ==> r.xsp == p.xsp + DCC)
              && (p.xsp == 0.0 ==> r.xsp == 0.0)
    ensures r == p.(xsp := r.xsp)
  {
    if (p.action == Idle || p.action == Crouching) && p.grounded then
      var x1 := if p.xsp > 0.0 then p.xsp - DCC else p.xsp;
      var x2 := if x1 < 0.0 then x1 + DCC else x1;
      p.(xsp := x2)
    else p
  }

  /** An idle or walking player on the ground faces its direction of
      motion (graphics.h:1015-1017). */
  function Face(p: Player): (r: Player)
    ensures (p.action == Idle || p.action == Moving) && p.grounded && p.xsp > 0.0 ==> r.lastDir == 1
    ensures (p.action == Idle || p.action == Moving) && p.grounded && p.xsp < 0.0 ==> r.lastDir == -1
    ensures !((p.action == Idle || p.action == Moving) && p.grounded && p.xsp != 0.0) ==> r == p
    ensures r == p.(lastDir := r.lastDir)
  {
    if (p.action == Idle || p.action == Moving) && p.grounded && Abs(p.xsp) > 0.0
    then p.(lastDir := Sign(p.xsp)) else p
  }

  /** The speed cap (graphics.h:1019-1026): 2 with K held, 1 without;
      a speed inside the cap is kept, one outside is clamped to it. */
  function CapSpeed(p: Player, k: Keys): (r: Player)
    ensures r.maxSpeed == (if k.dash then 2.0 else 1.0)
    ensures Abs(r.xsp) <= r.maxSpeed
    ensures Abs(p.xsp) <= r.maxSpeed ==> r.xsp == p.xsp
    ensures p.xsp > r.maxSpeed ==> r.xsp == r.maxSpeed
    ensures p.xsp < -r.maxSpeed ==> r.xsp == -r.maxSpeed
    ensures r == p.(xsp := r.xsp, maxSpeed := r.maxSpeed)
  {
    var mxx := if k.dash then 2.0 else 1.0;
    var x1 := if p.xsp > mxx then mxx else p.xsp;
    var x2 := if x1 < -mxx then -mxx else x1;
    p.(xsp := x2, maxSpeed := mxx)
  }

  /** A jump starts exactly when J is held on the ground with the latch
      released (graphics.h:1030-1036); it leaves the ground upwards at
      `jmpval`, and the latch holds until J is let go on the ground. */
  function StartJump(p: Player, k: Keys): (r: Player)
    ensures r.jumping && !r.grounded && r.action == Jumping && r.pressedDownStill && r.ysp == JUMP_SPEED
            <== k.jump && p.grounded && !p.pressedDownStill
    ensures !(k.jump && p.grounded && !p.pressedDownStill) ==> r == p
    ensures r == p.(ysp := r.ysp, jumping := r.jumping, grounded := r.grounded, action := r.action,
                    pressedDownStill := r.pressedDownStill)
  {
    if k.jump && p.grounded && !p.pressedDownStill then
      p.(ysp := JUMP_SPEED, jumping := true, grounded := false, action := Jumping, pressedDownStill := true)
    else p
  }

  /** Jump hold (graphics.h:1039-1042): while jumping the timer rises by
      0.5 per tick; the jump goes on while the timer is below the minimum
      whatever J does, and after that only while J is held and the timer is
      below a limit that grows with the horizontal speed. */
  function HoldJump(p: Player, k: Keys): (r: Player)
    ensures !p.jumping ==> r == p
    ensures p.jumping ==> r.jumpTimer == p.jumpTimer + 0.5
    ensures p.jumping && r.jumpTimer < MIN_JUMP_TIME ==> r.jumping
    ensures p.jumping && !k.jump && r.jumpTimer >= MIN_JUMP_TIME ==> !r.jumping
    ensures r.jumping && r.jumpTimer >= MIN_JUMP_TIME ==>
              k.jump && r.jumpTimer < MAX_JUMP_TIME * (1.0 + Abs(p.xsp) * 0.15)
    ensures p.jumping && k.jump && r.jumpTimer < MAX_JUMP_TIME * (1.0 + Abs(p.xsp) * 0.15) ==> r.jumping
    ensures r == p.(jumpTimer := r.jumpTimer, jumping := r.jumping)
  {
    if p.jumping then
      var timer := p.jumpTimer + 0.5;
      var going := (k.jump && timer < MAX_JUMP_TIME * (1.0 + Abs(p.xsp) * 0.15)) || timer < MIN_JUMP_TIME;
      p.(jumpTimer := timer, jumping := going)
    else p
  }

  /** The ground probe (graphics.h:1043-1059), given whether some tile
      overlaps the box moved by (0, ysp). A hit grounds the player, makes
      it idle and ends any jump. The jump latch is released when J is up
      and `gnd` is set at that point, which is before the count is looked
      at: a player that was grounded before the probe releases it even
      when the probe misses. Afterwards `gnd` is exactly "some tile hit". */
  function GroundProbe(p: Player, k: Keys, hit: bool): (r: Player)
    ensures r.grounded == hit
    ensures hit ==> r.action == Idle && r.jumpTimer == 0.0 && !r.jumping
    ensures !hit ==> r.action == p.action && r.jumpTimer == p.jumpTimer && r.jumping == p.jumping
    ensures r.pressedDownStill == (p.pressedDownStill && (k.jump || (!hit && !p.grounded)))
    ensures r == p.(grounded := r.grounded, action := r.action, jumpTimer := r.jumpTimer,
                    jumping := r.jumping, pressedDownStill := r.pressedDownStill)
  {
    var landed := if hit then p.(grounded := true, action := Idle, jumpTimer := 0.0, jumping := false) else p;
    var released := if !k.jump && landed.grounded then landed.(pressedDownStill := false) else landed;
    released.(grounded := hit)
  }

  /** Airborne and not in the rising part of a jump: fall faster
      (graphics.h:1063-1065). */
  function Fall(p: Player): (r: Player)
    ensures !p.grounded && !p.jumping ==> r.ysp == p.ysp - GRAVITY
    ensures p.grounded || p.jumping ==> r == p
    ensures r == p.(ysp := r.ysp)
  {
    if !p.grounded && !p.jumping then p.(ysp := p.ysp - GRAVITY) else p
  }

  /** The sprite offset for a left-facing (mirrored) draw (graphics.h:1090-1092). */
  function SetOffset(p: Player): (r: Player)
    ensures r.offsetX == 14 <==> p.lastDir < 0
    ensures r.offsetX == 0 <==> p.lastDir >= 0
    ensures r == p.(offsetX := r.offsetX)
  {
    p.(offsetX := if p.lastDir < 0 then 14 else 0)
  }

  /** The states that step the run cycle (graphics.h:1094): walking, or
      idle while still sliding. */
  predicate Running(p: Player) {
    p.action == Moving || (p.action == Idle && p.xsp != 0.0)
  }

  /** The frame animation (graphics.h:1094-1106): the run cycle advances
      with the speed through frames [0, 4) and wraps to 0; standing idle
      shows frame 4; a jump shows frame 6; a crouch leaves the frame as it
      was. So a frame in [0, 7) stays there. */
  function Animate(p: Player): (r: Player)
    ensures p.action == Jumping ==> r.frame == 6.0
    ensures p.action == Idle && p.xsp == 0.0 ==> r.frame == 4.0
    ensures Running(p) && p.frame + 0.125 * Abs(p.xsp) < 4.0 ==> r.frame == p.frame + 0.125 * Abs(p.xsp)
    ensures Running(p) && p.frame + 0.125 * Abs(p.xsp) >= 4.0 ==> r.frame == 0.0
    ensures p.action == Crouching ==> r.frame == p.frame
    ensures 0.0 <= p.frame < FRAMES ==> 0.0 <= r.frame < FRAMES
    ensures r == p.(frame := r.frame)
  {
    var f1 := if p.action == Moving || (p.action == Idle && Abs(p.xsp) > 0.0) then
                var f := p.frame + 0.125 * Abs(p.xsp);
                if f >= 4.0 then 0.0 else f
              else p.frame;
    var f2 := if p.action == Idle && p.xsp == 0.0 then 4.0 else f1;
    var f3 := if p.action == Jumping then 6.0 else f2;
    p.(frame := f3)
  }

  /** Everything up to the ground probe (graphics.h:984-1042). */
  function Steer(p: Player, k: Keys): (r: Player)
    ensures r.maxSpeed == (if k.dash then 2.0 else 1.0)
    ensures Abs(r.xsp) <= r.maxSpeed
    ensures r.frame == p.frame && r.depth == p.depth && r.x == p.x && r.y == p.y
    ensures (p.lastDir == 1 || p.lastDir == -1) ==> (r.lastDir == 1 || r.lastDir == -1)
  {
    var p1 := PressLeft(p, k);
    var p2 := PressRight(p1, k);
    var p3 := PressDown(p2, k);
    var p4 := ReleaseKeys(p3, k);
    var p5 := AutoStop(p4, k);
    var p6 := Decelerate(p5);
    var p7 := Face(p6);
    var p8 := CapSpeed(p7, k);
    var p9 := StartJump(p8, k);
    HoldJump(p9, k)
  }

  /** Everything up to the horizontal pass: steering, the ground probe
      against `tiles`, and gravity (graphics.h:984-1065). */
  function Settle(p: Player, k: Keys, tiles: seq<Tile>): (r: Player)
    ensures var s := Steer(p, k);
            r.grounded <==> HitsAny(s.x, s.y, 0.0, s.ysp, tiles)
    ensures r.maxSpeed == (if k.dash then 2.0 else 1.0) && Abs(r.xsp) <= r.maxSpeed
    ensures r.frame == p.frame && r.depth == p.depth
    ensures (p.lastDir == 1 || p.lastDir == -1) ==> (r.lastDir == 1 || r.lastDir == -1)
    ensures r.grounded ==> r.action == Idle && r.jumpTimer == 0.0 && !r.jumping
  {
    var s := Steer(p, k);
    var hit := CountHits(s.x, s.y, s.ysp, tiles) > 0;
    Fall(GroundProbe(s, k, hit))
  }

  /** The x the vertical pass runs at (graphics.h:1076-1077): where the
      horizontal pass `h` left it after a collision, otherwise moved by
      round(xsp). */
  function PassedX(m: Player, h: (int, bool)): int {
    if h.1 then h.0 else m.x + Round(m.xsp)
  }

  /** `player::Control` (graphics.h:983-1110): one tick against the
      collision tiles. When it ends: the speed is within the cap K selects,
      the player is grounded exactly when the probe hit a tile (and is then
      idle, not jumping, with the jump timer reset), the frame stays a valid
      index, the facing stays -1 or 1, and the draw offset matches it. */
  function Control(p: Player, k: Keys, tiles: seq<Tile>): (r: Run<Player>)
    ensures r.Halts? ==> r.value.maxSpeed == (if k.dash then 2.0 else 1.0) && Abs(r.value.xsp) <= r.value.maxSpeed
    ensures r.Halts? ==> var s := Steer(p, k);
                         r.value.grounded <==> HitsAny(s.x, s.y, 0.0, s.ysp, tiles)
    ensures r.Halts? && r.value.grounded ==> r.value.action == Idle && r.value.jumpTimer == 0.0 && !r.value.jumping
    ensures r.Halts? && 0.0 <= p.frame < FRAMES ==> 0.0 <= r.value.frame < FRAMES
    ensures r.Halts? && (p.lastDir == 1 || p.lastDir == -1) ==> r.value.lastDir == 1 || r.value.lastDir == -1
    ensures r.Halts? ==> (r.value.offsetX == 14 <==> r.value.lastDir < 0)
    ensures r.Halts? ==> r.value.depth == p.depth
  {
    var m := Settle(p, k, tiles);
    match HorizontalPass(m.x, m.y, m.xsp, tiles)
    case Diverges => Diverges
    case Halts(h) =>
      var x := PassedX(m, h);
      match VerticalPass(x, m.y, m.ysp, tiles)
      case Diverges => Diverges
      case Halts(v) =>
        var q := Animate(SetOffset(m.(x := x, y := v.0, ysp := v.1)));
        Halts(q.(y := q.y + Round(q.ysp)))
  }

  /** After a tick that ends, x moved by `round(xsp)` when the box moved by
      `xsp` touched no tile; otherwise only the contact loops moved it, and
      never against the direction of `xsp`. */
  lemma ControlMovesX(p: Player, k: Keys, tiles: seq<Tile>)
    requires Control(p, k, tiles).Halts?
    ensures var m, q := Settle(p, k, tiles), Control(p, k, tiles).value;
            && (!HitsAny(m.x, m.y, m.xsp, 1.0, tiles) ==> q.x == m.x + Round(m.xsp))
            && (HitsAny(m.x, m.y, m.xsp, 1.0, tiles) ==>
                  && HorizontalPass(m.x, m.y, m.xsp, tiles) == Halts((q.x, true))
                  && (exists i :: 0 <= i < |tiles| && BCol(q.x, m.y, Sign(m.xsp) as real, 1.0, tiles[i]))
                  && (m.xsp >= 0.0 ==> q.x >= m.x) && (m.xsp <= 0.0 ==> q.x <= m.x))
  {
    var m := Settle(p, k, tiles);
    var h := HorizontalPass(m.x, m.y, m.xsp, tiles);
    assert h.Halts?;
  }

  /** A tick hangs exactly when one of its contact passes does: the
      horizontal pass reaches a tile it cannot leave, or it ends and the
      vertical pass, run at the x it produced, first hits such a tile. So a
      tick with no tiles, or with both speeds 0 after gravity, ends. */
  lemma ControlEnds(p: Player, k: Keys, tiles: seq<Tile>)
    ensures var m := Settle(p, k, tiles);
            var h := HorizontalPass(m.x, m.y, m.xsp, tiles);
            Control(p, k, tiles).Diverges? <==>
              (exists i :: StuckEntryX(m.x, m.y, m.xsp, tiles, i)) ||
              (h.Halts? && exists i :: StuckFirstY(PassedX(m, h.value), m.y, m.ysp, tiles, i))
    ensures var m := Settle(p, k, tiles);
            tiles == [] || (m.xsp == 0.0 && m.ysp == 0.0) ==> Control(p, k, tiles).Halts?
  {
    var m := Settle(p, k, tiles);
    PassesEnd(m, tiles);
  }

  /** Both contact passes of a tick, started from the settled player `m`:
      together they hang exactly when the horizontal pass reaches a tile it
      cannot leave, or the vertical pass, run at the x the horizontal one
      produced, first hits such a tile. */
  lemma PassesEnd(m: Player, tiles: seq<Tile>)
    ensures var h := HorizontalPass(m.x, m.y, m.xsp, tiles);
            (h.Diverges? || VerticalPass(PassedX(m, h.value), m.y, m.ysp, tiles).Diverges?) <==>
              (exists i :: StuckEntryX(m.x, m.y, m.xsp, tiles, i)) ||
              (h.Halts? && exists i :: StuckFirstY(PassedX(m, h.value), m.y, m.ysp, tiles, i))
    ensures tiles == [] || (m.xsp == 0.0 && m.ysp == 0.0) ==>
              var h := HorizontalPass(m.x, m.y, m.xsp, tiles);
              h.Halts? && VerticalPass(PassedX(m, h.value), m.y, m.ysp, tiles).Halts?
  {
    var h := HorizontalPass(m.x, m.y, m.xsp, tiles);
    HorizontalPassEnds(m.x, m.y, m.xsp, tiles);
    if h.Halts? {
      VerticalPassEnds(PassedX(m, h.value), m.y, m.ysp, tiles);
    }
  }

  /** A box whose right edge meets a tile's left edge, moving right at half
      a pixel per tick, enters the contact loop already touching the tile:
      the loop stops at once and the pass ends with x unchanged and a
      collision reported. */
  lemma TouchingContactEnds()
    ensures HorizontalPass(-14, 0, 0.5, [Tile(0, 0, 1, 16, 16, 0, Collision)]) == Halts((-14, true))
  {
    var t := Tile(0, 0, 1, 16, 16, 0, Collision);
    assert BCol(-14, 0, 0.5, 1.0, t);
    assert ContactX(-14, 0, 0.5, t) == Halts(-14);
  }

  /** The contact loop can hang the game: a grounded player walking right
      while overlapping the last column of a tile to its left steps right
      forever, because each step moves the box away from the tile. */
  lemma WalkingAwayHangs()
    ensures var t := Tile(0, 0, 1, 16, 16, 0, Collision);
            var p := Player(15, 0, 0.5, 0.0, true, Moving, false, 0.0, false, 1, 0.0, 1.0, 0, 0);
            Control(p, Keys(false, true, false, false, false), [t]) == Diverges
  {
    var t := Tile(0, 0, 1, 16, 16, 0, Collision);
    var p := Player(15, 0, 0.5, 0.0, true, Moving, false, 0.0, false, 1, 0.0, 1.0, 0, 0);
    var k := Keys(false, true, false, false, false);
    var s := Steer(p, k);
    assert s.x == 15 && s.y == 0 && s.xsp == 0.75 && s.ysp == 0.0;
    var m := Settle(p, k, [t]);
    assert m == Fall(GroundProbe(s, k, true));
    assert m.x == 15 && m.y == 0 && m.xsp == 0.75;
    assert BCol(15, 0, 0.75, 1.0, t);
    assert ContactX(15, 0, 0.75, t) == Diverges;
  }

  /** The state the source keeps between ticks, as far as drawing needs it:
      a frame that indexes the sprite table, a facing of -1 or 1 with the
      matching offset, and a speed within the current cap. */
  predicate PlayerInv(p: Player) {
    && 0.0 <= p.frame < FRAMES
    && (p.lastDir == 1 || p.lastDir == -1)
    && (p.offsetX == 14 <==> p.lastDir < 0)
    && (p.maxSpeed == 1.0 || p.maxSpeed == 2.0)
    && Abs(p.xsp) <= p.maxSpeed
  }

  /** The starting player satisfies the invariant and every tick that ends
      keeps it. */
  lemma ControlKeepsInv(p: Player, k: Keys, tiles: seq<Tile>)
    requires PlayerInv(p)
    ensures PlayerInv(DefaultPlayer())
    ensures Control(p, k, tiles).Halts? ==> PlayerInv(Control(p, k, tiles).value)
  {
  }

  /** `player::Draw` (graphics.h:1112-1114): sprite `(int)frame`, shifted
      by the offset, mirrored by the facing, at the player's depth. */
  function PlayerRequest(p: Player): (q: Request)
    requires 0.0 <= p.frame < FRAMES
    ensures ValidRef(q.owner) && q.owner.PlayerSprite?
    ensures q.owner.index as real <= p.frame < q.owner.index as real + 1.0
    ensures q.x == (p.x + p.offsetX) as real && q.y == p.y as real
    ensures q.xscale == p.lastDir as real && q.yscale == 1.0 && q.rotation == 0.0
    ensures q.depth == p.depth as real
  {
    Request(PlayerSprite(Trunc(p.frame)), (p.x as real) + (p.offsetX as real), p.y as real,
            p.lastDir as real, 1.0, 0.0, p.depth as real)
  }

  /** `n` ticks of jump hold with the given keys. */
  function HoldJumpAll(p: Player, ks: seq<Keys>): (r: Player)
    decreases |ks|
  {
    if |ks| == 0 then p else HoldJumpAll(HoldJump(p, ks[0]), ks[1..])
  }

  /** A jump that has just started lasts at least the first seven ticks of
      hold, whatever J does meanwhile: the minimum jump. */
  lemma {:induction false} MinimumJump(p: Player, ks: seq<Keys>)
    requires p.jumping && 0.0 <= p.jumpTimer
    requires p.jumpTimer + 0.5 * (|ks| as real) < MIN_JUMP_TIME
    ensures HoldJumpAll(p, ks).jumping
    ensures HoldJumpAll(p, ks).jumpTimer == p.jumpTimer + 0.5 * (|ks| as real)
    decreases |ks|
  {
    if |ks| > 0 {
      var p' := HoldJump(p, ks[0]);
      MinimumJump(p', ks[1..]);
    }
  }

  /** At the speed cap's largest value the hold never lasts past a timer
      of 9.1: from a timer of 9 one more tick ends the jump. */
  lemma MaximumJump(p: Player, k: Keys)
    requires p.jumping && p.jumpTimer >= 9.0 && Abs(p.xsp) <= 2.0
    ensures !HoldJump(p, k).jumping
  {
  }

  /** Deceleration as written never stops a small positive speed: idle on
      the ground at 1/16, every tick leaves the speed at 1/16. */
  lemma DecelerateStalls(p: Player)
    requires p.action == Idle && p.grounded && p.xsp == 0.0625
    ensures Decelerate(p).xsp == 0.0625
  {
  }

  /** Deceleration as written can reverse the motion: -1/16 becomes +1/16. */
  lemma DecelerateOvershoots(p: Player)
    requires p.action == Crouching && p.grounded && p.xsp == -0.0625
    ensures Decelerate(p).xsp == 0.0625
  {
  }
}
