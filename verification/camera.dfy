/** The side-scrolling rule of the main loop (main.cpp:333-335): the
    camera follows the player to the right once the player is more than
    half a screen (128 pixels) ahead of it, and never scrolls back. */
module Camera {

  /** `CAM` (graphics.h:755-762): the scroll position. */
  datatype Cam = Cam(x: int, y: int)

  /** Half the 256-pixel render width. */
  const HALF_WIDTH: int := 128

  /** The start position `GLOBCAM(0, 0)` (main.cpp:42). */
  function StartCam(): (c: Cam)
    ensures c.x == 0 && c.y == 0
  {
    Cam(0, 0)
  }

  /** One scroll step for a player at horizontal position `px`. The new
      position is the larger of the old one and `px - 128`: it never moves
      left, leaves the player at most 128 pixels ahead, moves no further
      than that demands, and never touches y. */
  function Scroll(c: Cam, px: int): (r: Cam)
    ensures r.y == c.y
    ensures r.x >= c.x
    ensures px - r.x <= HALF_WIDTH
    ensures r.x == c.x || px - r.x == HALF_WIDTH
    ensures r.x == (if px - HALF_WIDTH > c.x then px - HALF_WIDTH else c.x)
  {
    if px - c.x > HALF_WIDTH && px > c.x then c.(x := c.x + ((px - c.x) - HALF_WIDTH)) else c
  }

  /** Scrolling twice for the same player position is scrolling once. */
  lemma ScrollIdempotent(c: Cam, px: int)
    ensures Scroll(Scroll(c, px), px) == Scroll(c, px)
  {
  }

  /** A player further right never leaves the camera further left. */
  lemma ScrollMonotone(c: Cam, px: int, px': int)
    requires px <= px'
    ensures Scroll(c, px).x <= Scroll(c, px').x
  {
  }

  /** The camera position after following the player through the positions
      `pxs`, tick by tick. */
  function Follow(c: Cam, pxs: seq<int>): (r: Cam)
    ensures r.y == c.y && r.x >= c.x
    ensures forall i :: 0 <= i < |pxs| ==> pxs[i] - HALF_WIDTH <= r.x
    decreases |pxs|
  {
    if |pxs| == 0 then c else Follow(Scroll(c, pxs[0]), pxs[1..])
  }

  /** After following a run of positions, the camera sits at the furthest
      point any of them demanded, or where it started. */
  lemma {:induction false} FollowIsFurthest(c: Cam, pxs: seq<int>)
    ensures Follow(c, pxs).x == c.x || exists i :: 0 <= i < |pxs| && Follow(c, pxs).x == pxs[i] - HALF_WIDTH
    decreases |pxs|
  {
    if |pxs| > 0 {
      var c1 := Scroll(c, pxs[0]);
      FollowIsFurthest(c1, pxs[1..]);
      var r := Follow(c, pxs);
      assert r == Follow(c1, pxs[1..]);
      if r.x != c1.x {
        var i :| 0 <= i < |pxs[1..]| && r.x == pxs[1..][i] - HALF_WIDTH;
        assert pxs[i + 1] == pxs[1..][i];
      } else if c1.x != c.x {
        assert r.x == pxs[0] - HALF_WIDTH;
      }
    }
  }
}
