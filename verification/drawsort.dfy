/** The deferred draw sorter (`drawsort`, graphics.h:764-803) and the
    enqueueing `sprite::Draw` (graphics.cpp:108-111).

    A draw request names the sprite that will be drawn by a handle into one
    of the engine's sprite tables instead of a raw pointer. The GPU draw
    itself (`sprite::GraphicDraw`) is an abstract event: flushing the sorter
    yields the sequence of requests in the order they are handed to it. */
module DrawSort {

  /** Sizes of the sprite tables built in main.cpp:241-251. */
  const TILE_SPRITES: int := 6
  const BACKGROUND_SPRITES: int := 11
  const ENEMY_SPRITES: int := 2
  const PLAYER_SPRITES: int := 7

  /** The sprite a request points at: a table and an index into it.
      `NoSprite` is the null pointer of a value-initialised record. */
  datatype SpriteRef =
    | NoSprite
    | TileSprite(index: int)
    | BackgroundSprite(index: int)
    | EnemySprite(index: int)
    | PlayerSprite(index: int)

  /** The reference designates an existing entry of its table. */
  predicate ValidRef(s: SpriteRef) {
    match s
    case NoSprite => false
    case TileSprite(i) => 0 <= i < TILE_SPRITES
    case BackgroundSprite(i) => 0 <= i < BACKGROUND_SPRITES
    case EnemySprite(i) => 0 <= i < ENEMY_SPRITES
    case PlayerSprite(i) => 0 <= i < PLAYER_SPRITES
  }

  /** One pending draw (`spriteinfo`). */
  datatype Request = Request(owner: SpriteRef, x: real, y: real, xscale: real, yscale: real,
                             rotation: real, depth: real)

  /** The record `emplace_back()` creates before its fields are written. */
  const Blank: Request := Request(NoSprite, 0.0, 0.0, 0.0, 0.0, 0.0, 0.0)

  /** The sorter: a counter and the list of pending requests. */
  datatype Sorter = Sorter(spriteCount: int, pending: seq<Request>)

  /** The representation invariant the indexed writes depend on. */
  predicate Valid(s: Sorter) {
    s.spriteCount == |s.pending|
  }

  /** The freshly constructed sorter (graphics.h:767-769). */
  function NewSorter(): (s: Sorter)
    ensures Valid(s)
    ensures s.pending == []
  {
    Sorter(0, [])
  }

  /** `addspritetostack`: grow the list by one value-initialised record,
      then fill the record at index `spriteCount`. */
  function AddSpriteToStack(s: Sorter, owner: SpriteRef, x: real, y: real, xscale: real,
                            yscale: real, rotate: real, depth: real): (r: Sorter)
    requires Valid(s)
    ensures Valid(r)
    ensures r.spriteCount == s.spriteCount + 1
    ensures r.pending == s.pending + [Request(owner, x, y, xscale, yscale, rotate, depth)]
  {
    var grown := s.pending + [Blank];
    var filled := grown[s.spriteCount := Request(owner, x, y, xscale, yscale, rotate, depth)];
    Sorter(s.spriteCount + 1, filled)
  }

  /** `resetstack`. */
  function ResetStack(s: Sorter): (r: Sorter)
    ensures Valid(r)
    ensures r.pending == [] && r.spriteCount == 0
  {
    Sorter(0, [])
  }

  /** `sprite::Draw`: no drawing, one request appended to the sorter. */
  function Submit(s: Sorter, owner: SpriteRef, x: real, y: real, xscale: real, yscale: real,
                  rotate: real, depth: real): (r: Sorter)
    requires Valid(s)
    ensures Valid(r)
    ensures |r.pending| == |s.pending| + 1
    ensures r.pending[..|s.pending|] == s.pending
    ensures r.pending[|s.pending|] == Request(owner, x, y, xscale, yscale, rotate, depth)
  {
    AddSpriteToStack(s, owner, x, y, xscale, yscale, rotate, depth)
  }

  /** Submit a batch of requests, first to last. */
  function SubmitAll(s: Sorter, reqs: seq<Request>): (r: Sorter)
    requires Valid(s)
    ensures Valid(r)
    ensures r.pending == s.pending + reqs
    decreases |reqs|
  {
    if |reqs| == 0 then s
    else
      var q := reqs[0];
      var s' := Submit(s, q.owner, q.x, q.y, q.xscale, q.yscale, q.rotation, q.depth);
      assert s'.pending == s.pending + [q];
      assert s.pending + reqs == s'.pending + reqs[1..];
      SubmitAll(s', reqs[1..])
  }

  /** Back to front: depth never increases along the sequence (the
      comparator `left.depth > right.depth` of graphics.h:794). */
  predicate SortedByDepth(s: seq<Request>) {
    forall i, j :: 0 <= i < j < |s| ==> s[i].depth >= s[j].depth
  }

  /** A request no shallower than every request of a back-to-front list
      can go in front of it. */
  lemma PrependSorted(h: Request, t: seq<Request>)
    requires SortedByDepth(t)
    requires forall x :: x in t ==> h.depth >= x.depth
    ensures SortedByDepth([h] + t)
  {
    var o := [h] + t;
    forall i, j | 0 <= i < j < |o| ensures o[i].depth >= o[j].depth {
      assert o[j] == t[j - 1];
      if i > 0 {
        assert o[i] == t[i - 1];
      }
    }
  }

  /** The head of a back-to-front list is at least as deep as all of it. */
  lemma HeadDeepest(s: seq<Request>)
    requires SortedByDepth(s) && |s| > 0
    ensures forall x :: x in s ==> s[0].depth >= x.depth
  {
    forall x | x in s ensures s[0].depth >= x.depth {
      var i :| 0 <= i < |s| && s[i] == x;
    }
  }

  /** Put `q` into a back-to-front list. */
  function InsertByDepth(q: Request, s: seq<Request>): (o: seq<Request>)
    requires SortedByDepth(s)
    ensures SortedByDepth(o)
    ensures multiset(o) == multiset(s) + multiset{q}
    ensures forall x :: x in o ==> x == q || x in s
  {
    if |s| == 0 then [q]
    else
      HeadDeepest(s);
      if q.depth >= s[0].depth then
        PrependSorted(q, s);
        [q] + s
      else
        var tail := s[1..];
        assert SortedByDepth(tail);
        var rest := InsertByDepth(q, tail);
        assert s == [s[0]] + tail;
        PrependSorted(s[0], rest);
        [s[0]] + rest
  }

  /** A back-to-front arrangement of `s`. Requests of equal depth come out
      in an order the contract leaves open, as `std::sort` does. */
  function SortByDepth(s: seq<Request>): (o: seq<Request>)
    ensures SortedByDepth(o)
    ensures multiset(o) == multiset(s)
  {
    if |s| == 0 then []
    else
      assert s == [s[0]] + s[1..];
      InsertByDepth(s[0], SortByDepth(s[1..]))
  }

  /** What `drawstack` leaves behind: the sorter, whose list it reorders in
      place, and the `GraphicDraw` calls it made, in order. */
  datatype Flush = Flush(sorter: Sorter, drawn: seq<Request>)

  /** `drawstack`: sort the pending list back to front, then hand every
      request to `GraphicDraw` once. */
  function DrawStack(s: Sorter): (r: Flush)
    ensures SortedByDepth(r.drawn)
    ensures multiset(r.drawn) == multiset(s.pending)
    ensures forall q :: q in r.drawn <==> q in s.pending
    ensures |r.drawn| == |s.pending|
    ensures r.sorter.pending == r.drawn
    ensures r.sorter.spriteCount == s.spriteCount
  {
    var sorted := SortByDepth(s.pending);
    assert |sorted| == |multiset(sorted)| == |multiset(s.pending)| == |s.pending|;
    assert forall q :: q in sorted <==> q in multiset(s.pending);
    Flush(Sorter(s.spriteCount, sorted), sorted)
  }

  /** A flush right after a reset draws nothing. */
  lemma FlushAfterResetDrawsNothing(s: Sorter)
    ensures DrawStack(ResetStack(s)).drawn == []
  {
  }

  /** Every sorter reachable from a fresh one by submits, flushes and resets
      keeps the count equal to the list length. */
  lemma SorterOperationsKeepValid(s: Sorter, q: Request)
    requires Valid(s)
    ensures Valid(Submit(s, q.owner, q.x, q.y, q.xscale, q.yscale, q.rotation, q.depth))
    ensures Valid(DrawStack(s).sorter)
    ensures Valid(ResetStack(s))
  {
  }

  /** Requests submitted with depths 3, 1, 2 are drawn as 3, 2, 1: with
      distinct depths the contract of `DrawStack` fixes the order. */
  lemma ThreeDepthsExample(a: Request, b: Request, c: Request)
    requires a.depth == 3.0 && b.depth == 1.0 && c.depth == 2.0
    ensures var d := DrawStack(Sorter(3, [a, b, c])).drawn;
            |d| == 3 && d[0] == a && d[1] == c && d[2] == b
  {
    var d := DrawStack(Sorter(3, [a, b, c])).drawn;
    assert multiset(d) == multiset{a, b, c};
    assert a in multiset(d) && b in multiset(d) && c in multiset(d);
    assert a in d && b in d && c in d;
    var ia :| 0 <= ia < 3 && d[ia] == a;
    var ib :| 0 <= ib < 3 && d[ib] == b;
    var ic :| 0 <= ic < 3 && d[ic] == c;
    assert ia < ic < ib;
  }
}
