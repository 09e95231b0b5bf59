/** The level file decoder (`LoadLVL`, main.cpp:91-200).

    A level file is a run of 32-bit little-endian signed integers: the
    background colour (three ints), the counts B, T and E, then B
    background-tile triples, T collision-tile triples and E spawn triples,
    each triple being (kind, x, y). The source reads whatever the counts
    say without looking at the buffer length; the model instead fails
    where the source would read past the end, resize a vector to a
    negative size or index a sprite table out of range. */
module LevelFormat {
  import opened Outcome
  import opened Entities

  type Byte = b: int | 0 <= b < 0x100

  predicate IsInt32(v: int) {
    -0x8000_0000 <= v < 0x8000_0000
  }

  /** `memcpy` of four bytes at `off` into an `int`, little-endian. */
  function ReadInt32(buf: seq<Byte>, off: int): (v: int)
    requires 0 <= off && off + 4 <= |buf|
    ensures IsInt32(v)
  {
    var b0, b1, b2, b3: int := buf[off], buf[off + 1], buf[off + 2], buf[off + 3];
    var u := b0 + 0x100 * b1 + 0x1_0000 * b2 + 0x100_0000 * b3;
    if u >= 0x8000_0000 then u - 0x1_0000_0000 else u
  }

  /** The value read is the 32-bit number whose two's complement the four
      bytes spell, lowest byte first: with its range, this congruence fixes
      it. */
  lemma ReadInt32LittleEndian(buf: seq<Byte>, off: int)
    requires 0 <= off && off + 4 <= |buf|
    ensures ReadInt32(buf, off) % 0x1_0000_0000 ==
              (buf[off] as int) + 0x100 * (buf[off + 1] as int) + 0x1_0000 * (buf[off + 2] as int)
                + 0x100_0000 * (buf[off + 3] as int)
  {
  }

  /** One raw (kind, x, y) record of the file: 12 bytes. The header
      (colour and three counts) takes 24 bytes. */
  datatype Triple = Triple(kind: int, x: int, y: int)

  function ReadTriple(buf: seq<Byte>, off: int): (t: Triple)
    requires 0 <= off && off + 12 <= |buf|
    ensures t.kind == ReadInt32(buf, off)
    ensures t.x == ReadInt32(buf, off + 4) && t.y == ReadInt32(buf, off + 8)
  {
    Triple(ReadInt32(buf, off), ReadInt32(buf, off + 4), ReadInt32(buf, off + 8))
  }

  /** Depth of background tiles (main.cpp:144) and collision tiles (main.cpp:159). */
  function LayerDepth(layer: Layer): int {
    if layer == Background then 2 else 1
  }

  /** The tile a triple describes: y is flipped to `-y-16`, the size is
      16x16 (main.cpp:144, 159). */
  function TileFrom(t: Triple, layer: Layer): Tile {
    Tile(t.x, -t.y - 16, LayerDepth(layer), 16, 16, t.kind, layer)
  }

  /** Why a buffer is not a level. */
  datatype DecodeError =
    | Truncated        // a read would run past the end of the buffer
    | NegativeCount    // B or T is negative: `resize` would fail
    | UnknownTileKind  // a tile kind outside its sprite table

  /** `n` triples at `off` fit in the buffer and carry kinds valid on `layer`. */
  predicate TilesFit(buf: seq<Byte>, off: nat, n: nat, layer: Layer)
    requires off <= |buf|
  {
    && off + 12 * n <= |buf|
    && forall i :: 0 <= i < n ==> KindFits(ReadTriple(buf, off + 12 * i).kind, layer)
  }

  /** Triple `i` of a run at `off` is triple `i - 1` of the run one triple on. */
  lemma ShiftedTriple(buf: seq<Byte>, off: nat, i: nat)
    requires 1 <= i && off + 12 * i + 12 <= |buf|
    ensures ReadTriple(buf, off + 12 * i) == ReadTriple(buf, (off + 12) + 12 * (i - 1))
  {
    assert off + 12 * i == (off + 12) + 12 * (i - 1);
  }

  /** Fitting `n` triples is fitting the first and then `n - 1` more. */
  lemma TilesFitStep(buf: seq<Byte>, off: nat, n: nat, layer: Layer)
    requires 0 < n && off + 12 <= |buf|
    ensures TilesFit(buf, off, n, layer) <==>
              KindFits(ReadTriple(buf, off).kind, layer) && TilesFit(buf, off + 12, n - 1, layer)
  {
    if off + 12 * n <= |buf| {
      if KindFits(ReadTriple(buf, off).kind, layer) && TilesFit(buf, off + 12, n - 1, layer) {
        forall i | 0 <= i < n ensures KindFits(ReadTriple(buf, off + 12 * i).kind, layer) {
          if i == 0 {
            assert off + 12 * i == off;
          } else {
            ShiftedTriple(buf, off, i);
          }
        }
      }
      if TilesFit(buf, off, n, layer) {
        assert KindFits(ReadTriple(buf, off + 12 * 0).kind, layer);
        forall i | 0 <= i < n - 1 ensures KindFits(ReadTriple(buf, (off + 12) + 12 * i).kind, layer) {
          ShiftedTriple(buf, off, i + 1);
        }
      }
    }
  }

  /** The `n` triples at `off`, read by position. */
  function TriplesAt(buf: seq<Byte>, off: nat, n: nat): (ts: seq<Triple>)
    requires off + 12 * n <= |buf|
    ensures |ts| == n
  {
    seq(n, i requires 0 <= i < n => ReadTriple(buf, off + 12 * i))
  }

  /** The tiles a list of triples places on `layer`, in order. */
  function Placed(es: seq<Triple>, layer: Layer): (ts: seq<Tile>)
    ensures |ts| == |es|
  {
    seq(|es|, i requires 0 <= i < |es| => TileFrom(es[i], layer))
  }

  /** The `n` tiles at `off` on `layer`, read by position. */
  function TilesAt(buf: seq<Byte>, off: nat, n: nat, layer: Layer): (ts: seq<Tile>)
    requires off + 12 * n <= |buf|
    ensures |ts| == n
  {
    Placed(TriplesAt(buf, off, n), layer)
  }

  /** A run of `n` triples is its first triple followed by the run of
      `n - 1` one triple on. */
  lemma TriplesAtStep(buf: seq<Byte>, off: nat, n: nat)
    requires 0 < n && off + 12 * n <= |buf|
    ensures TriplesAt(buf, off, n) == [ReadTriple(buf, off)] + TriplesAt(buf, off + 12, n - 1)
  {
    var a, b := TriplesAt(buf, off, n), [ReadTriple(buf, off)] + TriplesAt(buf, off + 12, n - 1);
    forall i | 0 <= i < n ensures a[i] == b[i] {
      if i == 0 {
        assert off + 12 * i == off;
      } else {
        ShiftedTriple(buf, off, i);
      }
    }
  }

  lemma PlacedCons(e: Triple, es: seq<Triple>, layer: Layer)
    ensures Placed([e] + es, layer) == [TileFrom(e, layer)] + Placed(es, layer)
  {
    var a, b := Placed([e] + es, layer), [TileFrom(e, layer)] + Placed(es, layer);
    forall i | 0 <= i < |a| ensures a[i] == b[i] {
      if i > 0 {
        assert ([e] + es)[i] == es[i - 1];
      }
    }
  }

  /** Tiles read from fitting triples sit on their layer with a kind inside
      its sprite table. */
  lemma TilesAtFit(buf: seq<Byte>, off: nat, n: nat, layer: Layer)
    requires off <= |buf| && TilesFit(buf, off, n, layer)
    ensures forall k :: k in TilesAt(buf, off, n, layer) ==>
              k.layer == layer && KindFits(k.kind, layer) && k.depth == LayerDepth(layer)
  {
    var ts := TilesAt(buf, off, n, layer);
    forall k | k in ts ensures k.layer == layer && KindFits(k.kind, layer) && k.depth == LayerDepth(layer) {
      var i :| 0 <= i < n && ts[i] == k;
      assert KindFits(ReadTriple(buf, off + 12 * i).kind, layer);
    }
  }

  /** One of the tile loops (main.cpp:134-145 or 147-161): read a triple,
      build its tile, `n` times, failing where the source would read past
      the buffer or index a sprite table out of range. */
  function DecodeTiles(buf: seq<Byte>, off: nat, n: nat, layer: Layer): (r: Result<seq<Tile>, DecodeError>)
    requires off <= |buf|
    ensures r.Ok? <==> TilesFit(buf, off, n, layer)
    ensures r.Ok? ==> r.value == TilesAt(buf, off, n, layer)
    decreases n
  {
    if n == 0 then Ok([])
    else if off + 12 > |buf| then Err(Truncated)
    else
      var t := ReadTriple(buf, off);
      TilesFitStep(buf, off, n, layer);
      if !KindFits(t.kind, layer) then Err(UnknownTileKind)
      else
        match DecodeTiles(buf, off + 12, n - 1, layer)
        case Err(e) => Err(e)
        case Ok(rest) =>
          TriplesAtStep(buf, off, n);
          PlacedCons(t, TriplesAt(buf, off + 12, n - 1), layer);
          Ok([TileFrom(t, layer)] + rest)
  }

  /** The spawn loop's reads (main.cpp:164-171): `n` triples at `off`. */
  function ReadSpawns(buf: seq<Byte>, off: nat, n: nat): (r: Result<seq<Triple>, DecodeError>)
    requires off <= |buf|
    ensures r.Ok? <==> off + 12 * n <= |buf|
    ensures r.Ok? ==> r.value == TriplesAt(buf, off, n)
    decreases n
  {
    if n == 0 then Ok([])
    else if off + 12 > |buf| then Err(Truncated)
    else
      match ReadSpawns(buf, off + 12, n - 1)
      case Err(e) => Err(e)
      case Ok(rest) =>
        TriplesAtStep(buf, off, n);
        Ok([ReadTriple(buf, off)] + rest)
  }

  /** Where a kind-0 entry puts the player (main.cpp:173-176). */
  datatype Pos = Pos(x: int, y: int)

  /** The player position after the spawn entries, starting from `current`:
      each kind-0 entry overwrites it (main.cpp:173-176). */
  function PlayerSpawn(es: seq<Triple>, current: Option<Pos>): Option<Pos>
    decreases |es|
  {
    if |es| == 0 then current
    else
      var next := if es[0].kind == 0 then Some(Pos(es[0].x, -es[0].y - 33)) else current;
      PlayerSpawn(es[1..], next)
  }

  /** The enemy a kind-1 entry creates (main.cpp:179). */
  function EnemyFrom(e: Triple): Enemy {
    NewEnemy(e.x, -e.y - 16, 16, 16, 1)
  }

  /** The enemies the spawn entries create, in file order (main.cpp:178-180);
      every other kind creates nothing. */
  function SpawnEnemies(es: seq<Triple>): seq<Enemy>
    decreases |es|
  {
    if |es| == 0 then []
    else (if es[0].kind == 1 then [EnemyFrom(es[0])] else []) + SpawnEnemies(es[1..])
  }

  /** Number of entries of kind `k`. */
  function CountKind(es: seq<Triple>, k: int): nat
    decreases |es|
  {
    if |es| == 0 then 0 else (if es[0].kind == k then 1 else 0) + CountKind(es[1..], k)
  }

  /** Without a kind-0 entry the player position is left as it was. */
  lemma {:induction false} NoPlayerSpawnKeeps(es: seq<Triple>, current: Option<Pos>)
    requires forall i :: 0 <= i < |es| ==> es[i].kind != 0
    ensures PlayerSpawn(es, current) == current
    decreases |es|
  {
    if |es| > 0 {
      assert forall i :: 0 <= i < |es[1..]| ==> es[1..][i] == es[i + 1];
      NoPlayerSpawnKeeps(es[1..], current);
    }
  }

  /** The last kind-0 entry decides the player position, whatever came
      before it. */
  lemma {:induction false} LastPlayerSpawnWins(es: seq<Triple>, current: Option<Pos>, j: nat)
    requires j < |es| && es[j].kind == 0
    requires forall i :: j < i < |es| ==> es[i].kind != 0
    ensures PlayerSpawn(es, current) == Some(Pos(es[j].x, -es[j].y - 33))
    decreases |es|
  {
    var next := if es[0].kind == 0 then Some(Pos(es[0].x, -es[0].y - 33)) else current;
    assert forall i :: 0 <= i < |es[1..]| ==> es[1..][i] == es[i + 1];
    if j == 0 {
      NoPlayerSpawnKeeps(es[1..], next);
    } else {
      LastPlayerSpawnWins(es[1..], next, j - 1);
    }
  }

  /** Exactly one enemy per kind-1 entry, each built from such an entry, and
      every kind-1 entry yields one. */
  lemma {:induction false} EnemiesMatchKindOne(es: seq<Triple>)
    ensures |SpawnEnemies(es)| == CountKind(es, 1)
    ensures forall z :: z in SpawnEnemies(es) <==>
                          exists i :: 0 <= i < |es| && es[i].kind == 1 && z == EnemyFrom(es[i])
    decreases |es|
  {
    if |es| > 0 {
      EnemiesMatchKindOne(es[1..]);
      assert es == [es[0]] + es[1..];
      forall z ensures z in SpawnEnemies(es) <==>
                       exists i :: 0 <= i < |es| && es[i].kind == 1 && z == EnemyFrom(es[i])
      {
        if exists i :: 0 <= i < |es| && es[i].kind == 1 && z == EnemyFrom(es[i]) {
          var i :| 0 <= i < |es| && es[i].kind == 1 && z == EnemyFrom(es[i]);
          if i > 0 {
            assert es[1..][i - 1] == es[i];
          }
        }
        if z in SpawnEnemies(es[1..]) {
          var i :| 0 <= i < |es[1..]| && es[1..][i].kind == 1 && z == EnemyFrom(es[1..][i]);
          assert es[i + 1] == es[1..][i];
        }
      }
    }
  }

  /** The background colour (`bg[0..2]`, main.cpp:123-125). */
  datatype Colour = Colour(r: int, g: int, b: int)

  /** Everything one level file sets. `spawn` is the last player spawn,
      if any. */
  datatype Level = Level(background: Colour, bgTiles: seq<Tile>, tiles: seq<Tile>,
                         enemies: seq<Enemy>, spawn: Option<Pos>)

  /** A decoded level and the number of bytes the decoder consumed. */
  datatype Decoded = Decoded(level: Level, used: nat)

  /** The header counts, read at byte offsets 12, 16 and 20. */
  function BgCount(buf: seq<Byte>): int requires |buf| >= 24 { ReadInt32(buf, 12) }
  function TileCount(buf: seq<Byte>): int requires |buf| >= 24 { ReadInt32(buf, 16) }
  /** The spawn loop runs `max(E, 0)` times: a negative E runs it zero times. */
  function SpawnCount(buf: seq<Byte>): nat requires |buf| >= 24 {
    var e := ReadInt32(buf, 20);
    if e < 0 then 0 else e
  }

  /** Bytes a well-formed file with these counts occupies. */
  function Size(b: nat, t: nat, e: nat): nat {
    24 + 12 * b + 12 * t + 12 * e
  }

  /** The buffer holds a complete level: header, non-negative tile counts,
      every declared triple, and tile kinds inside their sprite tables. */
  predicate WellFormed(buf: seq<Byte>) {
    && |buf| >= 24
    && BgCount(buf) >= 0 && TileCount(buf) >= 0
    && TilesFit(buf, 24, BgCount(buf), Background)
    && TilesFit(buf, 24 + 12 * BgCount(buf), TileCount(buf), Collision)
    && 24 + 12 * BgCount(buf) + 12 * TileCount(buf) + 12 * SpawnCount(buf) <= |buf|
  }

  /** The spawn entries of a well-formed buffer, in file order. */
  function SpawnEntries(buf: seq<Byte>): (es: seq<Triple>)
    requires WellFormed(buf)
    ensures |es| == SpawnCount(buf)
  {
    TriplesAt(buf, 24 + 12 * BgCount(buf) + 12 * TileCount(buf), SpawnCount(buf))
  }

  /** The level a well-formed buffer describes, read by position: the
      colour, the B tiles after the header, the T tiles after those, and
      what the spawn entries create. */
  function LevelOf(buf: seq<Byte>): Level
    requires WellFormed(buf)
  {
    var b, t := BgCount(buf), TileCount(buf);
    Level(Colour(ReadInt32(buf, 0), ReadInt32(buf, 4), ReadInt32(buf, 8)),
          TilesAt(buf, 24, b, Background),
          TilesAt(buf, 24 + 12 * b, t, Collision),
          SpawnEnemies(SpawnEntries(buf)),
          PlayerSpawn(SpawnEntries(buf), None))
  }

  /** The background tile section (main.cpp:127-145): the count B, then B
      triples right after the header. */
  function DecodeBackground(buf: seq<Byte>): (r: Result<seq<Tile>, DecodeError>)
    requires |buf| >= 24
    ensures r.Ok? <==> BgCount(buf) >= 0 && TilesFit(buf, 24, BgCount(buf), Background)
    ensures r.Ok? ==> r.value == TilesAt(buf, 24, BgCount(buf), Background)
  {
    var b := BgCount(buf);
    if b < 0 then Err(NegativeCount) else DecodeTiles(buf, 24, b, Background)
  }

  /** The collision tile section (main.cpp:128-161): the count T, then T
      triples after the background section. */
  function DecodeCollision(buf: seq<Byte>, b: nat): (r: Result<seq<Tile>, DecodeError>)
    requires |buf| >= 24 && 24 + 12 * b <= |buf|
    ensures r.Ok? <==> TileCount(buf) >= 0 && TilesFit(buf, 24 + 12 * b, TileCount(buf), Collision)
    ensures r.Ok? ==> r.value == TilesAt(buf, 24 + 12 * b, TileCount(buf), Collision)
  {
    var t := TileCount(buf);
    if t < 0 then Err(NegativeCount) else DecodeTiles(buf, 24 + 12 * b, t, Collision)
  }

  /** The spawn section (main.cpp:164-181) once both tile sections are
      read: it fails exactly when the declared spawn triples run past the
      buffer, and otherwise completes the level with what they create. */
  function DecodeSpawns(buf: seq<Byte>, b: nat, t: nat, bgTiles: seq<Tile>, tiles: seq<Tile>)
    : (r: Result<Decoded, DecodeError>)
    requires |buf| >= 24 && 24 + 12 * b + 12 * t <= |buf|
    ensures r.Ok? <==> 24 + 12 * b + 12 * t + 12 * SpawnCount(buf) <= |buf|
    ensures r.Ok? ==> var es := TriplesAt(buf, 24 + 12 * b + 12 * t, SpawnCount(buf));
                      r.value.level == Level(Colour(ReadInt32(buf, 0), ReadInt32(buf, 4), ReadInt32(buf, 8)),
                                             bgTiles, tiles, SpawnEnemies(es), PlayerSpawn(es, None))
    ensures r.Ok? ==> r.value.used == Size(b, t, SpawnCount(buf))
  {
    var e := SpawnCount(buf);
    match ReadSpawns(buf, 24 + 12 * b + 12 * t, e)
    case Err(err) => Err(err)
    case Ok(spawns) =>
      var colour := Colour(ReadInt32(buf, 0), ReadInt32(buf, 4), ReadInt32(buf, 8));
      Ok(Decoded(Level(colour, bgTiles, tiles, SpawnEnemies(spawns), PlayerSpawn(spawns, None)), Size(b, t, e)))
  }

  /** `LoadLVL` minus the file reading: decode a buffer. It succeeds
      exactly on well-formed buffers, and then yields the level the buffer
      describes and consumes exactly the bytes the counts declare. */
  function Decode(buf: seq<Byte>): (r: Result<Decoded, DecodeError>)
    ensures r.Ok? <==> WellFormed(buf)
    ensures r.Ok? ==> r.value.level == LevelOf(buf)
    ensures r.Ok? ==> r.value.used == Size(BgCount(buf), TileCount(buf), SpawnCount(buf)) <= |buf|
  {
    if |buf| < 24 then Err(Truncated)
    else
      match DecodeBackground(buf)
      case Err(err) => Err(err)
      case Ok(bgTiles) =>
        var b: nat := BgCount(buf);
        match DecodeCollision(buf, b)
        case Err(err) => Err(err)
        case Ok(tiles) => DecodeSpawns(buf, b, TileCount(buf), bgTiles, tiles)
  }

  /** Every tile of a well-formed level sits on the layer of its list and
      has a kind inside that layer's sprite table, so drawing it never
      indexes `blocksprites` or `bgsprites` out of range; every enemy starts
      on animation frame 0. */
  lemma LevelTilesFit(buf: seq<Byte>)
    requires WellFormed(buf)
    ensures var lv := LevelOf(buf);
            && (forall k :: k in lv.bgTiles ==> k.layer == Background && KindFits(k.kind, Background) && k.depth == 2)
            && (forall k :: k in lv.tiles ==> k.layer == Collision && KindFits(k.kind, Collision) && k.depth == 1)
            && (forall z :: z in lv.enemies ==> z.frame == 0.0)
  {
    TilesAtFit(buf, 24, BgCount(buf), Background);
    TilesAtFit(buf, 24 + 12 * BgCount(buf), TileCount(buf), Collision);
    EnemiesMatchKindOne(SpawnEntries(buf));
  }

  // ---------------------------------------------------------------------
  // The writer side of the format, used to state the round trip.

  /** `v` as four little-endian bytes of its 32-bit two's complement. */
  function EncodeInt32(v: int): (b: seq<Byte>)
    requires IsInt32(v)
    ensures |b| == 4
    ensures ReadInt32(b, 0) == v
  {
    var u := if v < 0 then v + 0x1_0000_0000 else v;
    var q1 := u / 0x100;
    var q2 := q1 / 0x100;
    var q3 := q2 / 0x100;
    assert u == u % 0x100 + 0x100 * q1;
    assert q1 == q1 % 0x100 + 0x100 * q2;
    assert q2 == q2 % 0x100 + 0x100 * q3;
    assert q3 < 0x100;
    [u % 0x100, q1 % 0x100, q2 % 0x100, q3]
  }

  function EncodeInts(ws: seq<int>): (b: seq<Byte>)
    requires forall i :: 0 <= i < |ws| ==> IsInt32(ws[i])
    ensures |b| == 4 * |ws|
    decreases |ws|
  {
    if |ws| == 0 then [] else EncodeInt32(ws[0]) + EncodeInts(ws[1..])
  }

  /** Reading int `i` of an encoded run, whatever follows it, gives back `ws[i]`. */
  lemma {:induction false} ReadEncodedInt(ws: seq<int>, extra: seq<Byte>, i: nat)
    requires forall k :: 0 <= k < |ws| ==> IsInt32(ws[k])
    requires i < |ws|
    ensures 4 * i + 4 <= |EncodeInts(ws) + extra|
    ensures ReadInt32(EncodeInts(ws) + extra, 4 * i) == ws[i]
    decreases i
  {
    var b := EncodeInts(ws) + extra;
    var head := EncodeInt32(ws[0]);
    var tail := EncodeInts(ws[1..]) + extra;
    assert b == head + tail;
    if i == 0 {
      assert b[0] == head[0] && b[1] == head[1] && b[2] == head[2] && b[3] == head[3];
    } else {
      ReadEncodedInt(ws[1..], extra, i - 1);
      var o := 4 * (i - 1);
      assert b[o + 4] == tail[o] && b[o + 5] == tail[o + 1] && b[o + 6] == tail[o + 2] && b[o + 7] == tail[o + 3];
    }
  }

  predicate TripleIsInt32(t: Triple) {
    IsInt32(t.kind) && IsInt32(t.x) && IsInt32(t.y)
  }

  /** Field `k` (0, 1 or 2) of a triple, in file order. */
  function Field(t: Triple, k: int): int {
    if k == 0 then t.kind else if k == 1 then t.x else t.y
  }

  /** The ints of a list of triples, in file order. */
  function Flatten(ts: seq<Triple>): (ws: seq<int>)
    ensures |ws| == 3 * |ts|
    decreases |ts|
  {
    if |ts| == 0 then [] else [ts[0].kind, ts[0].x, ts[0].y] + Flatten(ts[1..])
  }

  lemma {:induction false} FlattenAt(ts: seq<Triple>, k: nat, j: nat)
    requires k < |ts| && j < 3
    ensures Flatten(ts)[3 * k + j] == Field(ts[k], j)
    decreases k
  {
    if k > 0 {
      FlattenAt(ts[1..], k - 1, j);
      assert Flatten(ts)[3 * k + j] == Flatten(ts[1..])[3 * (k - 1) + j];
    }
  }

  lemma {:induction false} FlattenInt32(ts: seq<Triple>)
    requires forall i :: 0 <= i < |ts| ==> TripleIsInt32(ts[i])
    ensures forall m :: 0 <= m < |Flatten(ts)| ==> IsInt32(Flatten(ts)[m])
    decreases |ts|
  {
    if |ts| > 0 {
      FlattenInt32(ts[1..]);
      assert TripleIsInt32(ts[0]);
      forall m | 0 <= m < |Flatten(ts)| ensures IsInt32(Flatten(ts)[m]) {
        if m >= 3 {
          assert Flatten(ts)[m] == Flatten(ts[1..])[m - 3];
        }
      }
    }
  }

  /** What a level editor writes: the colour and the three lists of entries. */
  datatype LevelFile = LevelFile(background: Colour, bgEntries: seq<Triple>,
                                 tileEntries: seq<Triple>, spawnEntries: seq<Triple>)

  /** A file whose every number fits in 32 bits and whose tile kinds are in range. */
  predicate Writable(f: LevelFile) {
    && IsInt32(f.background.r) && IsInt32(f.background.g) && IsInt32(f.background.b)
    && IsInt32(|f.bgEntries|) && IsInt32(|f.tileEntries|) && IsInt32(|f.spawnEntries|)
    && (forall i :: 0 <= i < |f.bgEntries| ==> TripleIsInt32(f.bgEntries[i]))
    && (forall i :: 0 <= i < |f.tileEntries| ==> TripleIsInt32(f.tileEntries[i]))
    && (forall i :: 0 <= i < |f.spawnEntries| ==> TripleIsInt32(f.spawnEntries[i]))
    && (forall i :: 0 <= i < |f.bgEntries| ==> KindFits(f.bgEntries[i].kind, Background))
    && (forall i :: 0 <= i < |f.tileEntries| ==> KindFits(f.tileEntries[i].kind, Collision))
  }

  function FileInts(f: LevelFile): seq<int> {
    [f.background.r, f.background.g, f.background.b,
     |f.bgEntries|, |f.tileEntries|, |f.spawnEntries|]
      + Flatten(f.bgEntries) + Flatten(f.tileEntries) + Flatten(f.spawnEntries)
  }

  lemma FileIntsAreInt32(f: LevelFile)
    requires Writable(f)
    ensures forall i :: 0 <= i < |FileInts(f)| ==> IsInt32(FileInts(f)[i])
  {
    var F1, F2, F3 := Flatten(f.bgEntries), Flatten(f.tileEntries), Flatten(f.spawnEntries);
    var h := [f.background.r, f.background.g, f.background.b,
              |f.bgEntries|, |f.tileEntries|, |f.spawnEntries|];
    FlattenInt32(f.bgEntries);
    FlattenInt32(f.tileEntries);
    FlattenInt32(f.spawnEntries);
    assert FileInts(f) == h + F1 + F2 + F3;
  }

  /** The bytes of a level file. */
  function Encode(f: LevelFile): (b: seq<Byte>)
    requires Writable(f)
    ensures |b| == Size(|f.bgEntries|, |f.tileEntries|, |f.spawnEntries|)
  {
    var ws := FileInts(f);
    FileIntsAreInt32(f);
    EncodeInts(ws)
  }

  /** The level a file describes. */
  function Meaning(f: LevelFile): Level {
    Level(f.background, Placed(f.bgEntries, Background), Placed(f.tileEntries, Collision),
          SpawnEnemies(f.spawnEntries), PlayerSpawn(f.spawnEntries, None))
  }

  /** The ints from `base` on spell out the triples `ts`. */
  predicate BlockAt(ws: seq<int>, base: nat, ts: seq<Triple>) {
    && base + 3 * |ts| <= |ws|
    && forall k, j :: 0 <= k < |ts| && 0 <= j < 3 ==> ws[base + 3 * k + j] == Field(ts[k], j)
  }

  lemma FlattenBlock(pre: seq<int>, ts: seq<Triple>, post: seq<int>)
    ensures BlockAt(pre + Flatten(ts) + post, |pre|, ts)
  {
    var ws := pre + Flatten(ts) + post;
    var F := Flatten(ts);
    forall k, j | 0 <= k < |ts| && 0 <= j < 3 ensures ws[|pre| + 3 * k + j] == Field(ts[k], j) {
      assert ws[|pre| + 3 * k + j] == F[3 * k + j];
      FlattenAt(ts, k, j);
    }
  }

  /** Triple `i` of a block starting at int `base` of an encoded run. */
  lemma ReadEncodedTriple(ws: seq<int>, extra: seq<Byte>, base: nat, ts: seq<Triple>, i: nat)
    requires forall k :: 0 <= k < |ws| ==> IsInt32(ws[k])
    requires BlockAt(ws, base, ts)
    requires i < |ts|
    ensures 4 * base + 12 * i + 12 <= |EncodeInts(ws) + extra|
    ensures ReadTriple(EncodeInts(ws) + extra, 4 * base + 12 * i) == ts[i]
  {
    var j := base + 3 * i;
    assert ws[j] == Field(ts[i], 0) && ws[j + 1] == Field(ts[i], 1) && ws[j + 2] == Field(ts[i], 2) by {
      assert ws[base + 3 * i + 0] == Field(ts[i], 0);
    }
    ReadEncodedInt(ws, extra, j);
    ReadEncodedInt(ws, extra, j + 1);
    ReadEncodedInt(ws, extra, j + 2);
  }

  /** A whole block of triples of an encoded run reads back as written. */
  lemma ReadEncodedBlock(ws: seq<int>, extra: seq<Byte>, base: nat, ts: seq<Triple>)
    requires forall k :: 0 <= k < |ws| ==> IsInt32(ws[k])
    requires BlockAt(ws, base, ts)
    ensures 4 * base + 12 * |ts| <= |EncodeInts(ws) + extra|
    ensures TriplesAt(EncodeInts(ws) + extra, 4 * base, |ts|) == ts
  {
    var buf := EncodeInts(ws) + extra;
    var rs := TriplesAt(buf, 4 * base, |ts|);
    forall i | 0 <= i < |ts| ensures rs[i] == ts[i] {
      ReadEncodedTriple(ws, extra, base, ts, i);
    }
  }

  /** The first six ints of an encoded run read back as written. */
  lemma ReadEncodedSix(ws: seq<int>, extra: seq<Byte>)
    requires forall k :: 0 <= k < |ws| ==> IsInt32(ws[k])
    requires |ws| >= 6
    ensures |EncodeInts(ws) + extra| >= 24
    ensures var buf := EncodeInts(ws) + extra;
            && ReadInt32(buf, 0) == ws[0] && ReadInt32(buf, 4) == ws[1] && ReadInt32(buf, 8) == ws[2]
            && ReadInt32(buf, 12) == ws[3] && ReadInt32(buf, 16) == ws[4] && ReadInt32(buf, 20) == ws[5]
  {
    ReadEncodedInt(ws, extra, 0);
    ReadEncodedInt(ws, extra, 1);
    ReadEncodedInt(ws, extra, 2);
    ReadEncodedInt(ws, extra, 3);
    ReadEncodedInt(ws, extra, 4);
    ReadEncodedInt(ws, extra, 5);
  }

  /** The encoded ints of a file: the header, then its three blocks of triples. */
  lemma FileLayout(f: LevelFile)
    ensures var ws := FileInts(f);
            var nb, nt := |f.bgEntries|, |f.tileEntries|;
            && |ws| >= 6
            && ws[0] == f.background.r && ws[1] == f.background.g && ws[2] == f.background.b
            && ws[3] == nb && ws[4] == nt && ws[5] == |f.spawnEntries|
            && BlockAt(ws, 6, f.bgEntries)
            && BlockAt(ws, 6 + 3 * nb, f.tileEntries)
            && BlockAt(ws, 6 + 3 * nb + 3 * nt, f.spawnEntries)
  {
    var ws := FileInts(f);
    var h := [f.background.r, f.background.g, f.background.b,
              |f.bgEntries|, |f.tileEntries|, |f.spawnEntries|];
    var F1, F2, F3 := Flatten(f.bgEntries), Flatten(f.tileEntries), Flatten(f.spawnEntries);
    assert ws == h + F1 + (F2 + F3);
    FlattenBlock(h, f.bgEntries, F2 + F3);
    assert ws == (h + F1) + F2 + F3;
    FlattenBlock(h + F1, f.tileEntries, F3);
    assert ws == (h + F1 + F2) + F3 + [];
    FlattenBlock(h + F1 + F2, f.spawnEntries, []);
  }

  /** `buf` starts with the header and the three blocks of `f`. */
  predicate Describes(buf: seq<Byte>, f: LevelFile) {
    var nb, nt, ne := |f.bgEntries|, |f.tileEntries|, |f.spawnEntries|;
    && 24 + 12 * nb + 12 * nt + 12 * ne <= |buf|
    && ReadInt32(buf, 0) == f.background.r && ReadInt32(buf, 4) == f.background.g
    && ReadInt32(buf, 8) == f.background.b
    && ReadInt32(buf, 12) == nb && ReadInt32(buf, 16) == nt && ReadInt32(buf, 20) == ne
    && TriplesAt(buf, 24, nb) == f.bgEntries
    && TriplesAt(buf, 24 + 12 * nb, nt) == f.tileEntries
    && TriplesAt(buf, 24 + 12 * nb + 12 * nt, ne) == f.spawnEntries
  }

  /** The encoding of a file, whatever follows it, describes the file. */
  lemma EncodeDescribes(f: LevelFile, extra: seq<Byte>)
    requires Writable(f)
    ensures Describes(Encode(f) + extra, f)
  {
    var ws := FileInts(f);
    FileIntsAreInt32(f);
    assert Encode(f) == EncodeInts(ws);
    FileLayout(f);
    var nb, nt := |f.bgEntries|, |f.tileEntries|;
    ReadEncodedSix(ws, extra);
    ReadEncodedBlock(ws, extra, 6, f.bgEntries);
    ReadEncodedBlock(ws, extra, 6 + 3 * nb, f.tileEntries);
    ReadEncodedBlock(ws, extra, 6 + 3 * nb + 3 * nt, f.spawnEntries);
    assert 4 * (6 + 3 * nb) == 24 + 12 * nb;
    assert 4 * (6 + 3 * nb + 3 * nt) == 24 + 12 * nb + 12 * nt;
  }

  /** Triples read back as entries whose kinds fit `layer` are tiles that fit. */
  lemma EntriesFit(buf: seq<Byte>, off: nat, es: seq<Triple>, layer: Layer)
    requires off + 12 * |es| <= |buf| && TriplesAt(buf, off, |es|) == es
    requires forall i :: 0 <= i < |es| ==> KindFits(es[i].kind, layer)
    ensures TilesFit(buf, off, |es|, layer)
  {
    forall i | 0 <= i < |es| ensures KindFits(ReadTriple(buf, off + 12 * i).kind, layer) {
      assert TriplesAt(buf, off, |es|)[i] == ReadTriple(buf, off + 12 * i);
    }
  }

  /** A buffer describing a writable file is well formed. */
  lemma DescribedIsWellFormed(buf: seq<Byte>, f: LevelFile)
    requires Writable(f) && Describes(buf, f)
    ensures WellFormed(buf)
  {
    EntriesFit(buf, 24, f.bgEntries, Background);
    EntriesFit(buf, 24 + 12 * |f.bgEntries|, f.tileEntries, Collision);
  }

  /** A buffer describing a file describes the file's level. */
  lemma DescribedLevel(buf: seq<Byte>, f: LevelFile)
    requires Writable(f) && Describes(buf, f) && WellFormed(buf)
    ensures LevelOf(buf) == Meaning(f)
  {
  }

  /** Decoding what the writer produced gives back the level it describes,
      consumes exactly the encoded bytes, and ignores whatever follows. */
  lemma DecodeEncode(f: LevelFile, extra: seq<Byte>)
    requires Writable(f)
    ensures Decode(Encode(f) + extra) == Ok(Decoded(Meaning(f), |Encode(f)|))
  {
    var buf := Encode(f) + extra;
    EncodeDescribes(f, extra);
    DescribedIsWellFormed(buf, f);
    DescribedLevel(buf, f);
  }
}
