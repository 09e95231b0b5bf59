# PikoFox 2D engine: game core in Dafny

This project models the sequential game logic of the PikoFox 2D engine, a
small C++/OpenGL side-scroller. The model keeps the logic and drops the GPU
and window calls.

- **Level loading.** `LoadLVL` decodes a binary level file. The file holds a
  background colour, background tiles, collision tiles and spawn entries.
  Spawn entries place the player and create the snake enemies (`zerg`).
- **The player tick.** `player::Control` is an input-driven state machine.
  It handles walking, dashing, crouching, a variable-height jump and
  gravity. It also runs the box collision test `BCol` and the two pixel-step
  contact loops that push the player against the collision tiles.
- **The deferred draw sorter.** `drawsort` collects every `sprite::Draw`
  call of a frame, sorts the requests back to front by depth and hands each
  one to the GPU once. The GPU draw is an abstract event: a flush yields the
  sequence of requests in the order they are drawn.
- **Small pieces of the main loop.** These are the enemy animation counter
  and the loop that drives it, the side-scrolling camera rule, and the
  texture file-name normalisation at the top of `TextureFromFile`.
- **The game state.** A `World` record holds the main loop's globals. One
  pass of the loop is `Game.Tick`: player tick, enemy loop, camera scroll,
  then the frame's draws and the flush.

Modules follow the source's structure:

| module | models |
|---|---|
| `Outcome` | `Option`, `Result` and `Run` (halts with a value, or diverges) |
| `Numerics` | `abs`, the `sign` macro, `round` and the `(int)` cast over reals |
| `DrawSort` | `drawsort` and `sprite::Draw` |
| `Entities` | `blocktile` and `zerg` |
| `LevelFormat` | `LoadLVL` over a byte buffer, and a writer used to state the round trip |
| `PlayerControl` | `player`: `BCol`, `Control` stage by stage, and `Draw` |
| `Camera` | the scroll rule of the main loop |
| `TexturePath` | the directory and backslash handling of `TextureFromFile` |
| `Game` | the globals, `LoadLVL` on them, and one pass of the main loop |

Modelling choices:

- **Hangs are values.** The contact loops do not stop for every state.
  `player::Control` is therefore a function returning `Run<Player>`. A
  contact loop is `Diverges` exactly when its step never reaches contact
  (`PlayerControl.ContactX`, `PlayerControl.ContactY`). A tick is
  `Diverges` exactly when one of its passes enters a tile in such a state,
  at the x or y the pass has actually reached there
  (`PlayerControl.ControlEnds`). `PlayerControl.WalkingAwayHangs` exhibits
  a tick that hangs, and `PlayerControl.TouchingContactEnds` a sub-pixel
  contact that ends at once.
- **Failures are values.** The source checks nothing when it reads a level.
  The decoder instead fails in three cases. The source would read past
  the buffer, which is undefined behaviour. It would pass a negative count
  to `resize`, which throws `std::length_error`; nothing catches it, so
  the program terminates. Or it would index a sprite table with an
  unknown tile kind.
- **Deceleration is not a clamp.** The two `if`s of graphics.h:1009-1013
  keep a positive speed below `dcc` and may turn a small negative speed
  positive. `PlayerControl.DecelerateStalls` and
  `PlayerControl.DecelerateOvershoots` state both effects.

## Model

| member | source | states |
|---|---|---|
| Numerics.Abs | graphics.h:1015 | the absolute value is non-negative and equals the argument or its negation |
| Numerics.Sign | graphics.h:26 | the `sign` macro is -1, 0 or 1 and agrees with the sign of its argument in both directions |
| Numerics.Round | graphics.h:1077 | `round` lands within 0.5 of its argument, and a tie goes away from zero |
| Numerics.Trunc | graphics.h:1113 | the `(int)` cast truncates toward zero: the result is the integer between zero and the argument that is less than 1 away from it |
| DrawSort.NewSorter | graphics.h:767-769 | a fresh sorter has an empty list and satisfies `spritecount == size` |
| DrawSort.AddSpriteToStack | graphics.h:774-785 | `addspritetostack` keeps `spritecount == size` (so the indexed writes are in bounds), appends exactly one record with the given owner, position, scale, rotation and depth, and adds 1 to the count |
| DrawSort.ResetStack | graphics.h:788-791 | after `resetstack` the list is empty and the count is 0 |
| DrawSort.Submit | graphics.cpp:108-111 | `sprite::Draw` appends exactly one request with its arguments, and leaves the earlier requests unchanged |
| DrawSort.SubmitAll | graphics.cpp:108-111 | a batch of draws appends the batch to the pending list in call order |
| DrawSort.InsertByDepth | graphics.h:794 | inserting into a back-to-front list gives a back-to-front list with exactly one more element, the inserted one |
| DrawSort.SortByDepth | graphics.h:794 | the sort's output is in non-increasing depth order and is a permutation (multiset-equal) of its input |
| DrawSort.DrawStack | graphics.h:793-800 | `drawstack` emits every pending request exactly once (a multiset-equal permutation) in non-increasing depth order; the list it leaves is the emitted order and the count is unchanged |
| DrawSort.FlushAfterResetDrawsNothing | graphics.h:788-800 | a flush right after a reset emits nothing |
| DrawSort.SorterOperationsKeepValid | graphics.h:767-800 | submit, flush and reset all keep `spritecount == size` |
| DrawSort.ThreeDepthsExample | graphics.h:793-800 | requests of depths 3, 1, 2 are emitted as 3, 2, 1 |
| Entities.TileSpriteOf | graphics.h:825-826 | layer 0 takes the tile sprite table and layer 1 the background table, each exactly, at index `tileid`; the reference is in range when the kind fits the layer |
| Entities.TileRequest | graphics.h:839-841 | a tile draws its own sprite (the entry of its layer's table at its kind) at its own position and depth, at unit scale and without rotation |
| Entities.NewEnemy | graphics.h:878-886 | the enemy constructor keeps its five arguments and starts on animation frame 0 |
| Entities.DoStuff | graphics.h:901-908 | `DoStuff` steps the frame by 0.01 and wraps to 0 at 2, so the frame stays in [0, 2); nothing else changes |
| Entities.Advance | graphics.h:901-908 | repeated `DoStuff` changes only the frame and keeps it in [0, 2) |
| Entities.AdvanceWithoutWrap | graphics.h:901-908 | without a wrap, n calls advance the frame by exactly 0.01 times n |
| Entities.EnemyRequest | graphics.h:910-912 | an enemy with frame in [0, 2) draws sprite `(int)frame`, one of its two, at its position, unit scale, no rotation, depth 0 |
| LevelFormat.ReadInt32 | main.cpp:116-121 | the four-byte read is a 32-bit signed value |
| LevelFormat.ReadInt32LittleEndian | main.cpp:116-121 | the value read is the 32-bit two's complement number the four bytes spell lowest byte first: it is congruent modulo 2^32 to b0 + 256 b1 + 65536 b2 + 16777216 b3 |
| LevelFormat.ReadTriple | main.cpp:137-142 | a triple is three consecutive int reads: kind, x, y |
| LevelFormat.TilesAtFit | main.cpp:134-161 | tiles built from triples whose kinds fit their layer sit on that layer at its depth (2 background, 1 collision) with an in-range kind |
| LevelFormat.DecodeTiles | main.cpp:134-161 | a tile loop succeeds exactly when the n triples fit in the buffer with kinds valid for the layer, and then yields the n tiles read in file order with y flipped to `-y-16` |
| LevelFormat.ReadSpawns | main.cpp:164-171 | the spawn reads succeed exactly when the n triples fit in the buffer, and yield them in file order |
| LevelFormat.NoPlayerSpawnKeeps | main.cpp:173-176 | without a kind-0 entry the player position is unchanged |
| LevelFormat.LastPlayerSpawnWins | main.cpp:173-176 | the last kind-0 entry sets the player to (posx, -posy-33), whatever came before it |
| LevelFormat.EnemiesMatchKindOne | main.cpp:178-196 | there is exactly one enemy per kind-1 entry, each built from such an entry, and every kind-1 entry yields one; other kinds add nothing |
| LevelFormat.DecodeBackground | main.cpp:127-145 | the background section fails exactly on a negative count or triples that do not fit, and otherwise yields the B tiles after the header |
| LevelFormat.DecodeCollision | main.cpp:129-161 | the collision section fails exactly on a negative count or triples that do not fit, and otherwise yields the T tiles after the background section |
| LevelFormat.DecodeSpawns | main.cpp:164-197 | the spawn section fails exactly when the spawn triples run past the buffer, and otherwise completes the level with the colour, the enemies and the player spawn |
| LevelFormat.Decode | main.cpp:91-200 | decoding succeeds exactly on well-formed buffers; it yields the level the buffer describes and consumes exactly 24 + 12(B + T + max(E, 0)) bytes, never more than the buffer holds (a negative E runs the spawn loop zero times) |
| LevelFormat.LevelTilesFit | main.cpp:134-180 | every tile of a decoded level sits on its list's layer at its depth with a kind inside the sprite table, and every enemy starts on frame 0 |
| LevelFormat.EncodeInt32 | main.cpp:116 | the writer's four bytes read back as the 32-bit value written |
| LevelFormat.DecodeEncode | main.cpp:106-197 | decoding a written file, whatever follows it, gives back the file's level and consumes exactly the written bytes |
| PlayerControl.DefaultPlayer | graphics.h:920-934 | the default player is grounded, not jumping, with the latch released, at rest, facing right, with speed cap 1 |
| PlayerControl.PushX | graphics.h:1070-1072 | the horizontal contact loop stops at the first position on its way where the box moved by `sign(xsp)` touches the tile |
| PlayerControl.PushXDiverges | graphics.h:1070-1072 | outside the termination condition no number of steps ever touches the tile, so the loop runs forever |
| PlayerControl.PushY | graphics.h:1081-1083 | the vertical contact loop stops at the first position on its way where the box moved by `sign(ysp)+1` touches the tile |
| PlayerControl.PushYDiverges | graphics.h:1081-1083 | outside the termination condition the vertical loop runs forever |
| PlayerControl.ContactX | graphics.h:1069-1073 | one tile's contact loop ends exactly when xsp is 0 or the tile is reachable in the direction of motion; it ends touching the tile and never moves against xsp |
| PlayerControl.HorizontalPass | graphics.h:1067-1075 | with no tile in reach the pass ends at once, x unchanged and "collided" false; when it ends, "collided" holds exactly when some tile overlaps the box moved by xsp at the starting x; after a collision the box touches some tile one step toward sign(xsp); x never moves against xsp |
| PlayerControl.HorizontalPassEnds | graphics.h:1067-1075 | the pass hangs exactly when, for some tile i, the pass over the tiles before i ends at an x from which the box overlaps tile i and sign(xsp) steps never reach contact; with xsp 0 it always ends |
| PlayerControl.ContactY | graphics.h:1080-1086 | one tile's vertical loop ends exactly when ysp is 0 or the tile is reachable in the direction of motion; it ends touching and never moves against ysp |
| PlayerControl.VerticalPass | graphics.h:1079-1087 | with no tile in reach the pass ends at once and changes nothing; when it ends after a hit, ysp is 0 and the box touches some tile one step toward sign(ysp) + 1; y never moves against ysp |
| PlayerControl.VerticalPassEnds | graphics.h:1079-1087 | the pass hangs exactly when the first tile the box overlaps at the starting y is one from which sign(ysp) steps never reach contact; with ysp 0 it always ends |
| PlayerControl.CountHits | graphics.h:1043-1053 | the probe counter is positive exactly when some tile overlaps the box moved by (0, ysp) |
| PlayerControl.PressLeft | graphics.h:984-988 | A accelerates left by 0.3125 with K on the ground, 0.25 on the ground, 0.2 in the air, and sets walking on the ground; nothing else changes |
| PlayerControl.PressRight | graphics.h:990-993 | D without A and not crouching accelerates right, by 0.3125 with K even in the air; nothing else changes |
| PlayerControl.PressDown | graphics.h:995-997 | S on the ground crouches |
| PlayerControl.ReleaseKeys | graphics.h:999-1001 | no A, D or S on the ground at rest makes the player idle |
| PlayerControl.AutoStop | graphics.h:1004-1007 | a grounded walker without the key of its direction of motion becomes idle, an idle player stays idle, and no other state changes its action |
| PlayerControl.Decelerate | graphics.h:1009-1013 | grounded idle or crouching: above dcc loses dcc, exactly dcc stops, a positive speed below dcc is kept, a negative speed gains dcc, 0 stays 0 |
| PlayerControl.Face | graphics.h:1015-1017 | an idle or walking player on the ground faces its direction of motion |
| PlayerControl.CapSpeed | graphics.h:1019-1026 | the cap is 2 with K and 1 without; afterwards the speed is within the cap, unchanged if it was already within, clamped otherwise |
| PlayerControl.StartJump | graphics.h:1030-1036 | a jump starts exactly when J is held on the ground with the latch released; it sets ysp to 3, jumping, airborne, action 2 and the latch |
| PlayerControl.HoldJump | graphics.h:1039-1042 | while jumping the timer rises by 0.5; below the minimum the jump continues whatever J does; past it, the jump continues exactly when J is held and the timer is below the speed-dependent limit `mxtimerjmp*(1+abs(xsp)*0.15)` |
| PlayerControl.GroundProbe | graphics.h:1043-1059 | afterwards grounded means some tile was hit; a hit makes the player idle and ends the jump; the jump latch is released exactly when J is up and the player either was grounded or is grounded now |
| PlayerControl.Fall | graphics.h:1063-1065 | airborne and not rising, ysp drops by 0.425; otherwise nothing changes |
| PlayerControl.SetOffset | graphics.h:1090-1092 | the draw offset is 14 exactly when facing left |
| PlayerControl.Animate | graphics.h:1094-1106 | a jump shows frame 6, standing idle frame 4; the run cycle adds `0.125*abs(xsp)` and wraps to 0 when that reaches 4; a crouch keeps the frame; a frame in [0, 7) stays there |
| PlayerControl.Steer | graphics.h:984-1042 | after steering, the speed is within the cap K selects, and position, frame and depth are unchanged |
| PlayerControl.Settle | graphics.h:984-1065 | after the probe and gravity, grounded means the probe hit, and grounded implies idle with the jump over |
| PlayerControl.Control | graphics.h:983-1110 | a tick that ends leaves the speed within the cap, grounded exactly when the probe hit (then idle, jump timer 0), the frame a valid sprite index, the facing -1 or 1 with the matching offset, and the depth unchanged |
| PlayerControl.ControlMovesX | graphics.h:1067-1077 | without a horizontal hit x moves by round(xsp); with one, x is where the horizontal pass left it, touching some tile one step toward sign(xsp), and never moved against xsp |
| PlayerControl.PassesEnd | graphics.h:1067-1087 | from a settled player, the two passes hang exactly when the horizontal pass enters a tile it cannot leave, or the vertical pass, at the x the horizontal one produced, first hits such a tile; no tiles or zero speeds make both end |
| PlayerControl.ControlEnds | graphics.h:983-1110 | a tick hangs exactly when the horizontal pass enters a tile it cannot leave, or the vertical pass, at the tick's x after the horizontal pass, first hits such a tile; a tick with no tiles, or with both speeds 0 after gravity, ends |
| PlayerControl.TouchingContactEnds | graphics.h:1067-1075 | a box whose right edge meets a tile's left edge, moving right at 0.5, enters the contact loop already touching it, so the pass ends at once with x unchanged and a collision |
| PlayerControl.WalkingAwayHangs | graphics.h:1067-1075 | a grounded player overlapping the last column of a tile to its left while walking right makes the tick hang |
| PlayerControl.ControlKeepsInv | graphics.h:983-1110 | the default player satisfies the drawing invariant, and every tick that ends keeps it |
| PlayerControl.PlayerRequest | graphics.h:1112-1114 | the player draws sprite `(int)frame`, one of the 7, shifted by the offset, mirrored by the facing, at its depth |
| PlayerControl.MinimumJump | graphics.h:1039-1042 | a jump lasts through every hold tick that keeps the timer below the minimum, whatever J does |
| PlayerControl.MaximumJump | graphics.h:1039-1042 | at any speed within the cap, a jump whose timer has reached 9 ends on the next hold tick |
| PlayerControl.DecelerateStalls | graphics.h:1009-1013 | deceleration never stops a speed of 1/16: it stays 1/16 |
| PlayerControl.DecelerateOvershoots | graphics.h:1009-1013 | deceleration turns a speed of -1/16 into +1/16 |
| Camera.StartCam | main.cpp:42 | the camera starts at the origin |
| Camera.Scroll | main.cpp:333-335 | the camera never moves left and never touches y, leaves the player at most 128 pixels ahead, and moves no further than that demands |
| Camera.ScrollIdempotent | main.cpp:333-335 | scrolling again for the same player position changes nothing |
| Camera.ScrollMonotone | main.cpp:333-335 | a player further right never leaves the camera further left |
| Camera.Follow | main.cpp:333-335 | across a run of ticks the camera never moves left, and no position seen ends more than 128 pixels ahead of it |
| Camera.FollowIsFurthest | main.cpp:333-335 | across a run of ticks the camera ends where it started or at exactly 128 behind some position seen |
| TexturePath.LastIndex | graphics.cpp:26 | `find_last_of`/`rfind`: -1 when no character of the set occurs, else an index holding one with none after it |
| TexturePath.Replace | graphics.cpp:37 | `string::replace` keeps the prefix, inserts the replacement, and keeps what follows the replaced span, the span being cut back to the end of the string |
| TexturePath.DirPrefix | graphics.cpp:26-29 | the directory becomes empty when it has no separator; otherwise it is cut just after its last '/' or '\\' |
| TexturePath.DropLastBackslash | graphics.cpp:31-37 | replacing the last backslash (with the character after it, or alone) by '/' removes exactly one backslash |
| TexturePath.NormaliseAsWritten | graphics.cpp:30-38 | the loop as written removes one backslash per pass until none is left, and never lengthens the string |
| TexturePath.Normalise | graphics.cpp:30-38 | the loop with a one-character replace keeps the length, and with enough passes turns every backslash into '/' and changes nothing else |
| TexturePath.ReplaceLast | graphics.cpp:42-43 | only the last backslash of the name, if any, becomes '/' |
| TexturePath.FileNameShape | graphics.cpp:40-43 | with the one-for-one conversion the loop bound always suffices: the name is the directory part with every backslash made '/', then the path with only its last backslash made '/' |
| TexturePath.FileNameShapeAsWritten | graphics.cpp:20-43 | as written, the name is the directory part after the as-written loop, which holds no backslash and is no longer than the cut directory, followed by the path with only its last backslash made '/' |
| TexturePath.AsWrittenLeavesNoBackslash | graphics.cpp:30-38 | the as-written loop also leaves no backslash in the directory part |
| TexturePath.SpriteTextureName | graphics.h:676 | with the empty directory that sprites pass, the loaded name is the path with its last backslash made '/' |
| TexturePath.InnerBackslashDropsCharacter | graphics.cpp:30-38 | as written, directory `a\b\c` and path `x.png` give `a//x.png` |
| TexturePath.InnerBackslashKept | graphics.cpp:30-43 | with the one-for-one conversion the same inputs give `a/b/x.png` |
| Game.StartWorld | main.cpp:42-87 | before the first load: no tiles or enemies, the default player, the camera at the origin, an empty sorter |
| Game.StartWorldInv | main.cpp:42-87 | the starting globals satisfy the frame invariant |
| Game.LoadLevel | main.cpp:91-200 | a load fails exactly on malformed buffers; on success the three collections and the colour are the file's and nothing from before, the player moves to the last player spawn if any, and the camera and sorter are untouched |
| Game.LoadLevelInv | main.cpp:91-200 | a load keeps the frame invariant: tiles on their layer with in-range kinds, enemy frames in [0, 2), a valid empty sorter |
| Game.LoadForgetsPrevious | main.cpp:92-94 | whatever two worlds held before, loading the same file succeeds for both or neither, and leaves both with the same tiles, enemies and colour |
| Game.UpdateEnemies | main.cpp:327-329 | the enemy loop advances only the first enemy, by one `DoStuff` per enemy, leaves the others untouched, and computes `EnemiesAfterLoop` |
| Game.EnemiesAfterLoop | main.cpp:327-329 | after the loop the first enemy has taken one `DoStuff` step per enemy, only frames change, the other enemies are as before, and frames in [0, 2) stay there |
| Game.FirstEnemyAdvance | main.cpp:327-329 | without a wrap the first enemy's frame grows by exactly 0.01 times the number of enemies |
| Game.FrameRequests | main.cpp:338-351 | a frame submits, in call order, one request per background tile, then per collision tile, then per enemy, then the player's; each names an existing sprite, and its depth identifies its group |
| Game.Render | main.cpp:338-355 | every request of the frame is drawn exactly once, back to front, each with an existing sprite |
| Game.Moved | main.cpp:327-335 | after the player tick, the enemy loop and the scroll the frame invariant still holds, the tiles, colour and sorter are unchanged, the enemies are the loop's result, the player is at most 128 pixels ahead of the camera, and the camera has not moved back |
| Game.Tick | main.cpp:327-355 | a pass of the loop ends exactly when the player tick ends; it keeps the tiles and colour, sets the enemies to the loop's result, keeps the frame invariant and the camera rule, and draws exactly the frame's requests, back to front, with existing sprites |
| Game.RenderLayered | main.cpp:338-354 | in a rendered frame background tiles come before collision tiles, and all tiles before every enemy and the player |
| Game.TilesDrawnBehind | main.cpp:338-354 | in every frame background tiles are drawn before collision tiles, and all tiles before every enemy and the player |

## Left out

- The 3D `Camera`, `Shader`, `Mesh`, `Model`, `Vertex` and `Texture` classes are left out. They are file I/O, GL buffer and uniform calls and Assimp import, and the side-scroller logic does not depend on them.
- GLFW and OpenGL are left out: the window, framebuffer and blit setup, `GraphicDraw`, `glfwGetKey`, and the stb half of `TextureFromFile`. Key state is an input record; a draw is an emitted request.
- The sprite constructor, `init`, `LoadTexture` and `LoadShader` are left out apart from the empty directory `LoadTexture` receives.
- Reading the level file from disk is left out. `LoadLVL` is modelled on the buffer the file would produce.
- The main loop's `sleep_until` frame pacing, the FPS printout, the mouse and scroll callbacks and the empty `processInput` are left out, because they have no effect on game state.
- IEEE float arithmetic is not modelled. Speeds, timers and frames are reals, `abs` is the real absolute value, `round` rounds halves away from zero, and `(int)` truncates.
- 32-bit overflow of the int fields is not modelled. This covers the y flips `-y-16` and `-y-33` of `INT_MIN`, the camera arithmetic, and the player position. All are unbounded integers.
- Uninitialised fields are not modelled. The enemy `frame` and the player fields the default constructor leaves unset start at 0: `PIKO` is a global and so zero-initialised, and the model gives the enemy frame the same value.
- The two-argument player constructor is not used by the game and is left out.
- `SetFrameSprite`, the `object` class and `distancecalc` are unused by the game loop and are left out. So is `zerg::isActive` (graphics.h:894-896), which the main loop never calls.
- LevelFormat.Decode: the source never fails. It reads past a short buffer, which is undefined behaviour. A negative count makes `resize` throw `std::length_error`, which nothing catches, so the program terminates. The model fails in those cases instead, and also fails on a tile kind outside its sprite table, which the source would index out of range.
- PlayerControl.Control: the contract states the invariants and the grounding facts rather than the complete end state. ControlMovesX adds the horizontal movement, and the stage functions state each step.
- TexturePath.NormaliseAsWritten: strings are modelled as sequences of characters, while `std::string` holds bytes. This also applies to Replace, DirPrefix and the file-name members. The model agrees with the source on ASCII paths. When a multi-byte UTF-8 character follows an inner backslash, `replace(finder, 2, "/")` removes only that character's first byte and leaves a broken sequence; the model removes the whole character.
- DrawSort.SortByDepth: the order among requests of equal depth is left open, as `std::sort` leaves it.

## Findings

| source | as written | input that shows it | evidently intended | confidence | as-written member | corrected member |
|---|---|---|---|---|---|---|
| graphics.cpp:37 | `newdir.replace(finder, 2, "/")` replaces each backslash together with the character after it | directory `a\b\c`, path `x.png`: the name becomes `a//x.png` | each backslash becomes one slash, giving `a/b/x.png` | high, not executed | TexturePath.InnerBackslashDropsCharacter | TexturePath.InnerBackslashKept |
