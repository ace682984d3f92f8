# Gravity-flip platformer core, modelled in Dafny

This project models the simulation core of a small libGDX platformer. The
player is a cube in a 32 x 24 tile world. Swipes flip the direction of
gravity, and the player must reach a goal tile while avoiding spikes. The
model covers these parts:

- the gravity controller, with its direction table and flip cooldown
  (`gravity.dfy`, module `Physics`);
- the player body: integration with a per-axis speed limit, the collision
  push, die, respawn and spawn point (`player.dfy`, `Entities`);
- the tile grid: reads, writes, the world-position read and the
  colliding-tiles area query (`level.dfy`, `Levels`);
- the three built-in levels and `getLevel` (`level_factory.dfy`,
  `LevelFactory`);
- the game screen's frame logic: loading a level, the per-tick update, the
  collision walk, the level-complete pause and the swipe callback
  (`game_screen.dfy`, `Screens`);
- the swipe input handler and its two direction classifiers
  (`swipe_input.dfy`, `Input`).

Shared constants live in `config.dfy` (`GameConfig`), and points,
rectangles, truncation and clamping in `geometry.dfy` (`Geometry`). Kotlin's
nullable results become `Option` (`nullable.dfy`, `Nullable`).

Everything is functional. Each mutable Kotlin object becomes an immutable
datatype, and each mutating method becomes a function that returns the new
value. Kotlin `Float` is modelled as Dafny `real`, and `Float.toInt()` as
truncation toward zero (`Geometry.Trunc`).

Each built-in level is a fixed sequence of `setTile` calls. The model groups
every loop of those calls into one *stroke*. It proves, once for any stroke
list, that a cell reads the kind of the last stroke covering it
(`PaintedReads`), and that spawn and goal come from the last in-grid spawn or
goal call (`PaintedMarkers`). The per-level layout facts follow from those
two lemmas.

The screen's state between frames satisfies an invariant, `Screens.Inv`:

- the player is alive and inside the safety box;
- the player's spawn point is the level's spawn point;
- the gravity controller's own invariant holds;
- the level matches its level number whenever that number has a level;
- the pause timer runs only while the level is complete.

`show` establishes this invariant, and every frame and every swipe keeps it.

Three behaviours of the code are worth stating plainly, because the model
follows them:

- **Spikes.** Touching a spike calls only `respawn` and resets gravity
  (GameScreen.kt:155-160). `die` is never called from the game loop, so the
  player is never dead between frames.
- **Solids.** The list of colliding tiles is built once per tick, but
  `resolveCollision` reads the player's current box for every entry
  (GameScreen.kt:151, 177). So a later entry sees the box as earlier pushes
  left it, and a stale entry can pull the player back
  (`Screens.StaleEntryPullsBack`).
- **After the last level.** When no next level exists, `loadLevel` returns
  without changing anything (GameScreen.kt:73-79). The complete flag stays
  set, and the level number and timer keep growing
  (`Screens.FrozenAfterLastLevel`).

The model treats libGDX's `Rectangle.overlaps` as strict overlap: boxes that
only touch do not overlap. libGDX is not part of this model.

## Model

| member | source | states |
|---|---|---|
| Geometry.Trunc | android-native/core/bin/main/com/gravityflip/levels/Level.kt:76-77 | `toInt` truncates toward zero: the result is the integer part for either sign |
| Geometry.Clamp | android-native/core/bin/main/com/gravityflip/entities/Player.kt:55-56 | `coerceIn` lands in [lo, hi], keeps values already inside, and maps values below or above to the nearer end |
| Physics.DirectionTable | android-native/core/bin/main/com/gravityflip/physics/GravityController.kt:8-12 | each direction's unit vector and display rotation, and no two directions share a vector |
| Physics.NewController | android-native/core/bin/main/com/gravityflip/physics/GravityController.kt:33-37 | a new controller has gravity down, no cooldown and a zero timer, satisfies the cooldown invariant, and pulls with force (0, -800) |
| Physics.FlipGravity | android-native/core/bin/main/com/gravityflip/physics/GravityController.kt:47-57 | a flip is refused exactly while cooling down or toward the current direction, and then nothing changes; an accepted flip sets the direction and starts a 0.2 cooldown; the invariant "while flipping, 0 < timer <= 0.2" is kept |
| Physics.Update | android-native/core/bin/main/com/gravityflip/physics/GravityController.kt:62-69 | only a cooling-down controller changes; its timer drops by dt and it stops cooling down exactly when the timer reaches zero; the direction never changes; for non-negative steps the cooldown invariant is kept |
| Physics.GravityForce | android-native/core/bin/main/com/gravityflip/physics/GravityController.kt:74-76 | the force is 800 along exactly one axis, in the current direction |
| Physics.Reset | android-native/core/bin/main/com/gravityflip/physics/GravityController.kt:86-90 | reset gives gravity down, no cooldown, zero timer, and satisfies the invariant |
| Physics.ForceIgnoresFlipping | android-native/core/bin/main/com/gravityflip/physics/GravityController.kt:74-76 | the force depends only on the direction, never on the cooldown state |
| Physics.ResetIdempotent | android-native/core/bin/main/com/gravityflip/physics/GravityController.kt:86-90 | every reset gives the fresh controller, so resetting twice is resetting once |
| Physics.UpdateAllStable | android-native/core/bin/main/com/gravityflip/physics/GravityController.kt:62-69 | a controller that is not cooling down is unchanged by any run of updates |
| Physics.UpdateAllCountsDown | android-native/core/bin/main/com/gravityflip/physics/GravityController.kt:62-69 | over a run of non-negative steps, the cooldown lasts exactly while the elapsed time is below the timer, and the timer counts down by the elapsed time |
| Physics.FlipCooldownHolds | android-native/core/bin/main/com/gravityflip/physics/GravityController.kt:40-69 | after an accepted flip, any further flip is refused until 0.2 has elapsed, and a flip to another direction is accepted once it has |
| Entities.NewPlayer | android-native/core/bin/main/com/gravityflip/entities/Player.kt:14-42 | a new player stands at rest at its own spawn point, alive and not grounded |
| Entities.Bounds | android-native/core/bin/main/com/gravityflip/entities/Player.kt:38-39 | the collision box is the 28 x 28 square at the player's position |
| Entities.Update | android-native/core/bin/main/com/gravityflip/entities/Player.kt:47-60 | a dead player is unchanged; otherwise velocity gains gravity times dt and is clamped to [-600, 600] per axis, position moves by the clamped velocity, and the flags and spawn point are kept |
| Entities.HandleCollision | android-native/core/bin/main/com/gravityflip/entities/Player.kt:88-106 | the push moves the player along the normal by the penetration and stops motion on each axis the normal uses; the player is grounded exactly when the normal is vertical |
| Entities.Die | android-native/core/bin/main/com/gravityflip/entities/Player.kt:111-114 | a dead player is stopped where it was |
| Entities.Respawn | android-native/core/bin/main/com/gravityflip/entities/Player.kt:119-126 | respawn puts the player back at its spawn point, at rest, alive, airborne and unrotated |
| Entities.SetSpawnPoint | android-native/core/bin/main/com/gravityflip/entities/Player.kt:131-133 | only the spawn point changes |
| Entities.RespawnIdempotent | android-native/core/bin/main/com/gravityflip/entities/Player.kt:119-126 | respawning twice is respawning once |
| Entities.RespawnUndoesDie | android-native/core/bin/main/com/gravityflip/entities/Player.kt:111-126 | dying before a respawn makes no difference to the respawned player |
| Entities.SetSpawnThenRespawn | android-native/core/bin/main/com/gravityflip/entities/Player.kt:119-133 | a new spawn point does not move the player; it takes effect at the next respawn |
| Entities.VelocityStaysLimited | android-native/core/bin/main/com/gravityflip/entities/Player.kt:54-56 | the per-axis speed limit is an invariant of integration |
| Entities.FreeFallOneTick | android-native/core/bin/main/com/gravityflip/entities/Player.kt:50-60 | from rest, one 0.016 step of downward gravity gives velocity (0, -12.8) and lowers the player by 0.2048 |
| Entities.FallSpeedSaturates | android-native/core/bin/main/com/gravityflip/entities/Player.kt:50-56 | a long enough step under gravity reaches the speed limit and no more |
| Levels.NewLevel | android-native/core/bin/main/com/gravityflip/levels/Level.kt:23-37 | a fresh level keeps its name, has every cell empty, default spawn (64, 64) and goal (928, 672), both inside the span of cell origins |
| Levels.SetTile | android-native/core/bin/main/com/gravityflip/levels/Level.kt:42-59 | a write outside the grid changes nothing; inside, exactly the addressed cell changes; a spawn or goal write moves that marker to the cell's origin; markers stay inside the span of cell origins |
| Levels.GetTile | android-native/core/bin/main/com/gravityflip/levels/Level.kt:64-70 | an in-grid read gives the stored cell; any read outside the grid gives a wall, so an empty read always names an in-grid cell |
| Levels.GetTileAtWorldPos | android-native/core/bin/main/com/gravityflip/levels/Level.kt:75-79 | a point inside the 1024 x 768 world reads the in-grid cell whose square contains it (the floor of its coordinates over 32); a point a full tile or more outside the world reads a wall |
| Levels.NewLevelReads | android-native/core/bin/main/com/gravityflip/levels/Level.kt:29-70 | a fresh level reads empty inside the grid and solid outside it |
| Levels.OutsideGridIsWall | android-native/core/bin/main/com/gravityflip/levels/Level.kt:42-70 | outside the grid, reads give a wall and writes are dropped |
| Levels.SetThenGet | android-native/core/bin/main/com/gravityflip/levels/Level.kt:42-70 | a cell reads back what was written to it, and every other cell is untouched |
| Levels.WorldPosReadsContainingCell | android-native/core/bin/main/com/gravityflip/levels/Level.kt:75-79 | for non-negative points, the world-position read gives the cell whose square contains the point |
| Levels.WorldPosNegativeStripReadsColumnZero | android-native/core/bin/main/com/gravityflip/levels/Level.kt:75-79 | truncation toward zero maps the strip -32 < x < 0 onto column 0, not onto the wall outside the grid |
| Levels.WorldPosNegativeStripReadsRowZero | android-native/core/bin/main/com/gravityflip/levels/Level.kt:75-79 | likewise on the other axis: the strip -32 < y < 0 reads row 0, not the wall below the grid |
| Levels.WindowCoversOverlaps | android-native/core/bin/main/com/gravityflip/levels/Level.kt:88-91 | every cell overlapping the box lies inside the scanned window |
| Levels.CollidingTiles | android-native/core/bin/main/com/gravityflip/levels/Level.kt:85-111 | the query reports each non-empty cell overlapping the box, with its type, rectangle and coordinates; it misses none, cells outside the grid included; it lists them in row-major order |
| Levels.CollidingTilesDistinct | android-native/core/bin/main/com/gravityflip/levels/Level.kt:93-108 | no cell is reported twice |
| LevelFactory.BuildReads | android-native/core/bin/main/com/gravityflip/levels/Level.kt:42-59 | after a sequence of writes, an in-grid cell reads what the last write aimed at it wrote, or what it held before |
| LevelFactory.BuildMarkers | android-native/core/bin/main/com/gravityflip/levels/Level.kt:42-59 | after a sequence of writes, spawn and goal are the origins of the last in-grid spawn and goal writes, or the earlier values |
| LevelFactory.BuildInWorld | android-native/core/bin/main/com/gravityflip/levels/Level.kt:42-59 | no sequence of writes moves spawn or goal outside the span of cell origins |
| LevelFactory.PaintedReads | android-native/core/bin/main/com/gravityflip/levels/LevelFactory.kt:13-60 | a level built from loops of writes reads, in each cell, the kind of the last loop covering it, else empty |
| LevelFactory.PaintedMarkers | android-native/core/bin/main/com/gravityflip/levels/LevelFactory.kt:13-60 | such a level's spawn and goal come from its last spawn and goal writes, else the defaults; its name is kept |
| LevelFactory.PaintedInWorld | android-native/core/bin/main/com/gravityflip/levels/LevelFactory.kt:13-60 | such a level's spawn and goal lie inside the span of cell origins |
| LevelFactory.Level1Layout | android-native/core/bin/main/com/gravityflip/levels/LevelFactory.kt:13-61 | level 1 has a solid border, one spawn cell (3, 1), one goal cell (28, 20) and no spikes |
| LevelFactory.Level2Layout | android-native/core/bin/main/com/gravityflip/levels/LevelFactory.kt:66-114 | level 2 has a solid border, one spawn cell (3, 1), one goal cell (25, 10), and spikes exactly at the floor pit and the ceiling row |
| LevelFactory.Level3Layout | android-native/core/bin/main/com/gravityflip/levels/LevelFactory.kt:119-165 | level 3 has a solid border, one spawn cell (2, 1), one goal cell (28, 20), and spikes exactly at row 7, columns 13 to 17 |
| LevelFactory.CreateLevel1 | android-native/core/bin/main/com/gravityflip/levels/LevelFactory.kt:13-61 | level 1 is named "Level 1 - Awakening", spawns the player at (96, 32), the origin of cell (3, 1), and has its goal at (896, 640), the origin of cell (28, 20) |
| LevelFactory.CreateLevel2 | android-native/core/bin/main/com/gravityflip/levels/LevelFactory.kt:66-114 | level 2 is named "Level 2 - Danger Zone", spawns the player at (96, 32), the origin of cell (3, 1), and has its goal at (800, 320), the origin of cell (25, 10) |
| LevelFactory.CreateLevel3 | android-native/core/bin/main/com/gravityflip/levels/LevelFactory.kt:119-165 | level 3 is named "Level 3 - Zero G", spawns the player at (64, 32), the origin of cell (2, 1), and has its goal at (896, 640), the origin of cell (28, 20) |
| LevelFactory.GetLevelCreates | android-native/core/bin/main/com/gravityflip/levels/LevelFactory.kt:170-177 | level numbers 1, 2 and 3 give the three built levels |
| LevelFactory.GetLevelDefinedExactly | android-native/core/bin/main/com/gravityflip/levels/LevelFactory.kt:170-182 | the three cases of `getLevel` are exactly the numbers 1..getTotalLevels(), and each gives the built-in level of that number; every other number gives no level |
| Screens.Show | android-native/core/src/main/kotlin/com/gravityflip/screens/GameScreen.kt:43-71 | the fresh screen holds level 1, which is what `getLevel(1)` gives, with a player at rest and alive at its spawn point (96, 32), gravity down with no cooldown, and no pause running |
| Screens.LoadLevel | android-native/core/src/main/kotlin/com/gravityflip/screens/GameScreen.kt:73-88 | with no level, nothing changes; with a level, the screen holds that level, a new player at rest at its spawn point, reset gravity, and a cleared flag and timer; the level number is never touched |
| Screens.ClampDelta | android-native/core/src/main/kotlin/com/gravityflip/screens/GameScreen.kt:92 | the step handed to physics is the frame time when that is at most 0.016 and exactly 0.016 for longer frames, so never more than either; it is non-negative for non-negative frames |
| Screens.ResolveCollision | android-native/core/src/main/kotlin/com/gravityflip/screens/GameScreen.kt:176-207 | the push goes along the axis of strictly smaller overlap, measured from the current box (ties go vertical), by that overlap, away from the tile as seen from the player's origin; the other axis is untouched |
| Screens.ResolveFromLeft | android-native/core/src/main/kotlin/com/gravityflip/screens/GameScreen.kt:176-197 | a player overlapping a cell from its left and pushed sideways ends flush against the cell, stopped horizontally and clear of it |
| Screens.ResolveFromBelow | android-native/core/src/main/kotlin/com/gravityflip/screens/GameScreen.kt:184-205 | a player overlapping a cell from below and pushed vertically ends flush under it, grounded and clear of it |
| Screens.ResolveFromAbove | android-native/core/src/main/kotlin/com/gravityflip/screens/GameScreen.kt:184-205 | a player at least 2 units above a cell's origin and pushed vertically lands on top of the cell, grounded and clear of it |
| Screens.ResolveFromRight | android-native/core/src/main/kotlin/com/gravityflip/screens/GameScreen.kt:176-197 | a player at least 2 units right of a cell's origin and pushed sideways ends flush against the cell's right edge, clear of it |
| Screens.ResolveDeepInsideStaysOverlapping | android-native/core/src/main/kotlin/com/gravityflip/screens/GameScreen.kt:180-197 | within 2 units right of a cell's origin, the direction comes from the origin and the distance from the nearer side, so a sideways push leaves the player overlapping the cell |
| Screens.DeepInsideExample | android-native/core/src/main/kotlin/com/gravityflip/screens/GameScreen.kt:176-207 | a player at (1, 2) against cell (0, 0) is pushed to (30, 2) and still overlaps the cell |
| Screens.StaleEntryPullsBack | android-native/core/src/main/kotlin/com/gravityflip/screens/GameScreen.kt:151-207 | an entry the player no longer overlaps is still resolved, with a negative penetration that pulls the player back to (0, 32) |
| Screens.Walk | android-native/core/src/main/kotlin/com/gravityflip/screens/GameScreen.kt:150-174 | the collision walk never changes the level, level number, timer or spawn point, and never kills the player |
| Screens.FirstStop | android-native/core/src/main/kotlin/com/gravityflip/screens/GameScreen.kt:153-166 | the index of the first spike or goal in the list, or the length when there is none |
| Screens.WalkFirstStop | android-native/core/src/main/kotlin/com/gravityflip/screens/GameScreen.kt:150-174 | first hit wins: the walk resolves exactly the solids before the first spike or goal, that tile alone decides the outcome, and later tiles have no effect |
| Screens.HandleCollisions | android-native/core/src/main/kotlin/com/gravityflip/screens/GameScreen.kt:150-174 | handling collisions never changes the level, level number or timer |
| Screens.HandleCollisionsOutcome | android-native/core/src/main/kotlin/com/gravityflip/screens/GameScreen.kt:150-174 | the level completes exactly when the first spike or goal overlapped is a goal; a spike first sends the player to spawn and resets gravity; otherwise gravity is untouched |
| Screens.Update | android-native/core/src/main/kotlin/com/gravityflip/screens/GameScreen.kt:121-148 | during the pause only the timer runs until it passes 1.5, and then the next level number is loaded; while playing, the tick is gravity update, then player integration under the new force, then the collision walk, and then the safety net: exactly when the player ends outside the widened viewport it is respawned and gravity is reset, and otherwise the collision walk's result stands; level, number and timer are untouched, and a player whose spawn is in bounds ends in bounds |
| Screens.OnSwipe | android-native/core/src/main/kotlin/com/gravityflip/screens/GameScreen.kt:63-67 | swipes are dropped while the level is complete; otherwise they go to the gravity controller |
| Screens.CompletePauseOnlyTimes | android-native/core/src/main/kotlin/com/gravityflip/screens/GameScreen.kt:122-130 | before the delay passes, a tick changes nothing but the timer |
| Screens.CompletePauseAdvances | android-native/core/src/main/kotlin/com/gravityflip/screens/GameScreen.kt:122-130 | after the delay on level 1 or 2, the next built-in level starts, with a fresh player at its spawn point and fresh gravity |
| Screens.FrozenAfterLastLevel | android-native/core/src/main/kotlin/com/gravityflip/screens/GameScreen.kt:73-130 | after the last level, every later frame keeps the complete flag set and leaves level, player and gravity unchanged (the level number is an unbounded integer here) |
| Screens.BuiltInSpawnsInBounds | android-native/core/src/main/kotlin/com/gravityflip/screens/GameScreen.kt:143-144 | every built-in level's spawn point is inside the safety box |
| Screens.ShowInv | android-native/core/src/main/kotlin/com/gravityflip/screens/GameScreen.kt:50-71 | the screen `show` sets up satisfies the invariant, on level 1, with the player at (96, 32) |
| Screens.LoadLevelInv | android-native/core/src/main/kotlin/com/gravityflip/screens/GameScreen.kt:73-88 | loading a built-in level under its own number establishes the invariant |
| Screens.PauseTickInv | android-native/core/src/main/kotlin/com/gravityflip/screens/GameScreen.kt:122-130 | a tick during the pause keeps the invariant |
| Screens.PlayingTickInv | android-native/core/src/main/kotlin/com/gravityflip/screens/GameScreen.kt:132-147 | a playing tick keeps the invariant: gravity, physics, collisions and the safety net together never leave it |
| Screens.UpdateInv | android-native/core/src/main/kotlin/com/gravityflip/screens/GameScreen.kt:121-148 | any tick with a non-negative step keeps the invariant |
| Screens.RenderAndSwipeInv | android-native/core/src/main/kotlin/com/gravityflip/screens/GameScreen.kt:63-95 | every frame, whatever its length, and every swipe keep the invariant |
| Input.NewSwipeState | android-native/core/src/main/kotlin/com/gravityflip/input/SwipeInputHandler.kt:14-15 | a fresh handler has no touch in progress and its start point at the origin |
| Input.TouchDown | android-native/core/src/main/kotlin/com/gravityflip/input/SwipeInputHandler.kt:25-31 | only the first finger starts a swipe, at its screen point; the event is always consumed |
| Input.TouchDragged | android-native/core/src/main/kotlin/com/gravityflip/input/SwipeInputHandler.kt:49-51 | dragging is consumed and changes nothing |
| Input.LongEnoughIsLength | android-native/core/src/main/kotlin/com/gravityflip/input/SwipeInputHandler.kt:41 | comparing squared lengths with 50 squared is comparing the length with 50 |
| Input.TouchUp | android-native/core/src/main/kotlin/com/gravityflip/input/SwipeInputHandler.kt:33-47 | a request is made exactly when the first finger ends a swipe of length at least 50, and it carries the classified direction; that release ends the swipe; anything else changes nothing |
| Input.DetectSwipeDirection | android-native/core/src/main/kotlin/com/gravityflip/input/SwipeInputHandler.kt:56-83 | after normalising the angle, the four sectors partition the circle: right below 45 or from 315, down on [45, 135], left on (135, 225], up on (225, 315) |
| Input.NormalizeRange | android-native/core/src/main/kotlin/com/gravityflip/input/SwipeInputHandler.kt:60 | an angle within one turn either side of zero lands in [0, 360) |
| Input.DetectIsPeriodic | android-native/core/src/main/kotlin/com/gravityflip/input/SwipeInputHandler.kt:57-83 | a negative angle and the same angle one turn on are classified alike |
| Input.ReverseSwipeOpposite | android-native/core/src/main/kotlin/com/gravityflip/input/SwipeInputHandler.kt:64-82 | off the four diagonals, the reverse swipe asks for the opposite gravity |
| Input.Diagonals | android-native/core/src/main/kotlin/com/gravityflip/input/SwipeInputHandler.kt:64-82 | both diagonals bounding the down sector classify as down, so reversal fails there (45 gives down, 225 gives left) |
| Input.DetectSwipeDirectionIntuitive | android-native/core/src/main/kotlin/com/gravityflip/input/SwipeInputHandler.kt:89-101 | the strictly dominant axis decides, by its sign; ties, including the zero vector, count as vertical |
| Input.IntuitiveReverseOpposite | android-native/core/src/main/kotlin/com/gravityflip/input/SwipeInputHandler.kt:89-101 | the reverse of any non-zero swipe asks for the opposite gravity, and the zero swipe asks for up |
| Input.IntuitiveScaleInvariant | android-native/core/src/main/kotlin/com/gravityflip/input/SwipeInputHandler.kt:89-101 | scaling a swipe by a positive factor does not change its direction |
| Input.ClassifiersAgreeOnAxes | android-native/core/src/main/kotlin/com/gravityflip/input/SwipeInputHandler.kt:56-101 | on the four axes the angle classifier and the axis classifier agree |
| Input.SwipeFiresOnce | android-native/core/src/main/kotlin/com/gravityflip/input/SwipeInputHandler.kt:25-47 | a long enough press-and-release requests the classified direction once, and a second release without a new press requests nothing |
| Input.ShortSwipeIgnored | android-native/core/src/main/kotlin/com/gravityflip/input/SwipeInputHandler.kt:33-47 | a short swipe ends the touch without a request |
| Input.OtherFingersIgnored | android-native/core/src/main/kotlin/com/gravityflip/input/SwipeInputHandler.kt:25-47 | other fingers neither start nor end a swipe and request nothing |
| Input.FreshReleaseIgnored | android-native/core/src/main/kotlin/com/gravityflip/input/SwipeInputHandler.kt:33-47 | a release before any press requests nothing and leaves the fresh handler as it was |

## Left out

- Entities.Update: the rotation easing of Player.kt:62-82 is not modelled. The two rotation fields pass through `update` unchanged; only `respawn` writes them (to zero). The easing is display-only and never read by physics or collision.
- Rendering is not modelled: level, player, HUD, background grid and the starfield (`Starfield`, which uses random numbers and the wall clock). It produces no state the simulation reads.
- Screens.Render has no contract of its own. It is one update with the clamped frame time, and `Screens.RenderAndSwipeInv` states what a frame preserves.
- Camera, viewport, `resize`, `pause`, `resume`, `hide`, `dispose` and all logging are not modelled. They are platform lifecycle with no effect on the game state.
- `GravityDirection.getColor`, the colour constants and the unused `PLAYER_SPEED`, `JUMP_FORCE` and animation durations are not modelled. Nothing in the simulation reads them.
- Input.TouchUp takes the swipe's angle as a parameter. libGDX's `Vector2.angleDeg` and `len` belong to libGDX, which is not part of this model, and the length test is made on squared lengths to avoid a square root (`Input.LongEnoughIsLength` relates the two).
- Geometry.Trunc: Kotlin `Float` is modelled as an exact real, so IEEE rounding, NaN and infinity are out of scope. So is `toInt`'s saturation at the 32-bit integer limits, which no in-game coordinate reaches.
- Rectangle overlap is taken to be strict (touching edges do not overlap). libGDX's `Rectangle` is not part of this model.
- Screens.FrozenAfterLastLevel: the level number is an unbounded integer. In the source it is a 32-bit `Int` (GameScreen.kt:43, 126) that grows by one per frame after the last level; after about 2^32 frames it would wrap round to 1 and level 1 would load again. The model does not represent that wrap-around.
- Levels.NewLevel: the grid is fixed at 32 x 24. `Level`'s width and height parameters (Level.kt:25-26) are not modelled, because every level is built with their defaults (LevelFactory.kt:14, 67, 120).
- The game's entry point, the Android launcher and the build scripts are not modelled.
