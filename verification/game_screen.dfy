/**
 * The gameplay loop of the game screen: one tick of gravity, player physics,
 * tile collisions and the out-of-bounds safety net, the level-complete pause
 * and the move to the next level, and the gate on swipe input.
 */
module Screens {
  import opened GameConfig
  import opened Geometry
  import opened Nullable
  import opened Levels
  import Physics
  import Entities
  import LevelFactory

  /** Longest time step the physics is ever given. */
  const MaxDelta: real := 0.016

  /** How long the level-complete pause must exceed before the next level loads. */
  const LevelCompleteDelay: real := 1.5

  /** How far outside the viewport the player may go before being sent back. */
  const BoundsMargin: real := 100.0

  /** The screen's mutable fields as one value. */
  datatype GameState = GameState(
    level: Level,
    player: Entities.Player,
    gravity: Physics.Controller,
    levelNumber: int,
    isLevelComplete: bool,
    levelCompleteTimer: real)

  /** The first level as `show` loads it into a fresh screen. */
  function Show(): (r: GameState)
    ensures r.levelNumber == 1 && LevelFactory.GetLevel(1) == Some(r.level)
    ensures r.player.position == r.player.spawnPoint == Vec2(96.0, 32.0)
    ensures r.player.velocity == Zero && r.player.isAlive
    ensures r.gravity.currentDirection == Physics.Down && !r.gravity.isFlipping
    ensures !r.isLevelComplete && r.levelCompleteTimer == 0.0
  {
    LevelFactory.GetLevelCreates();
    var lv := LevelFactory.CreateLevel1();
    GameState(lv, Entities.NewPlayer(lv.spawnPoint.x, lv.spawnPoint.y), Physics.NewController(), 1, false, 0.0)
  }

  /**
   * `loadLevel`: with a level, a new player at its spawn point, gravity reset
   * and the complete flag and timer cleared; without one, nothing at all. The
   * level number is the caller's business.
   */
  function LoadLevel(s: GameState, n: int): (r: GameState)
    ensures LevelFactory.GetLevel(n).None? ==> r == s
    ensures LevelFactory.GetLevel(n).Some? ==>
      && r.level == LevelFactory.GetLevel(n).value
      && r.player.position == r.player.spawnPoint == r.level.spawnPoint
      && r.player.velocity == Zero && r.player.isAlive
      && r.gravity == Physics.NewController()
      && !r.isLevelComplete && r.levelCompleteTimer == 0.0
    ensures r.levelNumber == s.levelNumber
  {
    match LevelFactory.GetLevel(n)
    case None => s
    case Some(lv) =>
      s.(level := lv,
         player := Entities.NewPlayer(lv.spawnPoint.x, lv.spawnPoint.y),
         gravity := Physics.Reset(s.gravity),
         isLevelComplete := false,
         levelCompleteTimer := 0.0)
  }

  /** The frame time handed to the physics: never more than 0.016. */
  function ClampDelta(delta: real): (dt: real)
    ensures dt <= MaxDelta && dt <= delta
    ensures delta <= MaxDelta ==> dt == delta
    ensures MaxDelta < delta ==> dt == MaxDelta
    ensures 0.0 <= delta ==> 0.0 <= dt
  {
    Min(delta, MaxDelta)
  }

  /** Outside the viewport widened by the margin on every side. */
  predicate OutOfBounds(pos: Vec2) {
    || pos.y < -BoundsMargin || pos.y > VirtualHeight + BoundsMargin
    || pos.x < -BoundsMargin || pos.x > VirtualWidth + BoundsMargin
  }

  // ---------------------------------------------------------------------------
  // Collision response
  // ---------------------------------------------------------------------------

  /** Overlap of two intervals along one axis, measured from the nearer side. */
  function Overlap(lo: real, size: real, tileLo: real, tileSize: real): real {
    Min(lo + size - tileLo, tileLo + tileSize - lo)
  }

  /**
   * `resolveCollision`: push the player out of the tile along the axis with
   * the smaller overlap (ties go vertical), by that overlap, away from the
   * tile's origin as seen from the player's own origin. The overlaps are taken
   * from the player as it is now.
   */
  function ResolveCollision(p: Entities.Player, tile: Rect): (r: Entities.Player)
    ensures var ox := Overlap(p.position.x, Entities.Size, tile.x, tile.width);
            var oy := Overlap(p.position.y, Entities.Size, tile.y, tile.height);
            if ox < oy then
              && r.position.y == p.position.y && r.velocity.y == p.velocity.y
              && r.velocity.x == 0.0 && !r.isGrounded
              && r.position.x == (if p.position.x < tile.x then p.position.x - ox else p.position.x + ox)
            else
              && r.position.x == p.position.x && r.velocity.x == p.velocity.x
              && r.velocity.y == 0.0 && r.isGrounded
              && r.position.y == (if p.position.y < tile.y then p.position.y - oy else p.position.y + oy)
    ensures r.isAlive == p.isAlive && r.spawnPoint == p.spawnPoint
  {
    var b := Entities.Bounds(p);
    var ox := Overlap(b.x, b.width, tile.x, tile.width);
    var oy := Overlap(b.y, b.height, tile.y, tile.height);
    if ox < oy then
      var normal := if p.position.x < tile.x then Vec2(-1.0, 0.0) else Vec2(1.0, 0.0);
      Entities.HandleCollision(p, normal, ox)
    else
      var normal := if p.position.y < tile.y then Vec2(0.0, -1.0) else Vec2(0.0, 1.0);
      Entities.HandleCollision(p, normal, oy)
  }

  /** A tile the size of a grid cell. */
  predicate CellSized(tile: Rect) {
    tile.width == TileSize && tile.height == TileSize
  }

  /**
   * A player overlapping a tile from its left, pushed sideways, ends flush
   * against the tile's left edge, stopped horizontally and clear of it.
   */
  lemma ResolveFromLeft(p: Entities.Player, tile: Rect)
    requires CellSized(tile) && Overlaps(Entities.Bounds(p), tile)
    requires p.position.x < tile.x
    requires Overlap(p.position.x, Entities.Size, tile.x, tile.width) < Overlap(p.position.y, Entities.Size, tile.y, tile.height)
    ensures ResolveCollision(p, tile).position.x + Entities.Size == tile.x
    ensures ResolveCollision(p, tile).velocity.x == 0.0
    ensures !Overlaps(Entities.Bounds(ResolveCollision(p, tile)), tile)
  {
  }

  /**
   * A player overlapping a tile from below, pushed vertically, ends with its
   * top against the tile's bottom edge, stopped vertically and clear of it.
   */
  lemma ResolveFromBelow(p: Entities.Player, tile: Rect)
    requires CellSized(tile) && Overlaps(Entities.Bounds(p), tile)
    requires p.position.y < tile.y
    requires Overlap(p.position.y, Entities.Size, tile.y, tile.height) <= Overlap(p.position.x, Entities.Size, tile.x, tile.width)
    ensures ResolveCollision(p, tile).position.y + Entities.Size == tile.y
    ensures ResolveCollision(p, tile).velocity.y == 0.0
    ensures ResolveCollision(p, tile).isGrounded
    ensures !Overlaps(Entities.Bounds(ResolveCollision(p, tile)), tile)
  {
  }

  /**
   * A player overlapping a tile from above, with its origin at least 2 units
   * above the tile's, pushed vertically, lands on top of the tile.
   */
  lemma ResolveFromAbove(p: Entities.Player, tile: Rect)
    requires CellSized(tile) && Overlaps(Entities.Bounds(p), tile)
    requires tile.y + 2.0 <= p.position.y
    requires Overlap(p.position.y, Entities.Size, tile.y, tile.height) <= Overlap(p.position.x, Entities.Size, tile.x, tile.width)
    ensures ResolveCollision(p, tile).position.y == tile.y + TileSize
    ensures ResolveCollision(p, tile).velocity.y == 0.0 && ResolveCollision(p, tile).isGrounded
    ensures !Overlaps(Entities.Bounds(ResolveCollision(p, tile)), tile)
  {
  }

  /** The same from the right: the player ends against the tile's right edge. */
  lemma ResolveFromRight(p: Entities.Player, tile: Rect)
    requires CellSized(tile) && Overlaps(Entities.Bounds(p), tile)
    requires tile.x + 2.0 <= p.position.x
    requires Overlap(p.position.x, Entities.Size, tile.x, tile.width) < Overlap(p.position.y, Entities.Size, tile.y, tile.height)
    ensures ResolveCollision(p, tile).position.x == tile.x + TileSize
    ensures ResolveCollision(p, tile).velocity.x == 0.0
    ensures !Overlaps(Entities.Bounds(ResolveCollision(p, tile)), tile)
  {
  }

  /**
   * Deep inside a tile the push can fall short: the direction comes from the
   * player's origin, the distance from the nearer side, and the two disagree
   * when the origin is within 2 units right of the tile's origin.
   */
  lemma ResolveDeepInsideStaysOverlapping(p: Entities.Player, tile: Rect)
    requires CellSized(tile)
    requires tile.x <= p.position.x < tile.x + 2.0
    requires tile.y < p.position.y + Entities.Size && p.position.y < tile.y + TileSize
    requires Overlap(p.position.x, Entities.Size, tile.x, tile.width) < Overlap(p.position.y, Entities.Size, tile.y, tile.height)
    ensures Overlaps(Entities.Bounds(ResolveCollision(p, tile)), tile)
  {
  }

  /** A concrete case of the above: one unit in, two up, pushed right by 29 to x = 30, still inside. */
  lemma DeepInsideExample()
    ensures var p := Entities.NewPlayer(1.0, 2.0);
            var r := ResolveCollision(p, CellRect(0, 0));
            r.position == Vec2(30.0, 2.0) && Overlaps(Entities.Bounds(r), CellRect(0, 0))
  {
  }

  /**
   * A stale entry: a tile the player no longer overlaps (an earlier push in
   * the same walk moved it) still gets resolved, with a negative penetration
   * that pulls the player back onto it.
   */
  lemma StaleEntryPullsBack()
    ensures var p := Entities.NewPlayer(0.0, 40.0);
            var r := ResolveCollision(p, CellRect(0, 0));
            !Overlaps(Entities.Bounds(p), CellRect(0, 0)) && r.position == Vec2(0.0, 32.0)
  {
  }

  // ---------------------------------------------------------------------------
  // The collision walk
  // ---------------------------------------------------------------------------

  /** Tiles that end the walk. */
  predicate Stops(c: TileCollision) {
    c.kind == Spike || c.kind == Goal
  }

  /**
   * The `handleCollisions` loop over a list built once, before any push: a
   * spike sends the player back to spawn with gravity reset, a goal completes
   * the level, and both end the walk; each solid is resolved against the
   * player as it stands and the walk goes on; anything else is skipped.
   */
  function Walk(s: GameState, cs: seq<TileCollision>): (r: GameState)
    ensures r.level == s.level && r.levelNumber == s.levelNumber && r.levelCompleteTimer == s.levelCompleteTimer
    ensures r.player.spawnPoint == s.player.spawnPoint
    ensures s.player.isAlive ==> r.player.isAlive
    decreases |cs|
  {
    if |cs| == 0 then s
    else
      match cs[0].kind
      case Spike => s.(player := Entities.Respawn(s.player), gravity := Physics.Reset(s.gravity))
      case Goal => s.(isLevelComplete := true)
      case Solid => Walk(s.(player := ResolveCollision(s.player, cs[0].bounds)), cs[1..])
      case _ => Walk(s, cs[1..])
  }

  /** Index of the first spike or goal, or the length when there is none. */
  function FirstStop(cs: seq<TileCollision>): (k: nat)
    ensures k <= |cs|
    ensures forall i :: 0 <= i < k ==> !Stops(cs[i])
    ensures k < |cs| ==> Stops(cs[k])
    decreases |cs|
  {
    if |cs| == 0 then 0
    else if Stops(cs[0]) then 0
    else 1 + FirstStop(cs[1..])
  }

  /** Resolving every solid of a list in turn, skipping everything else. */
  function ResolveSolids(p: Entities.Player, cs: seq<TileCollision>): Entities.Player
    decreases |cs|
  {
    if |cs| == 0 then p
    else ResolveSolids(if cs[0].kind == Solid then ResolveCollision(p, cs[0].bounds) else p, cs[1..])
  }

  /**
   * First hit wins: the walk resolves exactly the solids before the first
   * spike or goal, and then that tile alone decides the outcome; tiles after
   * it have no effect.
   */
  lemma {:induction false} WalkFirstStop(s: GameState, cs: seq<TileCollision>)
    ensures var k := FirstStop(cs);
            var p := ResolveSolids(s.player, cs[..k]);
            Walk(s, cs) ==
              if k == |cs| then s.(player := p)
              else if cs[k].kind == Spike then s.(player := Entities.Respawn(p), gravity := Physics.Reset(s.gravity))
              else s.(player := p, isLevelComplete := true)
    decreases |cs|
  {
    if |cs| > 0 && !Stops(cs[0]) {
      var q := if cs[0].kind == Solid then ResolveCollision(s.player, cs[0].bounds) else s.player;
      var s' := s.(player := q);
      assert Walk(s, cs) == Walk(s', cs[1..]);
      WalkFirstStop(s', cs[1..]);
      var k := FirstStop(cs);
      assert k == 1 + FirstStop(cs[1..]);
      assert cs[..k][1..] == cs[1..][..k - 1];
      assert ResolveSolids(s.player, cs[..k]) == ResolveSolids(q, cs[..k][1..]);
    }
  }

  /**
   * `handleCollisions`: the walk over the tiles the player's box overlaps
   * before any of them is resolved.
   */
  function HandleCollisions(s: GameState): (r: GameState)
    ensures r.level == s.level && r.levelNumber == s.levelNumber && r.levelCompleteTimer == s.levelCompleteTimer
  {
    Walk(s, CollidingTiles(s.level, Entities.Bounds(s.player)))
  }

  /**
   * The collision outcome of a tick: the level completes exactly when the
   * first spike-or-goal among the overlapped tiles is a goal, and gravity is
   * reset exactly when it is a spike (or stays as it was otherwise).
   */
  lemma HandleCollisionsOutcome(s: GameState)
    requires !s.isLevelComplete
    ensures var cs := CollidingTiles(s.level, Entities.Bounds(s.player));
            var k := FirstStop(cs);
            && (HandleCollisions(s).isLevelComplete <==> k < |cs| && cs[k].kind == Goal)
            && (k < |cs| && cs[k].kind == Spike ==>
                  HandleCollisions(s).player.position == s.player.spawnPoint && HandleCollisions(s).gravity == Physics.NewController())
            && (!(k < |cs| && cs[k].kind == Spike) ==> HandleCollisions(s).gravity == s.gravity)
  {
    WalkFirstStop(s, CollidingTiles(s.level, Entities.Bounds(s.player)));
  }

  // ---------------------------------------------------------------------------
  // The tick
  // ---------------------------------------------------------------------------

  /**
   * `update`: while the level is complete only the pause timer runs, and once
   * it exceeds 1.5 the next level number is loaded; otherwise gravity, then
   * the player, then the collisions, then the safety net.
   */
  function Update(s: GameState, dt: real): (r: GameState)
    ensures s.isLevelComplete && s.levelCompleteTimer + dt <= LevelCompleteDelay ==>
      r == s.(levelCompleteTimer := s.levelCompleteTimer + dt)
    ensures s.isLevelComplete && s.levelCompleteTimer + dt > LevelCompleteDelay ==>
      r == LoadLevel(s.(levelCompleteTimer := s.levelCompleteTimer + dt, levelNumber := s.levelNumber + 1), s.levelNumber + 1)
    ensures !s.isLevelComplete ==>
      r.level == s.level && r.levelNumber == s.levelNumber && r.levelCompleteTimer == s.levelCompleteTimer
    ensures !s.isLevelComplete && !OutOfBounds(s.player.spawnPoint) ==> !OutOfBounds(r.player.position)
    ensures !s.isLevelComplete ==>
      var g := Physics.Update(s.gravity, dt);
      var h := HandleCollisions(s.(gravity := g, player := Entities.Update(s.player, dt, Physics.GravityForce(g))));
      && (OutOfBounds(h.player.position) ==>
            r == h.(player := Entities.Respawn(h.player), gravity := Physics.NewController()))
      && (!OutOfBounds(h.player.position) ==> r == h)
  {
    if s.isLevelComplete then
      var t := s.levelCompleteTimer + dt;
      if t > LevelCompleteDelay then
        LoadLevel(s.(levelCompleteTimer := t, levelNumber := s.levelNumber + 1), s.levelNumber + 1)
      else s.(levelCompleteTimer := t)
    else
      var g := Physics.Update(s.gravity, dt);
      var p := Entities.Update(s.player, dt, Physics.GravityForce(g));
      var h := HandleCollisions(s.(gravity := g, player := p));
      if OutOfBounds(h.player.position) then
        h.(player := Entities.Respawn(h.player), gravity := Physics.Reset(h.gravity))
      else h
  }

  /** `render`'s part in the simulation: one update with the clamped frame time. */
  function Render(s: GameState, delta: real): GameState {
    Update(s, ClampDelta(delta))
  }

  /** The swipe callback installed by `show`: flips are dropped while the level is complete. */
  function OnSwipe(s: GameState, d: Physics.GravityDirection): (r: GameState)
    ensures s.isLevelComplete ==> r == s
    ensures !s.isLevelComplete ==> r == s.(gravity := Physics.FlipGravity(s.gravity, d).1)
  {
    if s.isLevelComplete then s
    else s.(gravity := Physics.FlipGravity(s.gravity, d).1)
  }

  /** One render per frame time. */
  function Run(s: GameState, deltas: seq<real>): GameState
    decreases |deltas|
  {
    if |deltas| == 0 then s else Run(Render(s, deltas[0]), deltas[1..])
  }

  /** While complete and not yet past the delay, a tick touches nothing but the timer. */
  lemma CompletePauseOnlyTimes(s: GameState, dt: real)
    requires s.isLevelComplete && s.levelCompleteTimer + dt <= LevelCompleteDelay
    ensures Update(s, dt).player == s.player && Update(s, dt).gravity == s.gravity
    ensures Update(s, dt).level == s.level && Update(s, dt).levelNumber == s.levelNumber
    ensures Update(s, dt).isLevelComplete
    ensures Update(s, dt).levelCompleteTimer == s.levelCompleteTimer + dt
  {
  }

  /** Past the delay on level 1 or 2, the next built-in level starts, from its spawn point. */
  lemma CompletePauseAdvances(s: GameState, dt: real)
    requires s.isLevelComplete && s.levelCompleteTimer + dt > LevelCompleteDelay
    requires 1 <= s.levelNumber < LevelFactory.GetTotalLevels()
    ensures var r := Update(s, dt);
            && r.levelNumber == s.levelNumber + 1
            && LevelFactory.GetLevel(r.levelNumber) == Some(r.level)
            && !r.isLevelComplete && r.levelCompleteTimer == 0.0
            && r.player.position == r.level.spawnPoint && r.player.isAlive && r.player.velocity == Zero
            && r.gravity == Physics.NewController()
  {
    LevelFactory.GetLevelDefinedExactly(s.levelNumber + 1);
  }

  /**
   * After the last level there is nothing to load: the complete flag stays
   * set, the level, player and gravity never change again, and only the
   * level number and the timer keep running.
   */
  lemma {:induction false} FrozenAfterLastLevel(s: GameState, deltas: seq<real>)
    requires s.isLevelComplete && s.levelNumber >= LevelFactory.GetTotalLevels()
    ensures var r := Run(s, deltas);
            && r.isLevelComplete && r.level == s.level && r.player == s.player && r.gravity == s.gravity
            && r.levelNumber >= s.levelNumber
    decreases |deltas|
  {
    if |deltas| > 0 {
      var s' := Render(s, deltas[0]);
      LevelFactory.GetLevelDefinedExactly(s.levelNumber + 1);
      assert s'.isLevelComplete && s'.level == s.level && s'.player == s.player && s'.gravity == s.gravity;
      assert s'.levelNumber >= s.levelNumber;
      FrozenAfterLastLevel(s', deltas[1..]);
    }
  }

  // ---------------------------------------------------------------------------
  // The loop invariant
  // ---------------------------------------------------------------------------

  /**
   * What holds of the screen between frames: the player is alive (nothing in
   * the loop kills it), spawns where the level says and is inside the safety
   * box, the gravity controller's own invariant holds, the level matches its
   * number while there is one, and the pause timer only runs while the level
   * is complete.
   */
  predicate Inv(s: GameState) {
    && s.player.isAlive
    && s.player.spawnPoint == s.level.spawnPoint
    && !OutOfBounds(s.level.spawnPoint)
    && !OutOfBounds(s.player.position)
    && Physics.Inv(s.gravity)
    && (LevelFactory.GetLevel(s.levelNumber).Some? ==> LevelFactory.GetLevel(s.levelNumber).value == s.level)
    && 0.0 <= s.levelCompleteTimer
    && (!s.isLevelComplete ==> s.levelCompleteTimer == 0.0)
  }

  /** Every built-in level puts its spawn point inside the safety box. */
  lemma BuiltInSpawnsInBounds(n: int)
    requires LevelFactory.GetLevel(n).Some?
    ensures !OutOfBounds(LevelFactory.GetLevel(n).value.spawnPoint)
  {
    LevelFactory.PaintedInWorld(LevelFactory.LevelName(n), LevelFactory.LevelStrokes(n));
  }

  /** The screen as `show` leaves it satisfies the invariant. */
  lemma ShowInv()
    ensures Inv(Show())
    ensures Show().levelNumber == 1 && Show().player.position == Vec2(96.0, 32.0)
  {
    BuiltInSpawnsInBounds(1);
  }

  /** Loading a built-in level under its own number establishes the invariant from scratch. */
  lemma LoadLevelInv(s: GameState, n: int)
    requires LevelFactory.GetLevel(n).Some? && s.levelNumber == n
    ensures Inv(LoadLevel(s, n))
  {
    BuiltInSpawnsInBounds(n);
  }

  /** A tick during the level-complete pause keeps the invariant. */
  lemma PauseTickInv(s: GameState, dt: real)
    requires Inv(s) && 0.0 <= dt && s.isLevelComplete
    ensures Inv(Update(s, dt))
  {
    var n := s.levelNumber + 1;
    var t := s.levelCompleteTimer + dt;
    if t > LevelCompleteDelay {
      var s1 := s.(levelCompleteTimer := t, levelNumber := n);
      assert Update(s, dt) == LoadLevel(s1, n);
      if LevelFactory.GetLevel(n).Some? {
        LoadLevelInv(s1, n);
      } else {
        assert LoadLevel(s1, n) == s1;
      }
    }
  }

  /** A playing tick keeps the invariant: the safety net catches every escape. */
  lemma PlayingTickInv(s: GameState, dt: real)
    requires Inv(s) && 0.0 <= dt && !s.isLevelComplete
    ensures Inv(Update(s, dt))
  {
    var g := Physics.Update(s.gravity, dt);
    var p := Entities.Update(s.player, dt, Physics.GravityForce(g));
    var s1 := s.(gravity := g, player := p);
    assert Physics.Inv(g) && p.isAlive && p.spawnPoint == s.level.spawnPoint;
    var cs := CollidingTiles(s1.level, Entities.Bounds(s1.player));
    var h := HandleCollisions(s1);
    WalkFirstStop(s1, cs);
    assert Physics.Inv(h.gravity);
    assert h.player.isAlive && h.player.spawnPoint == s.level.spawnPoint && h.level == s.level;
    assert !h.isLevelComplete ==> h.levelCompleteTimer == 0.0;
  }

  /** A tick with a non-negative time step keeps the invariant. */
  lemma UpdateInv(s: GameState, dt: real)
    requires Inv(s) && 0.0 <= dt
    ensures Inv(Update(s, dt))
  {
    if s.isLevelComplete {
      PauseTickInv(s, dt);
    } else {
      PlayingTickInv(s, dt);
    }
  }

  /** So does a frame, whatever its length, and a swipe. */
  lemma RenderAndSwipeInv(s: GameState, delta: real, d: Physics.GravityDirection)
    requires Inv(s) && 0.0 <= delta
    ensures Inv(Render(s, delta))
    ensures Inv(OnSwipe(s, d))
  {
    UpdateInv(s, ClampDelta(delta));
  }
}
