/**
 * The player's cube: position, velocity with a per-axis speed limit, the
 * grounded and alive flags, and the spawn point it returns to.
 */
module Entities {
  import opened GameConfig
  import opened Geometry

  /** Side of the cube: a little smaller than a tile. */
  const Size: real := TileSize - 4.0

  /**
   * The rotation fields are display state only; they are kept so that
   * respawn can zero them, and physics never reads them.
   */
  datatype Player = Player(
    position: Vec2,
    velocity: Vec2,
    isGrounded: bool,
    isAlive: bool,
    spawnPoint: Vec2,
    targetRotation: real,
    currentRotation: real)

  /** A player standing still at its own spawn point. */
  function NewPlayer(startX: real, startY: real): (p: Player)
    ensures p.position == p.spawnPoint == Vec2(startX, startY)
    ensures p.velocity == Zero && p.isAlive && !p.isGrounded
  {
    Player(Vec2(startX, startY), Zero, false, true, Vec2(startX, startY), 0.0, 0.0)
  }

  /** The collision box: the cube's square at its position. */
  function Bounds(p: Player): (b: Rect)
    ensures b == Rect(p.position.x, p.position.y, 28.0, 28.0)
  {
    Rect(p.position.x, p.position.y, Size, Size)
  }

  /**
   * The physics part of `update`: nothing happens to a dead player; otherwise
   * gravity accelerates the cube, each velocity component is clamped to the
   * speed limit, and the position moves by the clamped velocity.
   */
  function Update(p: Player, dt: real, gravity: Vec2): (r: Player)
    ensures !p.isAlive ==> r == p
    ensures p.isAlive ==> r.velocity == Vec2(Clamp(p.velocity.x + gravity.x * dt, -600.0, 600.0),
                                             Clamp(p.velocity.y + gravity.y * dt, -600.0, 600.0))
    ensures p.isAlive ==> r.position == Vec2(p.position.x + r.velocity.x * dt, p.position.y + r.velocity.y * dt)
    ensures p.isAlive ==> -600.0 <= r.velocity.x <= 600.0 && -600.0 <= r.velocity.y <= 600.0
    ensures r.isAlive == p.isAlive && r.isGrounded == p.isGrounded && r.spawnPoint == p.spawnPoint
  {
    if !p.isAlive then p
    else
      var vx := Clamp(p.velocity.x + gravity.x * dt, -MaxVelocity, MaxVelocity);
      var vy := Clamp(p.velocity.y + gravity.y * dt, -MaxVelocity, MaxVelocity);
      p.(velocity := Vec2(vx, vy),
         position := Vec2(p.position.x + vx * dt, p.position.y + vy * dt))
  }

  /**
   * `handleCollision`: push the cube along the normal by the penetration,
   * stop it on each axis the normal points along, and mark it grounded
   * exactly when the normal is vertical (floor or ceiling alike).
   */
  function HandleCollision(p: Player, normal: Vec2, penetration: real): (r: Player)
    ensures r.position == Vec2(p.position.x + normal.x * penetration, p.position.y + normal.y * penetration)
    ensures r.velocity.x == (if normal.x != 0.0 then 0.0 else p.velocity.x)
    ensures r.velocity.y == (if normal.y != 0.0 then 0.0 else p.velocity.y)
    ensures r.isGrounded <==> normal.y != 0.0
    ensures r.isAlive == p.isAlive && r.spawnPoint == p.spawnPoint
  {
    p.(position := Vec2(p.position.x + normal.x * penetration, p.position.y + normal.y * penetration),
       velocity := Vec2(if normal.x != 0.0 then 0.0 else p.velocity.x,
                        if normal.y != 0.0 then 0.0 else p.velocity.y),
       isGrounded := normal.y > 0.0 || normal.y < 0.0)
  }

  /** `die`: the cube stops and is no longer alive, where it is. */
  function Die(p: Player): (r: Player)
    ensures !r.isAlive && r.velocity == Zero
    ensures r.position == p.position && r.spawnPoint == p.spawnPoint && r.isGrounded == p.isGrounded
  {
    p.(isAlive := false, velocity := Zero)
  }

  /** `respawn`: back to the spawn point, at rest, alive, airborne, unrotated. */
  function Respawn(p: Player): (r: Player)
    ensures r.position == p.spawnPoint && r.spawnPoint == p.spawnPoint
    ensures r.velocity == Zero && r.isAlive && !r.isGrounded
    ensures r.targetRotation == 0.0 && r.currentRotation == 0.0
  {
    p.(position := p.spawnPoint, velocity := Zero, isAlive := true, isGrounded := false,
       currentRotation := 0.0, targetRotation := 0.0)
  }

  /** `setSpawnPoint`: only the spawn point changes; the cube does not move. */
  function SetSpawnPoint(p: Player, x: real, y: real): (r: Player)
    ensures r == p.(spawnPoint := Vec2(x, y))
  {
    p.(spawnPoint := Vec2(x, y))
  }

  /** Respawning twice is respawning once. */
  lemma RespawnIdempotent(p: Player)
    ensures Respawn(Respawn(p)) == Respawn(p)
  {
  }

  /** A respawn erases a death: dying first makes no difference to where and how the cube comes back. */
  lemma RespawnUndoesDie(p: Player)
    ensures Respawn(Die(p)) == Respawn(p)
  {
  }

  /** A new spawn point takes effect at the next respawn, and only then. */
  lemma SetSpawnThenRespawn(p: Player, x: real, y: real)
    ensures SetSpawnPoint(p, x, y).position == p.position
    ensures Respawn(SetSpawnPoint(p, x, y)).position == Vec2(x, y)
  {
  }

  /** Within the speed limit before a tick, within it after, whatever the gravity and the step. */
  lemma VelocityStaysLimited(p: Player, dt: real, gravity: Vec2)
    requires -600.0 <= p.velocity.x <= 600.0 && -600.0 <= p.velocity.y <= 600.0
    ensures -600.0 <= Update(p, dt, gravity).velocity.x <= 600.0
    ensures -600.0 <= Update(p, dt, gravity).velocity.y <= 600.0
  {
  }

  /** Free fall from rest for one full tick of downward gravity. */
  lemma FreeFallOneTick(p: Player)
    requires p.isAlive && p.velocity == Zero
    ensures Update(p, 0.016, Vec2(0.0, -800.0)).velocity == Vec2(0.0, -12.8)
    ensures Update(p, 0.016, Vec2(0.0, -800.0)).position == Vec2(p.position.x, p.position.y - 0.2048)
  {
  }

  /** With enough time under gravity the speed saturates at the limit instead of growing. */
  lemma FallSpeedSaturates(p: Player, dt: real)
    requires p.isAlive && p.velocity == Zero && 0.75 <= dt
    ensures Update(p, dt, Vec2(0.0, -800.0)).velocity == Vec2(0.0, -600.0)
  {
  }
}
