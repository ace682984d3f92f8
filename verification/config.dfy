/** Game-wide constants: virtual screen, tile grid and physics tuning. */
module GameConfig {

  /** Virtual screen size in world units. */
  const VirtualWidth: real := 1024.0
  const VirtualHeight: real := 768.0

  /** Side of one square tile, and the grid dimensions in tiles (1024 / 32 by 768 / 32). */
  const TileSize: real := 32.0
  const GridWidth: int := 32
  const GridHeight: int := 24

  /** Magnitude of the gravity acceleration, and the per-axis speed limit. */
  const Gravity: real := 800.0
  const MaxVelocity: real := 600.0
}
