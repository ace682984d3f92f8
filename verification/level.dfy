/**
 * The tile grid of one level: a fixed GridWidth x GridHeight array of tile
 * types, the spawn and goal points recorded while it is built, and the area
 * query the collision loop runs every tick.
 */
module Levels {
  import opened GameConfig
  import opened Geometry

  datatype TileType = Empty | Solid | Spike | Goal | Spawn

  /** Grid coordinates that address a stored cell. */
  predicate InGrid(gx: int, gy: int) {
    0 <= gx < GridWidth && 0 <= gy < GridHeight
  }

  /** Rows indexed by gridY, each row indexed by gridX. */
  predicate IsGrid(g: seq<seq<TileType>>) {
    |g| == GridHeight && forall gy :: 0 <= gy < |g| ==> |g[gy]| == GridWidth
  }

  function EmptyGrid(): seq<seq<TileType>> {
    seq(GridHeight, _ => seq(GridWidth, _ => Empty))
  }

  type Grid = g: seq<seq<TileType>> | IsGrid(g) witness EmptyGrid()

  datatype Level = Level(name: string, tiles: Grid, spawnPoint: Vec2, goalPosition: Vec2)

  /** World coordinates of the lower-left corner of a cell. */
  function CellOrigin(gx: int, gy: int): Vec2 {
    Vec2(gx as real * TileSize, gy as real * TileSize)
  }

  /** The world rectangle a cell covers. */
  function CellRect(gx: int, gy: int): Rect {
    Rect(gx as real * TileSize, gy as real * TileSize, TileSize, TileSize)
  }

  /** A point at some cell's origin or between: inside the span of cell origins. */
  predicate InWorld(p: Vec2) {
    0.0 <= p.x <= (GridWidth - 1) as real * TileSize && 0.0 <= p.y <= (GridHeight - 1) as real * TileSize
  }

  /** A fresh level: every cell empty, default spawn two tiles in, goal three tiles from the far corner. */
  function NewLevel(name: string): (lv: Level)
    ensures lv.name == name
    ensures forall gx, gy :: InGrid(gx, gy) ==> lv.tiles[gy][gx] == Empty
    ensures lv.spawnPoint == Vec2(64.0, 64.0)
    ensures lv.goalPosition == Vec2(928.0, 672.0)
    ensures InWorld(lv.spawnPoint) && InWorld(lv.goalPosition)
  {
    Level(name, EmptyGrid(),
          Vec2(TileSize * 2.0, TileSize * 2.0),
          Vec2(TileSize * (GridWidth - 3) as real, TileSize * (GridHeight - 3) as real))
  }

  /** Reading a cell; anything outside the grid reads as a wall. */
  function GetTile(lv: Level, gx: int, gy: int): (r: TileType)
    ensures InGrid(gx, gy) ==> r == lv.tiles[gy][gx]
    ensures !InGrid(gx, gy) ==> r == Solid
    ensures r == Empty ==> InGrid(gx, gy)
  {
    if InGrid(gx, gy) then lv.tiles[gy][gx] else Solid
  }

  /**
   * Writing a cell; a write outside the grid is dropped. Placing a spawn or
   * goal tile also records that cell's origin as the level's spawn or goal.
   */
  function SetTile(lv: Level, gx: int, gy: int, t: TileType): (r: Level)
    ensures !InGrid(gx, gy) ==> r == lv
    ensures forall x, y :: GetTile(r, x, y) == if x == gx && y == gy && InGrid(gx, gy) then t else GetTile(lv, x, y)
    ensures r.name == lv.name
    ensures r.spawnPoint == if InGrid(gx, gy) && t == Spawn then CellOrigin(gx, gy) else lv.spawnPoint
    ensures r.goalPosition == if InGrid(gx, gy) && t == Goal then CellOrigin(gx, gy) else lv.goalPosition
    ensures InWorld(lv.spawnPoint) ==> InWorld(r.spawnPoint)
    ensures InWorld(lv.goalPosition) ==> InWorld(r.goalPosition)
  {
    if !InGrid(gx, gy) then lv
    else
      var tiles := lv.tiles[gy := lv.tiles[gy][gx := t]];
      var lv' := lv.(tiles := tiles);
      match t
      case Spawn => lv'.(spawnPoint := CellOrigin(gx, gy))
      case Goal => lv'.(goalPosition := CellOrigin(gx, gy))
      case _ => lv'
  }

  /** Reading the cell under a world point; coordinates are truncated toward zero. */
  function GetTileAtWorldPos(lv: Level, worldX: real, worldY: real): (r: TileType)
    ensures 0.0 <= worldX < VirtualWidth && 0.0 <= worldY < VirtualHeight ==>
      var gx := (worldX / TileSize).Floor;
      var gy := (worldY / TileSize).Floor;
      InGrid(gx, gy) && r == lv.tiles[gy][gx]
    ensures worldX <= -TileSize || worldY <= -TileSize || worldX >= VirtualWidth || worldY >= VirtualHeight ==> r == Solid
  {
    GetTile(lv, Trunc(worldX / TileSize), Trunc(worldY / TileSize))
  }

  /** The fresh level reads empty inside the grid and solid outside it. */
  lemma NewLevelReads(name: string, gx: int, gy: int)
    ensures GetTile(NewLevel(name), gx, gy) == if InGrid(gx, gy) then Empty else Solid
  {
  }

  /** The closed-world boundary: outside the grid, reads give a wall and writes change nothing. */
  lemma OutsideGridIsWall(lv: Level, gx: int, gy: int, t: TileType)
    requires !InGrid(gx, gy)
    ensures GetTile(lv, gx, gy) == Solid
    ensures SetTile(lv, gx, gy, t) == lv
  {
  }

  /** Round trip: a cell reads back what was written to it, and every other cell is untouched. */
  lemma SetThenGet(lv: Level, gx: int, gy: int, t: TileType)
    requires InGrid(gx, gy)
    ensures GetTile(SetTile(lv, gx, gy, t), gx, gy) == t
    ensures forall x, y :: (x, y) != (gx, gy) ==> GetTile(SetTile(lv, gx, gy, t), x, y) == GetTile(lv, x, y)
  {
  }

  /** For a non-negative point, the world-position read gives the cell whose square contains it. */
  lemma WorldPosReadsContainingCell(lv: Level, worldX: real, worldY: real, gx: int, gy: int)
    requires 0.0 <= worldX && 0.0 <= worldY
    requires gx as real * TileSize <= worldX < (gx + 1) as real * TileSize
    requires gy as real * TileSize <= worldY < (gy + 1) as real * TileSize
    ensures GetTileAtWorldPos(lv, worldX, worldY) == GetTile(lv, gx, gy)
  {
    assert gx as real <= worldX / TileSize < gx as real + 1.0;
    assert gy as real <= worldY / TileSize < gy as real + 1.0;
  }

  /**
   * Truncation toward zero folds the strip just left of the grid onto column
   * 0: a point with -32 < x < 0 reads the cell of column 0, not the wall
   * outside it.
   */
  lemma WorldPosNegativeStripReadsColumnZero(lv: Level, worldX: real, worldY: real)
    requires -TileSize < worldX < 0.0
    ensures GetTileAtWorldPos(lv, worldX, worldY) == GetTileAtWorldPos(lv, 0.0, worldY)
    ensures GetTileAtWorldPos(lv, worldX, worldY) == GetTile(lv, 0, Trunc(worldY / TileSize))
  {
    assert Trunc(worldX / TileSize) == 0;
  }

  /** The same on the other axis: a point with -32 < y < 0 reads the cell of row 0. */
  lemma WorldPosNegativeStripReadsRowZero(lv: Level, worldX: real, worldY: real)
    requires -TileSize < worldY < 0.0
    ensures GetTileAtWorldPos(lv, worldX, worldY) == GetTileAtWorldPos(lv, worldX, 0.0)
    ensures GetTileAtWorldPos(lv, worldX, worldY) == GetTile(lv, Trunc(worldX / TileSize), 0)
  {
    assert Trunc(worldY / TileSize) == 0;
  }

  // ---------------------------------------------------------------------------
  // Area query
  // ---------------------------------------------------------------------------

  /** One reported collision: the tile's type, its world rectangle and its grid cell. */
  datatype TileCollision = TileCollision(kind: TileType, bounds: Rect, gridX: int, gridY: int)

  /** Cell (gx, gy) holds a non-empty tile whose square overlaps the box. */
  predicate Hit(lv: Level, box: Rect, gx: int, gy: int) {
    GetTile(lv, gx, gy) != Empty && Overlaps(box, CellRect(gx, gy))
  }

  /** A collision entry describes its cell faithfully and that cell is a hit. */
  predicate Reports(lv: Level, box: Rect, c: TileCollision) {
    && c.kind == GetTile(lv, c.gridX, c.gridY)
    && c.bounds == CellRect(c.gridX, c.gridY)
    && Hit(lv, box, c.gridX, c.gridY)
  }

  /** Row-major order on cells: by gridY, then by gridX. */
  predicate RowMajorBefore(a: TileCollision, b: TileCollision) {
    a.gridY < b.gridY || (a.gridY == b.gridY && a.gridX < b.gridX)
  }

  predicate RowMajor(cs: seq<TileCollision>) {
    forall i, j :: 0 <= i < j < |cs| ==> RowMajorBefore(cs[i], cs[j])
  }

  /** First and last column/row the query scans for a box edge: the truncated cell index, widened by one. */
  function WindowStart(edge: real): int {
    Trunc(edge / TileSize) - 1
  }

  function WindowEnd(edge: real): int {
    Trunc(edge / TileSize) + 1
  }

  /** The entry the query builds for cell (gx, gy). */
  function Entry(lv: Level, gx: int, gy: int): TileCollision {
    TileCollision(GetTile(lv, gx, gy), CellRect(gx, gy), gx, gy)
  }

  /** The inner loop: columns gx..endX of row gy. */
  function ScanRow(lv: Level, box: Rect, gy: int, gx: int, endX: int): seq<TileCollision>
    decreases endX - gx
  {
    if gx > endX then []
    else (if Hit(lv, box, gx, gy) then [Entry(lv, gx, gy)] else []) + ScanRow(lv, box, gy, gx + 1, endX)
  }

  /** The outer loop: rows gy..endY, each scanned over columns startX..endX. */
  function ScanRows(lv: Level, box: Rect, gy: int, endY: int, startX: int, endX: int): seq<TileCollision>
    decreases endY - gy
  {
    if gy > endY then []
    else ScanRow(lv, box, gy, startX, endX) + ScanRows(lv, box, gy + 1, endY, startX, endX)
  }

  /** Every entry of `cs` is the entry of a hit cell inside columns startX..endX, rows lo..hi. */
  predicate SoundIn(lv: Level, box: Rect, cs: seq<TileCollision>, startX: int, endX: int, lo: int, hi: int) {
    forall i :: 0 <= i < |cs| ==>
      && cs[i] == Entry(lv, cs[i].gridX, cs[i].gridY) && Hit(lv, box, cs[i].gridX, cs[i].gridY)
      && startX <= cs[i].gridX <= endX && lo <= cs[i].gridY <= hi
  }

  /** Every hit inside columns startX..endX, rows lo..hi, has an entry in `cs`. */
  predicate CompleteIn(lv: Level, box: Rect, cs: seq<TileCollision>, startX: int, endX: int, lo: int, hi: int) {
    forall x, y :: startX <= x <= endX && lo <= y <= hi && Hit(lv, box, x, y) ==> Listed(cs, x, y)
  }

  predicate Listed(cs: seq<TileCollision>, x: int, y: int) {
    exists i :: 0 <= i < |cs| && cs[i].gridX == x && cs[i].gridY == y
  }

  lemma {:induction false} ScanRowSound(lv: Level, box: Rect, gy: int, gx: int, endX: int)
    decreases endX - gx
    ensures SoundIn(lv, box, ScanRow(lv, box, gy, gx, endX), gx, endX, gy, gy)
  {
    if gx <= endX {
      var rest := ScanRow(lv, box, gy, gx + 1, endX);
      ScanRowSound(lv, box, gy, gx + 1, endX);
      if Hit(lv, box, gx, gy) {
        var r := [Entry(lv, gx, gy)] + rest;
        assert ScanRow(lv, box, gy, gx, endX) == r;
        assert forall i :: 0 < i < |r| ==> r[i] == rest[i - 1];
      } else {
        assert ScanRow(lv, box, gy, gx, endX) == rest;
      }
    }
  }

  lemma {:induction false} ScanRowOrdered(lv: Level, box: Rect, gy: int, gx: int, endX: int)
    decreases endX - gx
    ensures RowMajor(ScanRow(lv, box, gy, gx, endX))
  {
    if gx <= endX {
      var rest := ScanRow(lv, box, gy, gx + 1, endX);
      ScanRowOrdered(lv, box, gy, gx + 1, endX);
      ScanRowSound(lv, box, gy, gx + 1, endX);
      if Hit(lv, box, gx, gy) {
        var r := [Entry(lv, gx, gy)] + rest;
        assert ScanRow(lv, box, gy, gx, endX) == r;
        forall i, j | 0 <= i < j < |r| ensures RowMajorBefore(r[i], r[j]) {
          assert r[j] == rest[j - 1];
          if 0 < i {
            assert r[i] == rest[i - 1];
          }
        }
      } else {
        assert ScanRow(lv, box, gy, gx, endX) == rest;
      }
    }
  }

  lemma {:induction false} ScanRowComplete(lv: Level, box: Rect, gy: int, gx: int, endX: int)
    decreases endX - gx
    ensures CompleteIn(lv, box, ScanRow(lv, box, gy, gx, endX), gx, endX, gy, gy)
  {
    if gx <= endX {
      var rest := ScanRow(lv, box, gy, gx + 1, endX);
      ScanRowComplete(lv, box, gy, gx + 1, endX);
      var r := ScanRow(lv, box, gy, gx, endX);
      var here := if Hit(lv, box, gx, gy) then [Entry(lv, gx, gy)] else [];
      assert r == here + rest;
      forall x, y | gx <= x <= endX && gy <= y <= gy && Hit(lv, box, x, y)
        ensures Listed(r, x, y)
      {
        if x == gx {
          assert r[0] == Entry(lv, gx, gy);
        } else {
          assert Listed(rest, x, y);
          var k :| 0 <= k < |rest| && rest[k].gridX == x && rest[k].gridY == y;
          assert r[|here| + k] == rest[k];
        }
      }
    }
  }

  lemma {:induction false} ScanRowsSound(lv: Level, box: Rect, gy: int, endY: int, startX: int, endX: int)
    decreases endY - gy
    ensures SoundIn(lv, box, ScanRows(lv, box, gy, endY, startX, endX), startX, endX, gy, endY)
  {
    if gy <= endY {
      var row := ScanRow(lv, box, gy, startX, endX);
      var rest := ScanRows(lv, box, gy + 1, endY, startX, endX);
      ScanRowSound(lv, box, gy, startX, endX);
      ScanRowsSound(lv, box, gy + 1, endY, startX, endX);
      var r := row + rest;
      assert ScanRows(lv, box, gy, endY, startX, endX) == r;
      assert forall i :: 0 <= i < |row| ==> r[i] == row[i];
      assert forall i :: |row| <= i < |r| ==> r[i] == rest[i - |row|];
    }
  }

  lemma {:induction false} ScanRowsOrdered(lv: Level, box: Rect, gy: int, endY: int, startX: int, endX: int)
    decreases endY - gy
    ensures RowMajor(ScanRows(lv, box, gy, endY, startX, endX))
  {
    if gy <= endY {
      var row := ScanRow(lv, box, gy, startX, endX);
      var rest := ScanRows(lv, box, gy + 1, endY, startX, endX);
      ScanRowSound(lv, box, gy, startX, endX);
      ScanRowOrdered(lv, box, gy, startX, endX);
      ScanRowsSound(lv, box, gy + 1, endY, startX, endX);
      ScanRowsOrdered(lv, box, gy + 1, endY, startX, endX);
      var r := row + rest;
      assert ScanRows(lv, box, gy, endY, startX, endX) == r;
      forall i, j | 0 <= i < j < |r| ensures RowMajorBefore(r[i], r[j]) {
        if j < |row| {
          assert r[i] == row[i] && r[j] == row[j];
        } else if i < |row| {
          assert r[i] == row[i] && r[j] == rest[j - |row|];
        } else {
          assert r[i] == rest[i - |row|] && r[j] == rest[j - |row|];
        }
      }
    }
  }

  lemma {:induction false} ScanRowsComplete(lv: Level, box: Rect, gy: int, endY: int, startX: int, endX: int)
    decreases endY - gy
    ensures CompleteIn(lv, box, ScanRows(lv, box, gy, endY, startX, endX), startX, endX, gy, endY)
  {
    if gy <= endY {
      var row := ScanRow(lv, box, gy, startX, endX);
      var rest := ScanRows(lv, box, gy + 1, endY, startX, endX);
      ScanRowComplete(lv, box, gy, startX, endX);
      ScanRowsComplete(lv, box, gy + 1, endY, startX, endX);
      var r := row + rest;
      assert ScanRows(lv, box, gy, endY, startX, endX) == r;
      forall x, y | startX <= x <= endX && gy <= y <= endY && Hit(lv, box, x, y)
        ensures Listed(r, x, y)
      {
        if y == gy {
          assert Listed(row, x, y);
          var k :| 0 <= k < |row| && row[k].gridX == x && row[k].gridY == y;
          assert r[k] == row[k];
        } else {
          assert Listed(rest, x, y);
          var k :| 0 <= k < |rest| && rest[k].gridX == x && rest[k].gridY == y;
          assert r[|row| + k] == rest[k];
        }
      }
    }
  }

  /** Every cell that overlaps the box lies inside the widened, truncated window. */
  lemma WindowCoversOverlaps(box: Rect, gx: int, gy: int)
    requires Overlaps(box, CellRect(gx, gy))
    ensures WindowStart(box.x) <= gx <= WindowEnd(box.x + box.width)
    ensures WindowStart(box.y) <= gy <= WindowEnd(box.y + box.height)
  {
    assert box.x / TileSize < gx as real + 1.0;
    assert gx as real < (box.x + box.width) / TileSize;
    assert box.y / TileSize < gy as real + 1.0;
    assert gy as real < (box.y + box.height) / TileSize;
  }

  /**
   * `getCollidingTiles`: every non-empty tile whose square overlaps the box,
   * cells outside the grid included (they read as walls), in row-major order.
   */
  function CollidingTiles(lv: Level, box: Rect): (r: seq<TileCollision>)
    ensures forall i :: 0 <= i < |r| ==> Reports(lv, box, r[i])
    ensures forall x, y :: Hit(lv, box, x, y) ==> exists i :: 0 <= i < |r| && r[i].gridX == x && r[i].gridY == y
    ensures RowMajor(r)
  {
    var r := ScanRows(lv, box, WindowStart(box.y), WindowEnd(box.y + box.height),
                      WindowStart(box.x), WindowEnd(box.x + box.width));
    var startY, endY := WindowStart(box.y), WindowEnd(box.y + box.height);
    var startX, endX := WindowStart(box.x), WindowEnd(box.x + box.width);
    ScanRowsSound(lv, box, startY, endY, startX, endX);
    ScanRowsOrdered(lv, box, startY, endY, startX, endX);
    ScanRowsComplete(lv, box, startY, endY, startX, endX);
    forall x, y | Hit(lv, box, x, y)
      ensures exists i :: 0 <= i < |r| && r[i].gridX == x && r[i].gridY == y
    {
      assert Listed(r, x, y) by {
        WindowCoversOverlaps(box, x, y);
      }
    }
    r
  }

  /** Row-major order means no cell is reported twice. */
  lemma CollidingTilesDistinct(lv: Level, box: Rect, i: int, j: int)
    requires 0 <= i < j < |CollidingTiles(lv, box)|
    ensures (CollidingTiles(lv, box)[i].gridX, CollidingTiles(lv, box)[i].gridY)
            != (CollidingTiles(lv, box)[j].gridX, CollidingTiles(lv, box)[j].gridY)
  {
  }
}
