/**
 * The built-in levels. Each level is built by a fixed sequence of `setTile`
 * calls on a fresh level; here every loop of those calls is one `Stroke`, and
 * the facts about the finished levels are derived from which stroke last
 * painted each cell.
 */
module LevelFactory {
  import opened GameConfig
  import opened Geometry
  import opened Levels
  import opened Nullable

  // ---------------------------------------------------------------------------
  // Sequences of setTile calls
  // ---------------------------------------------------------------------------

  /** One `setTile(x, y, kind)` call. */
  datatype Placement = Place(x: int, y: int, kind: TileType)

  /** Applies the calls in order. */
  function Build(lv: Level, ps: seq<Placement>): Level
    decreases |ps|
  {
    if |ps| == 0 then lv
    else
      var last := ps[|ps| - 1];
      SetTile(Build(lv, ps[..|ps| - 1]), last.x, last.y, last.kind)
  }

  /** Building never moves the spawn or goal point out of the span of cell origins. */
  lemma {:induction false} BuildInWorld(lv: Level, ps: seq<Placement>)
    requires InWorld(lv.spawnPoint) && InWorld(lv.goalPosition)
    ensures InWorld(Build(lv, ps).spawnPoint) && InWorld(Build(lv, ps).goalPosition)
    decreases |ps|
  {
    if |ps| > 0 {
      BuildInWorld(lv, ps[..|ps| - 1]);
    }
  }

  /** The type written by the last call aimed at (x, y), if any. */
  function LastAt(ps: seq<Placement>, x: int, y: int): Option<TileType>
    decreases |ps|
  {
    if |ps| == 0 then None
    else if ps[|ps| - 1].x == x && ps[|ps| - 1].y == y then Some(ps[|ps| - 1].kind)
    else LastAt(ps[..|ps| - 1], x, y)
  }

  /** The origin of the cell of the last in-grid call writing `kind`, if any. */
  function LastPoint(ps: seq<Placement>, kind: TileType): Option<Vec2>
    decreases |ps|
  {
    if |ps| == 0 then None
    else
      var last := ps[|ps| - 1];
      if last.kind == kind && InGrid(last.x, last.y) then Some(CellOrigin(last.x, last.y))
      else LastPoint(ps[..|ps| - 1], kind)
  }

  /** An in-grid cell reads what the last call aimed at it wrote, or what it held before. */
  lemma {:induction false} BuildReads(lv: Level, ps: seq<Placement>, x: int, y: int)
    requires InGrid(x, y)
    ensures GetTile(Build(lv, ps), x, y) == LastAt(ps, x, y).GetOr(GetTile(lv, x, y))
    decreases |ps|
  {
    if |ps| > 0 {
      BuildReads(lv, ps[..|ps| - 1], x, y);
    }
  }

  /** The spawn and goal points come from the last in-grid spawn or goal call. */
  lemma {:induction false} BuildMarkers(lv: Level, ps: seq<Placement>)
    ensures Build(lv, ps).spawnPoint == LastPoint(ps, Spawn).GetOr(lv.spawnPoint)
    ensures Build(lv, ps).goalPosition == LastPoint(ps, Goal).GetOr(lv.goalPosition)
    ensures Build(lv, ps).name == lv.name
    decreases |ps|
  {
    if |ps| > 0 {
      BuildMarkers(lv, ps[..|ps| - 1]);
    }
  }

  lemma {:induction false} LastAtAppend(a: seq<Placement>, b: seq<Placement>, x: int, y: int)
    ensures LastAt(a + b, x, y) == if LastAt(b, x, y).Some? then LastAt(b, x, y) else LastAt(a, x, y)
    decreases |b|
  {
    if |b| > 0 {
      assert (a + b)[..|a + b| - 1] == a + b[..|b| - 1];
      LastAtAppend(a, b[..|b| - 1], x, y);
    } else {
      assert a + b == a;
    }
  }

  lemma {:induction false} LastPointAppend(a: seq<Placement>, b: seq<Placement>, kind: TileType)
    ensures LastPoint(a + b, kind) == if LastPoint(b, kind).Some? then LastPoint(b, kind) else LastPoint(a, kind)
    decreases |b|
  {
    if |b| > 0 {
      assert (a + b)[..|a + b| - 1] == a + b[..|b| - 1];
      LastPointAppend(a, b[..|b| - 1], kind);
    } else {
      assert a + b == a;
    }
  }

  // ---------------------------------------------------------------------------
  // Strokes: the loops of the level builders
  // ---------------------------------------------------------------------------

  datatype Axis = Horizontal | Vertical

  /**
   * `Cell` is a single call. `Sweep(Horizontal, lo, hi, lines, k)` is
   * `for (x in lo..hi) for each y in lines: setTile(x, y, k)`; a vertical
   * sweep runs y over lo..hi and x over the lines.
   */
  datatype Stroke =
    | Cell(x: int, y: int, kind: TileType)
    | Sweep(axis: Axis, lo: int, hi: int, lines: seq<int>, kind: TileType)

  function Mark(axis: Axis, v: int, line: int, kind: TileType): Placement {
    if axis == Horizontal then Place(v, line, kind) else Place(line, v, kind)
  }

  /** The inner loop body: one call per line, at loop position v. */
  function Across(axis: Axis, v: int, lines: seq<int>, kind: TileType): seq<Placement>
    decreases |lines|
  {
    if |lines| == 0 then []
    else Across(axis, v, lines[..|lines| - 1], kind) + [Mark(axis, v, lines[|lines| - 1], kind)]
  }

  function SweepCalls(axis: Axis, lo: int, hi: int, lines: seq<int>, kind: TileType): seq<Placement>
    decreases hi - lo
  {
    if lo > hi then [] else Across(axis, lo, lines, kind) + SweepCalls(axis, lo + 1, hi, lines, kind)
  }

  function Calls(s: Stroke): seq<Placement> {
    match s
    case Cell(x, y, kind) => [Place(x, y, kind)]
    case Sweep(axis, lo, hi, lines, kind) => SweepCalls(axis, lo, hi, lines, kind)
  }

  /** All calls of the first n strokes, in order. */
  function Paint(strokes: seq<Stroke>, n: nat): seq<Placement>
    requires n <= |strokes|
  {
    if n == 0 then [] else Paint(strokes, n - 1) + Calls(strokes[n - 1])
  }

  /** The stroke aims a call at (x, y). */
  predicate Covers(s: Stroke, x: int, y: int) {
    match s
    case Cell(cx, cy, _) => cx == x && cy == y
    case Sweep(Horizontal, lo, hi, lines, _) => lo <= x <= hi && y in lines
    case Sweep(Vertical, lo, hi, lines, _) => lo <= y <= hi && x in lines
  }

  /** The kind of the last of the first n strokes covering (x, y), if any. */
  function TopKind(strokes: seq<Stroke>, n: nat, x: int, y: int): Option<TileType>
    requires n <= |strokes|
  {
    if n == 0 then None
    else if Covers(strokes[n - 1], x, y) then Some(strokes[n - 1].kind)
    else TopKind(strokes, n - 1, x, y)
  }

  lemma {:induction false} LastAtAcross(axis: Axis, v: int, lines: seq<int>, kind: TileType, x: int, y: int)
    ensures LastAt(Across(axis, v, lines, kind), x, y) ==
            if (if axis == Horizontal then x == v && y in lines else y == v && x in lines) then Some(kind) else None
    decreases |lines|
  {
    if |lines| > 0 {
      var init := lines[..|lines| - 1];
      LastAtAcross(axis, v, init, kind, x, y);
      LastAtAppend(Across(axis, v, init, kind), [Mark(axis, v, lines[|lines| - 1], kind)], x, y);
      assert lines == init + [lines[|lines| - 1]];
    }
  }

  lemma {:induction false} LastAtSweep(axis: Axis, lo: int, hi: int, lines: seq<int>, kind: TileType, x: int, y: int)
    ensures LastAt(SweepCalls(axis, lo, hi, lines, kind), x, y) ==
            if Covers(Sweep(axis, lo, hi, lines, kind), x, y) then Some(kind) else None
    decreases hi - lo
  {
    if lo <= hi {
      LastAtSweep(axis, lo + 1, hi, lines, kind, x, y);
      LastAtAcross(axis, lo, lines, kind, x, y);
      LastAtAppend(Across(axis, lo, lines, kind), SweepCalls(axis, lo + 1, hi, lines, kind), x, y);
    }
  }

  /** The last call aimed at a cell comes from the last stroke covering it. */
  lemma {:induction false} LastAtPaint(strokes: seq<Stroke>, n: nat, x: int, y: int)
    requires n <= |strokes|
    ensures LastAt(Paint(strokes, n), x, y) == TopKind(strokes, n, x, y)
  {
    if n > 0 {
      var s := strokes[n - 1];
      LastAtPaint(strokes, n - 1, x, y);
      LastAtAppend(Paint(strokes, n - 1), Calls(s), x, y);
      LastAtCalls(s, x, y);
    }
  }

  /** A stroke's calls reach (x, y) exactly when the stroke covers it. */
  lemma LastAtCalls(s: Stroke, x: int, y: int)
    ensures LastAt(Calls(s), x, y) == if Covers(s, x, y) then Some(s.kind) else None
  {
    match s
    case Cell(_, _, _) =>
    case Sweep(axis, lo, hi, lines, kind) => LastAtSweep(axis, lo, hi, lines, kind, x, y);
  }

  /** Every call of a stroke writes the stroke's kind. */
  lemma {:induction false} CallsKind(s: Stroke)
    ensures forall i :: 0 <= i < |Calls(s)| ==> Calls(s)[i].kind == s.kind
  {
    match s
    case Cell(_, _, _) =>
    case Sweep(axis, lo, hi, lines, kind) => SweepCallsKind(axis, lo, hi, lines, kind);
  }

  lemma {:induction false} SweepCallsKind(axis: Axis, lo: int, hi: int, lines: seq<int>, kind: TileType)
    ensures forall i :: 0 <= i < |SweepCalls(axis, lo, hi, lines, kind)| ==> SweepCalls(axis, lo, hi, lines, kind)[i].kind == kind
    decreases hi - lo
  {
    if lo <= hi {
      AcrossKind(axis, lo, lines, kind);
      SweepCallsKind(axis, lo + 1, hi, lines, kind);
    }
  }

  lemma {:induction false} AcrossKind(axis: Axis, v: int, lines: seq<int>, kind: TileType)
    ensures forall i :: 0 <= i < |Across(axis, v, lines, kind)| ==> Across(axis, v, lines, kind)[i].kind == kind
    decreases |lines|
  {
    if |lines| > 0 {
      AcrossKind(axis, v, lines[..|lines| - 1], kind);
    }
  }

  /** Calls that never write `kind` leave no point for it. */
  lemma {:induction false} LastPointAbsent(ps: seq<Placement>, kind: TileType)
    requires forall i :: 0 <= i < |ps| ==> ps[i].kind != kind
    ensures LastPoint(ps, kind) == None
    decreases |ps|
  {
    if |ps| > 0 {
      LastPointAbsent(ps[..|ps| - 1], kind);
    }
  }

  /** The point a single stroke records for `kind`. */
  function StrokePoint(s: Stroke, kind: TileType): Option<Vec2> {
    if s.kind != kind then None else LastPoint(Calls(s), kind)
  }

  /** The point recorded for `kind` by the last of the first n strokes that records one. */
  function TopPoint(strokes: seq<Stroke>, n: nat, kind: TileType): Option<Vec2>
    requires n <= |strokes|
  {
    if n == 0 then None
    else if StrokePoint(strokes[n - 1], kind).Some? then StrokePoint(strokes[n - 1], kind)
    else TopPoint(strokes, n - 1, kind)
  }

  lemma {:induction false} LastPointPaint(strokes: seq<Stroke>, n: nat, kind: TileType)
    requires n <= |strokes|
    ensures LastPoint(Paint(strokes, n), kind) == TopPoint(strokes, n, kind)
  {
    if n > 0 {
      var s := strokes[n - 1];
      LastPointPaint(strokes, n - 1, kind);
      LastPointAppend(Paint(strokes, n - 1), Calls(s), kind);
      if s.kind != kind {
        CallsKind(s);
        LastPointAbsent(Calls(s), kind);
      }
    }
  }

  /** A level painted on a fresh grid. */
  function Painted(name: string, strokes: seq<Stroke>): Level {
    Build(NewLevel(name), Paint(strokes, |strokes|))
  }

  /** Inside the grid, a painted level reads the kind of the last stroke covering the cell, else empty. */
  lemma PaintedReads(name: string, strokes: seq<Stroke>, x: int, y: int)
    requires InGrid(x, y)
    ensures GetTile(Painted(name, strokes), x, y) == TopKind(strokes, |strokes|, x, y).GetOr(Empty)
  {
    BuildReads(NewLevel(name), Paint(strokes, |strokes|), x, y);
    LastAtPaint(strokes, |strokes|, x, y);
  }

  /** A painted level's spawn and goal come from the last strokes recording them, else the defaults. */
  lemma PaintedMarkers(name: string, strokes: seq<Stroke>)
    ensures Painted(name, strokes).spawnPoint == TopPoint(strokes, |strokes|, Spawn).GetOr(Vec2(64.0, 64.0))
    ensures Painted(name, strokes).goalPosition == TopPoint(strokes, |strokes|, Goal).GetOr(Vec2(928.0, 672.0))
    ensures Painted(name, strokes).name == name
  {
    BuildMarkers(NewLevel(name), Paint(strokes, |strokes|));
    LastPointPaint(strokes, |strokes|, Spawn);
    LastPointPaint(strokes, |strokes|, Goal);
  }

  /** Whatever is painted, a painted level's spawn and goal lie in the span of cell origins. */
  lemma PaintedInWorld(name: string, strokes: seq<Stroke>)
    ensures InWorld(Painted(name, strokes).spawnPoint) && InWorld(Painted(name, strokes).goalPosition)
  {
    BuildInWorld(NewLevel(name), Paint(strokes, |strokes|));
  }

  // ---------------------------------------------------------------------------
  // The three levels
  // ---------------------------------------------------------------------------

  /** The two boundary loops every level starts with: floor and ceiling, then the side walls. */
  const FloorAndCeiling: Stroke := Sweep(Horizontal, 0, GridWidth - 1, [0, GridHeight - 1], Solid)
  const SideWalls: Stroke := Sweep(Vertical, 0, GridHeight - 1, [0, GridWidth - 1], Solid)

  /** Cells on the outer ring of the grid. */
  predicate OnBorder(x: int, y: int) {
    InGrid(x, y) && (x == 0 || x == GridWidth - 1 || y == 0 || y == GridHeight - 1)
  }

  function Level1Strokes(): seq<Stroke> {
    [ FloorAndCeiling, SideWalls,
      Cell(3, 1, Spawn),
      Sweep(Horizontal, 8, 12, [4], Solid),
      Sweep(Horizontal, 15, 19, [8], Solid),
      Sweep(Horizontal, 22, 26, [12], Solid),
      Sweep(Vertical, 1, 6, [14], Solid),
      Cell(28, 20, Goal),
      Sweep(Horizontal, 26, 29, [19], Solid) ]
  }

  function Level2Strokes(): seq<Stroke> {
    [ FloorAndCeiling, SideWalls,
      Cell(3, 1, Spawn),
      Sweep(Horizontal, 5, 10, [3], Solid),
      Sweep(Horizontal, 11, 14, [1], Spike),
      Sweep(Horizontal, 15, 20, [3], Solid),
      Sweep(Horizontal, 10, 18, [10], Solid),
      Sweep(Horizontal, 12, 16, [GridHeight - 2], Spike),
      Cell(25, 10, Goal),
      Sweep(Horizontal, 23, 27, [9], Solid) ]
  }

  function Level3Strokes(): seq<Stroke> {
    [ FloorAndCeiling, SideWalls,
      Cell(2, 1, Spawn),
      Sweep(Vertical, 5, 15, [10, 20], Solid),
      Sweep(Horizontal, 5, 9, [8], Solid),
      Sweep(Horizontal, 11, 19, [12], Solid),
      Sweep(Horizontal, 21, 28, [8], Solid),
      Sweep(Horizontal, 13, 17, [7], Spike),
      Cell(28, 20, Goal),
      Sweep(Horizontal, 26, 29, [19], Solid) ]
  }

  /** `createLevel1`: "Awakening", starting at cell (3, 1) with the goal at cell (28, 20). */
  function CreateLevel1(): (r: Level)
    ensures r.name == "Level 1 - Awakening"
    ensures r.spawnPoint == Vec2(96.0, 32.0)
    ensures r.goalPosition == Vec2(896.0, 640.0)
  {
    PaintedMarkers("Level 1 - Awakening", Level1Strokes());
    Level1Points();
    Painted("Level 1 - Awakening", Level1Strokes())
  }

  /** `createLevel2`: "Danger Zone", starting at cell (3, 1) with the goal at cell (25, 10). */
  function CreateLevel2(): (r: Level)
    ensures r.name == "Level 2 - Danger Zone"
    ensures r.spawnPoint == Vec2(96.0, 32.0)
    ensures r.goalPosition == Vec2(800.0, 320.0)
  {
    PaintedMarkers("Level 2 - Danger Zone", Level2Strokes());
    Level2Points();
    Painted("Level 2 - Danger Zone", Level2Strokes())
  }

  /** `createLevel3`: "Zero G", starting at cell (2, 1) with the goal at cell (28, 20). */
  function CreateLevel3(): (r: Level)
    ensures r.name == "Level 3 - Zero G"
    ensures r.spawnPoint == Vec2(64.0, 32.0)
    ensures r.goalPosition == Vec2(896.0, 640.0)
  {
    PaintedMarkers("Level 3 - Zero G", Level3Strokes());
    Level3Points();
    Painted("Level 3 - Zero G", Level3Strokes())
  }

  function GetTotalLevels(): int {
    3
  }

  /** The name of built-in level `n`. */
  function LevelName(n: int): string
    requires 1 <= n <= GetTotalLevels()
  {
    if n == 1 then "Level 1 - Awakening"
    else if n == 2 then "Level 2 - Danger Zone"
    else "Level 3 - Zero G"
  }

  /** The strokes of built-in level `n`. */
  function LevelStrokes(n: int): seq<Stroke>
    requires 1 <= n <= GetTotalLevels()
  {
    if n == 1 then Level1Strokes()
    else if n == 2 then Level2Strokes()
    else Level3Strokes()
  }

  /** Built-in level `n`, painted from its strokes. */
  function BuiltIn(n: int): Level
    requires 1 <= n <= GetTotalLevels()
  {
    Painted(LevelName(n), LevelStrokes(n))
  }

  /** `getLevel`: one case per built-in level; any other number has no level. */
  function GetLevel(levelNumber: int): Option<Level> {
    if levelNumber == 1 then Some(BuiltIn(1))
    else if levelNumber == 2 then Some(BuiltIn(2))
    else if levelNumber == 3 then Some(BuiltIn(3))
    else None
  }

  /** Level numbers 1, 2 and 3 give the levels `createLevel1`..`createLevel3` build. */
  lemma GetLevelCreates()
    ensures GetLevel(1) == Some(CreateLevel1())
    ensures GetLevel(2) == Some(CreateLevel2())
    ensures GetLevel(3) == Some(CreateLevel3())
  {
  }

  /**
   * The cases of `getLevel` are exactly the numbers 1..getTotalLevels(), and
   * each one is the built-in level of that number.
   */
  lemma GetLevelDefinedExactly(n: int)
    ensures GetLevel(n).Some? <==> 1 <= n <= GetTotalLevels()
    ensures 1 <= n <= GetTotalLevels() ==> GetLevel(n) == Some(BuiltIn(n))
  {
  }

  /** The last stroke covering each cell of level 1, as far as the level facts need it. */
  lemma Level1TopKinds(x: int, y: int)
    requires InGrid(x, y)
    ensures OnBorder(x, y) ==> TopKind(Level1Strokes(), 9, x, y) == Some(Solid)
    ensures TopKind(Level1Strokes(), 9, x, y) == Some(Spawn) <==> x == 3 && y == 1
    ensures TopKind(Level1Strokes(), 9, x, y) == Some(Goal) <==> x == 28 && y == 20
    ensures TopKind(Level1Strokes(), 9, x, y) != Some(Spike)
  {
    var S := Level1Strokes();
    // Naming each prefix's TopKind term lets the verifier unfold the recursion one stroke at a time.
    var unfolded := [TopKind(S, 0, x, y), TopKind(S, 1, x, y), TopKind(S, 2, x, y),
                    TopKind(S, 3, x, y), TopKind(S, 4, x, y), TopKind(S, 5, x, y), TopKind(S, 6, x, y),
                    TopKind(S, 7, x, y), TopKind(S, 8, x, y), TopKind(S, 9, x, y)];
  }

  /**
   * Level 1: the border is solid (no later call overwrites it), there is
   * exactly one spawn cell and one goal cell, and these are its spikes.
   */
  lemma Level1Layout(x: int, y: int)
    requires InGrid(x, y)
    ensures OnBorder(x, y) ==> GetTile(CreateLevel1(), x, y) == Solid
    ensures GetTile(CreateLevel1(), x, y) == Spawn <==> x == 3 && y == 1
    ensures GetTile(CreateLevel1(), x, y) == Goal <==> x == 28 && y == 20
    ensures GetTile(CreateLevel1(), x, y) != Spike
  {
    PaintedReads("Level 1 - Awakening", Level1Strokes(), x, y);
    Level1TopKinds(x, y);
  }

  /** The last stroke covering each cell of level 2, as far as the level facts need it. */
  lemma Level2TopKinds(x: int, y: int)
    requires InGrid(x, y)
    ensures OnBorder(x, y) ==> TopKind(Level2Strokes(), 10, x, y) == Some(Solid)
    ensures TopKind(Level2Strokes(), 10, x, y) == Some(Spawn) <==> x == 3 && y == 1
    ensures TopKind(Level2Strokes(), 10, x, y) == Some(Goal) <==> x == 25 && y == 10
    ensures TopKind(Level2Strokes(), 10, x, y) == Some(Spike) <==> (y == 1 && 11 <= x <= 14) || (y == GridHeight - 2 && 12 <= x <= 16)
  {
    var S := Level2Strokes();
    // Naming each prefix's TopKind term lets the verifier unfold the recursion one stroke at a time.
    var unfolded := [TopKind(S, 0, x, y), TopKind(S, 1, x, y), TopKind(S, 2, x, y),
                    TopKind(S, 3, x, y), TopKind(S, 4, x, y), TopKind(S, 5, x, y), TopKind(S, 6, x, y),
                    TopKind(S, 7, x, y), TopKind(S, 8, x, y), TopKind(S, 9, x, y),
                    TopKind(S, 10, x, y)];
  }

  /**
   * Level 2: the border is solid (no later call overwrites it), there is
   * exactly one spawn cell and one goal cell, and these are its spikes.
   */
  lemma Level2Layout(x: int, y: int)
    requires InGrid(x, y)
    ensures OnBorder(x, y) ==> GetTile(CreateLevel2(), x, y) == Solid
    ensures GetTile(CreateLevel2(), x, y) == Spawn <==> x == 3 && y == 1
    ensures GetTile(CreateLevel2(), x, y) == Goal <==> x == 25 && y == 10
    ensures GetTile(CreateLevel2(), x, y) == Spike <==> (y == 1 && 11 <= x <= 14) || (y == GridHeight - 2 && 12 <= x <= 16)
  {
    PaintedReads("Level 2 - Danger Zone", Level2Strokes(), x, y);
    Level2TopKinds(x, y);
  }

  /** The last stroke covering each cell of level 3, as far as the level facts need it. */
  lemma Level3TopKinds(x: int, y: int)
    requires InGrid(x, y)
    ensures OnBorder(x, y) ==> TopKind(Level3Strokes(), 10, x, y) == Some(Solid)
    ensures TopKind(Level3Strokes(), 10, x, y) == Some(Spawn) <==> x == 2 && y == 1
    ensures TopKind(Level3Strokes(), 10, x, y) == Some(Goal) <==> x == 28 && y == 20
    ensures TopKind(Level3Strokes(), 10, x, y) == Some(Spike) <==> y == 7 && 13 <= x <= 17
  {
    var S := Level3Strokes();
    // Naming each prefix's TopKind term lets the verifier unfold the recursion one stroke at a time.
    var unfolded := [TopKind(S, 0, x, y), TopKind(S, 1, x, y), TopKind(S, 2, x, y),
                    TopKind(S, 3, x, y), TopKind(S, 4, x, y), TopKind(S, 5, x, y), TopKind(S, 6, x, y),
                    TopKind(S, 7, x, y), TopKind(S, 8, x, y), TopKind(S, 9, x, y),
                    TopKind(S, 10, x, y)];
  }

  /**
   * Level 3: the border is solid (no later call overwrites it), there is
   * exactly one spawn cell and one goal cell, and these are its spikes.
   */
  lemma Level3Layout(x: int, y: int)
    requires InGrid(x, y)
    ensures OnBorder(x, y) ==> GetTile(CreateLevel3(), x, y) == Solid
    ensures GetTile(CreateLevel3(), x, y) == Spawn <==> x == 2 && y == 1
    ensures GetTile(CreateLevel3(), x, y) == Goal <==> x == 28 && y == 20
    ensures GetTile(CreateLevel3(), x, y) == Spike <==> y == 7 && 13 <= x <= 17
  {
    PaintedReads("Level 3 - Zero G", Level3Strokes(), x, y);
    Level3TopKinds(x, y);
  }

  /** The spawn and goal cells of level 1: the one call of each kind, since no sweep writes either. */
  lemma Level1Points()
    ensures TopPoint(Level1Strokes(), 9, Spawn) == Some(Vec2(96.0, 32.0))
    ensures TopPoint(Level1Strokes(), 9, Goal) == Some(Vec2(896.0, 640.0))
  {
  }

  /** The spawn and goal cells of level 2: the one call of each kind, since no sweep writes either. */
  lemma Level2Points()
    ensures TopPoint(Level2Strokes(), 10, Spawn) == Some(Vec2(96.0, 32.0))
    ensures TopPoint(Level2Strokes(), 10, Goal) == Some(Vec2(800.0, 320.0))
  {
  }

  /** The spawn and goal cells of level 3: the one call of each kind, since no sweep writes either. */
  lemma Level3Points()
    ensures TopPoint(Level3Strokes(), 10, Spawn) == Some(Vec2(64.0, 32.0))
    ensures TopPoint(Level3Strokes(), 10, Goal) == Some(Vec2(896.0, 640.0))
  {
  }

}
