/**
 * Gravity: the four directions with their unit vectors and display angles,
 * and the controller that switches between them behind a short cooldown.
 */
module Physics {
  import opened GameConfig
  import opened Geometry

  datatype GravityDirection = Down | Up | Left | Right

  /** Unit vector of each direction (y grows upward). */
  function Vector(d: GravityDirection): Vec2 {
    match d
    case Down => Vec2(0.0, -1.0)
    case Up => Vec2(0.0, 1.0)
    case Left => Vec2(-1.0, 0.0)
    case Right => Vec2(1.0, 0.0)
  }

  /** Display rotation of each direction, in degrees. */
  function Rotation(d: GravityDirection): real {
    match d
    case Down => 0.0
    case Up => 180.0
    case Left => 90.0
    case Right => -90.0
  }

  /** The direction pointing the other way. */
  function Opposite(d: GravityDirection): (o: GravityDirection)
    ensures Vector(o) == Vec2(-Vector(d).x, -Vector(d).y)
  {
    match d
    case Down => Up
    case Up => Down
    case Left => Right
    case Right => Left
  }

  /** Minimum time between two accepted flips. */
  const FlipCooldown: real := 0.2

  datatype Controller = Controller(currentDirection: GravityDirection, isFlipping: bool, flipTimer: real)

  /** A new controller: gravity down, no flip in progress. */
  function NewController(): (r: Controller)
    ensures r.currentDirection == Down && !r.isFlipping && r.flipTimer == 0.0
    ensures Inv(r)
    ensures GravityForce(r) == Vec2(0.0, -800.0)
  {
    Controller(Down, false, 0.0)
  }

  /** While a flip is in progress its timer is positive and at most the cooldown. */
  predicate Inv(c: Controller) {
    c.isFlipping ==> 0.0 < c.flipTimer <= FlipCooldown
  }

  /**
   * `flipGravity`: refused (false, nothing changes) during a flip or when the
   * direction is already current; otherwise switches direction and starts the
   * cooldown.
   */
  function FlipGravity(c: Controller, d: GravityDirection): (r: (bool, Controller))
    ensures !r.0 <==> c.isFlipping || d == c.currentDirection
    ensures !r.0 ==> r.1 == c
    ensures r.0 ==> r.1.currentDirection == d && r.1.isFlipping && r.1.flipTimer == 0.2
    ensures Inv(c) ==> Inv(r.1)
  {
    if c.isFlipping || d == c.currentDirection then (false, c)
    else (true, Controller(d, true, FlipCooldown))
  }

  /** `update`: counts the cooldown down and ends the flip once it reaches zero. */
  function Update(c: Controller, dt: real): (r: Controller)
    ensures !c.isFlipping ==> r == c
    ensures c.isFlipping ==> r.flipTimer == c.flipTimer - dt && (r.isFlipping <==> c.flipTimer - dt > 0.0)
    ensures r.currentDirection == c.currentDirection
    ensures 0.0 <= dt && Inv(c) ==> Inv(r)
  {
    if c.isFlipping then
      var t := c.flipTimer - dt;
      Controller(c.currentDirection, t > 0.0, t)
    else c
  }

  /** `getGravityForce`: the current direction scaled by the gravity constant. */
  function GravityForce(c: Controller): (g: Vec2)
    ensures g == Vec2(Gravity * Vector(c.currentDirection).x, Gravity * Vector(c.currentDirection).y)
    ensures (g.x == 0.0 && (g.y == 800.0 || g.y == -800.0)) || (g.y == 0.0 && (g.x == 800.0 || g.x == -800.0))
  {
    var v := Vector(c.currentDirection);
    Vec2(v.x * Gravity, v.y * Gravity)
  }

  /** `reset`: back to gravity down with no flip in progress. */
  function Reset(c: Controller): (r: Controller)
    ensures r.currentDirection == Down && !r.isFlipping && r.flipTimer == 0.0
    ensures Inv(r)
  {
    NewController()
  }

  /** The direction table: vectors, angles, and that no two directions share a vector. */
  lemma DirectionTable()
    ensures Vector(Down) == Vec2(0.0, -1.0) && Rotation(Down) == 0.0
    ensures Vector(Up) == Vec2(0.0, 1.0) && Rotation(Up) == 180.0
    ensures Vector(Left) == Vec2(-1.0, 0.0) && Rotation(Left) == 90.0
    ensures Vector(Right) == Vec2(1.0, 0.0) && Rotation(Right) == -90.0
    ensures forall d, e :: Vector(d) == Vector(e) ==> d == e
  {
  }

  /** The force does not depend on whether a flip is in progress. */
  lemma ForceIgnoresFlipping(c: Controller, flipping: bool, timer: real)
    ensures GravityForce(c.(isFlipping := flipping, flipTimer := timer)) == GravityForce(c)
  {
  }

  /** Reset forgets everything about the state it started from, so doing it twice is doing it once. */
  lemma ResetIdempotent(a: Controller, b: Controller)
    ensures Reset(a) == Reset(b) == NewController()
    ensures Reset(Reset(a)) == Reset(a)
  {
  }

  /** Total time of a sequence of ticks. */
  function Sum(dts: seq<real>): real {
    if |dts| == 0 then 0.0 else dts[0] + Sum(dts[1..])
  }

  predicate NonNegative(dts: seq<real>) {
    forall i :: 0 <= i < |dts| ==> 0.0 <= dts[i]
  }

  /** The controller after one update per tick. */
  function UpdateAll(c: Controller, dts: seq<real>): Controller
    decreases |dts|
  {
    if |dts| == 0 then c else UpdateAll(Update(c, dts[0]), dts[1..])
  }

  lemma {:induction false} SumNonNegative(dts: seq<real>)
    requires NonNegative(dts)
    ensures 0.0 <= Sum(dts)
    decreases |dts|
  {
    if |dts| > 0 {
      SumNonNegative(dts[1..]);
    }
  }

  /** Once no flip is in progress, updates change nothing. */
  lemma {:induction false} UpdateAllStable(c: Controller, dts: seq<real>)
    requires !c.isFlipping
    ensures UpdateAll(c, dts) == c
    decreases |dts|
  {
    if |dts| > 0 {
      UpdateAllStable(Update(c, dts[0]), dts[1..]);
    }
  }

  /**
   * With non-negative ticks, a flip in progress is still in progress exactly
   * when the ticks add up to less than the remaining timer, and then the timer
   * has gone down by that total.
   */
  lemma {:induction false} UpdateAllCountsDown(c: Controller, dts: seq<real>)
    requires c.isFlipping && 0.0 < c.flipTimer && NonNegative(dts)
    ensures UpdateAll(c, dts).isFlipping <==> Sum(dts) < c.flipTimer
    ensures UpdateAll(c, dts).isFlipping ==> UpdateAll(c, dts).flipTimer == c.flipTimer - Sum(dts)
    ensures UpdateAll(c, dts).currentDirection == c.currentDirection
    decreases |dts|
  {
    if |dts| > 0 {
      var c' := Update(c, dts[0]);
      assert UpdateAll(c, dts) == UpdateAll(c', dts[1..]);
      assert Sum(dts) == dts[0] + Sum(dts[1..]);
      assert NonNegative(dts[1..]) by {
        forall i | 0 <= i < |dts[1..]| ensures 0.0 <= dts[1..][i] {
          assert dts[1..][i] == dts[i + 1];
        }
      }
      if c'.isFlipping {
        UpdateAllCountsDown(c', dts[1..]);
      } else {
        UpdateAllStable(c', dts[1..]);
        SumNonNegative(dts[1..]);
      }
    }
  }

  /**
   * The cooldown: after an accepted flip, while the ticks since then add up to
   * less than 0.2 every further flip is refused; once they reach 0.2 the flip
   * has ended and any other direction is accepted.
   */
  lemma FlipCooldownHolds(c: Controller, d: GravityDirection, dts: seq<real>, e: GravityDirection)
    requires FlipGravity(c, d).0 && NonNegative(dts)
    ensures Sum(dts) < 0.2 ==> !FlipGravity(UpdateAll(FlipGravity(c, d).1, dts), e).0
    ensures 0.2 <= Sum(dts) && e != d ==> FlipGravity(UpdateAll(FlipGravity(c, d).1, dts), e).0
  {
    UpdateAllCountsDown(FlipGravity(c, d).1, dts);
  }
}
