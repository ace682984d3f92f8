/**
 * Swipe input: a single-finger touch state machine that turns a long enough
 * swipe into a requested gravity direction, and the two ways of classifying a
 * swipe into a direction.
 */
module Input {
  import opened Geometry
  import opened Nullable
  import opened Physics

  /** Shortest swipe that counts, in screen pixels. */
  const MinSwipeDistance: real := 50.0

  /** Half-width of each direction's sector, in degrees. */
  const DiagonalThreshold: real := 45.0

  datatype SwipeState = SwipeState(touchStart: Vec2, isTouching: bool)

  /** The handler's starting state: no touch in progress, start point at the origin. */
  function NewSwipeState(): (st: SwipeState)
    ensures !st.isTouching && st.touchStart == Zero
  {
    SwipeState(Zero, false)
  }

  /** The screen point of a touch event. */
  function ScreenPoint(screenX: int, screenY: int): Vec2 {
    Vec2(screenX as real, screenY as real)
  }

  /** `touchDown`: only the first finger starts a swipe; the event is always consumed. */
  function TouchDown(st: SwipeState, screenX: int, screenY: int, pointer: int, button: int): (r: (bool, SwipeState))
    ensures r.0
    ensures pointer == 0 ==> r.1.isTouching && r.1.touchStart == ScreenPoint(screenX, screenY)
    ensures pointer != 0 ==> r.1 == st
  {
    if pointer == 0 then (true, SwipeState(ScreenPoint(screenX, screenY), true))
    else (true, st)
  }

  /** `touchDragged`: consumed and otherwise ignored. */
  function TouchDragged(st: SwipeState, screenX: int, screenY: int, pointer: int): (r: (bool, SwipeState))
    ensures r.0 && r.1 == st
  {
    (true, st)
  }

  /** The swipe vector from the recorded start to an end point. */
  function Swipe(st: SwipeState, screenX: int, screenY: int): Vec2 {
    var e := ScreenPoint(screenX, screenY);
    Vec2(e.x - st.touchStart.x, e.y - st.touchStart.y)
  }

  /** `swipe.len() >= 50`, compared on squares so that no square root is needed. */
  predicate LongEnough(v: Vec2) {
    v.x * v.x + v.y * v.y >= MinSwipeDistance * MinSwipeDistance
  }

  /** Comparing squares is comparing lengths: for the true length `len` of the vector. */
  lemma LongEnoughIsLength(v: Vec2, len: real)
    requires 0.0 <= len && len * len == v.x * v.x + v.y * v.y
    ensures LongEnough(v) <==> len >= MinSwipeDistance
  {
    if len >= 50.0 {
      assert len * len >= 50.0 * len;
      assert 50.0 * len >= 2500.0;
    } else {
      assert len * len <= 50.0 * len;
      assert 50.0 * len < 2500.0;
    }
  }

  /**
   * `touchUp`: for the first finger of a swipe in progress, ends the swipe and
   * requests the classified direction when the swipe is long enough. The angle
   * of the swipe vector is supplied by the caller. Anything else changes
   * nothing and requests nothing. The event is always consumed.
   */
  function TouchUp(st: SwipeState, screenX: int, screenY: int, pointer: int, button: int, angle: real)
    : (r: (bool, SwipeState, Option<GravityDirection>))
    ensures r.0
    ensures !(pointer == 0 && st.isTouching) ==> r.1 == st && r.2 == None
    ensures pointer == 0 && st.isTouching ==> r.1 == st.(isTouching := false)
    ensures r.2.Some? <==> pointer == 0 && st.isTouching && LongEnough(Swipe(st, screenX, screenY))
    ensures r.2.Some? ==> r.2.value == DetectSwipeDirection(angle)
  {
    if pointer == 0 && st.isTouching then
      var st' := st.(isTouching := false);
      if LongEnough(Swipe(st, screenX, screenY)) then (true, st', Some(DetectSwipeDirection(angle)))
      else (true, st', None)
    else (true, st, None)
  }

  /** An angle in (-360, 0) lifted into [0, 360); others left alone. */
  function Normalize(angle: real): real {
    if angle < 0.0 then angle + 360.0 else angle
  }

  /**
   * `detectSwipeDirection` on a normalised angle: right around 0, the closed
   * sector [45, 135] down, (135, 225] left, and up for the rest. It always
   * gives a direction.
   */
  function DetectSwipeDirection(angle: real): (d: GravityDirection)
    ensures var n := Normalize(angle);
            && (d == Right <==> n < DiagonalThreshold || n >= 360.0 - DiagonalThreshold)
            && (d == Down <==> DiagonalThreshold <= n <= 180.0 - DiagonalThreshold)
            && (d == Left <==> 180.0 - DiagonalThreshold < n <= 180.0 + DiagonalThreshold)
            && (d == Up <==> 180.0 + DiagonalThreshold < n < 360.0 - DiagonalThreshold)
  {
    var n := Normalize(angle);
    if n < DiagonalThreshold || n >= 360.0 - DiagonalThreshold then Right
    else if DiagonalThreshold <= n <= 180.0 - DiagonalThreshold then Down
    else if 180.0 - DiagonalThreshold <= n <= 180.0 + DiagonalThreshold then Left
    else Up
  }

  /** Normalising lands every angle of one turn either side of zero in [0, 360). */
  lemma NormalizeRange(angle: real)
    requires -360.0 <= angle < 360.0
    ensures 0.0 <= Normalize(angle) < 360.0
    ensures Normalize(angle) == angle || Normalize(angle) == angle + 360.0
  {
  }

  /** A negative angle and the same angle one turn on are classified alike. */
  lemma DetectIsPeriodic(angle: real)
    requires -360.0 <= angle < 0.0
    ensures DetectSwipeDirection(angle) == DetectSwipeDirection(angle + 360.0)
  {
  }

  /** The angle half a turn on, within [0, 360). */
  function HalfTurn(n: real): real {
    if n + 180.0 >= 360.0 then n - 180.0 else n + 180.0
  }

  /**
   * Swiping the reverse way asks for the opposite gravity, except exactly on
   * the four diagonals, where the closed and half-open sector ends do not
   * line up.
   */
  lemma ReverseSwipeOpposite(n: real)
    requires 0.0 <= n < 360.0
    requires n != 45.0 && n != 135.0 && n != 225.0 && n != 315.0
    ensures DetectSwipeDirection(HalfTurn(n)) == Opposite(DetectSwipeDirection(n))
  {
  }

  /** Where the diagonals go: both ends of the down sector are down. */
  lemma Diagonals()
    ensures DetectSwipeDirection(45.0) == Down && DetectSwipeDirection(135.0) == Down
    ensures DetectSwipeDirection(225.0) == Left && DetectSwipeDirection(315.0) == Right
    ensures DetectSwipeDirection(225.0) != Opposite(DetectSwipeDirection(45.0))
  {
  }

  function Abs(v: real): (a: real)
    ensures 0.0 <= a && (a == v || a == -v)
  {
    if v < 0.0 then -v else v
  }

  /**
   * `detectSwipeDirectionIntuitive`: the dominant axis decides, its sign the
   * way; ties, the zero vector included, count as vertical.
   */
  function DetectSwipeDirectionIntuitive(swipe: Vec2): (d: GravityDirection)
    ensures d == Right <==> Abs(swipe.x) > Abs(swipe.y) && swipe.x > 0.0
    ensures d == Left <==> Abs(swipe.x) > Abs(swipe.y) && swipe.x <= 0.0
    ensures d == Down <==> Abs(swipe.x) <= Abs(swipe.y) && swipe.y > 0.0
    ensures d == Up <==> Abs(swipe.x) <= Abs(swipe.y) && swipe.y <= 0.0
  {
    if Abs(swipe.x) > Abs(swipe.y) then
      if swipe.x > 0.0 then Right else Left
    else
      if swipe.y > 0.0 then Down else Up
  }

  /** The reverse of any non-zero swipe asks for the opposite gravity; the zero swipe asks for up either way. */
  lemma IntuitiveReverseOpposite(swipe: Vec2)
    ensures swipe != Zero ==>
      DetectSwipeDirectionIntuitive(Vec2(-swipe.x, -swipe.y)) == Opposite(DetectSwipeDirectionIntuitive(swipe))
    ensures DetectSwipeDirectionIntuitive(Zero) == Up
  {
  }

  /** Only the direction of a swipe matters, not its length. */
  lemma IntuitiveScaleInvariant(swipe: Vec2, k: real)
    requires 0.0 < k
    ensures DetectSwipeDirectionIntuitive(Vec2(k * swipe.x, k * swipe.y)) == DetectSwipeDirectionIntuitive(swipe)
  {
    var scaled := Vec2(k * swipe.x, k * swipe.y);
    assert Abs(scaled.x) == k * Abs(swipe.x);
    assert Abs(scaled.y) == k * Abs(swipe.y);
    assert k * Abs(swipe.x) - k * Abs(swipe.y) == k * (Abs(swipe.x) - Abs(swipe.y));
    assert Abs(scaled.x) > Abs(scaled.y) <==> Abs(swipe.x) > Abs(swipe.y);
    assert scaled.x > 0.0 <==> swipe.x > 0.0;
    assert scaled.y > 0.0 <==> swipe.y > 0.0;
  }

  /** Along the four axes the two classifiers agree. */
  lemma ClassifiersAgreeOnAxes(len: real)
    requires 0.0 < len
    ensures DetectSwipeDirection(0.0) == DetectSwipeDirectionIntuitive(Vec2(len, 0.0)) == Right
    ensures DetectSwipeDirection(90.0) == DetectSwipeDirectionIntuitive(Vec2(0.0, len)) == Down
    ensures DetectSwipeDirection(180.0) == DetectSwipeDirectionIntuitive(Vec2(-len, 0.0)) == Left
    ensures DetectSwipeDirection(270.0) == DetectSwipeDirectionIntuitive(Vec2(0.0, -len)) == Up
  {
  }

  /**
   * One swipe, one request: a first-finger press and release far enough apart
   * requests the classified direction once; a second release without a new
   * press requests nothing.
   */
  lemma SwipeFiresOnce(st: SwipeState, x0: int, y0: int, x1: int, y1: int, button: int, angle: real)
    requires (x1 - x0) * (x1 - x0) + (y1 - y0) * (y1 - y0) >= 2500
    ensures var down := TouchDown(st, x0, y0, 0, button).1;
            var up := TouchUp(down, x1, y1, 0, button, angle);
            && up.2 == Some(DetectSwipeDirection(angle))
            && !up.1.isTouching
            && TouchUp(up.1, x1, y1, 0, button, angle).2 == None
  {
    var down := TouchDown(st, x0, y0, 0, button).1;
    var v := Swipe(down, x1, y1);
    assert v.x == (x1 - x0) as real && v.y == (y1 - y0) as real;
    assert v.x * v.x == ((x1 - x0) * (x1 - x0)) as real;
    assert v.y * v.y == ((y1 - y0) * (y1 - y0)) as real;
  }

  /** A short swipe ends the touch without a request. */
  lemma ShortSwipeIgnored(st: SwipeState, x1: int, y1: int, button: int, angle: real)
    requires st.isTouching && !LongEnough(Swipe(st, x1, y1))
    ensures TouchUp(st, x1, y1, 0, button, angle).2 == None
    ensures !TouchUp(st, x1, y1, 0, button, angle).1.isTouching
  {
  }

  /** A release before any press ends no swipe: the fresh handler requests nothing and stays as it was. */
  lemma FreshReleaseIgnored(x: int, y: int, pointer: int, button: int, angle: real)
    ensures TouchUp(NewSwipeState(), x, y, pointer, button, angle) == (true, NewSwipeState(), None)
  {
  }

  /** Other fingers neither restart nor end a swipe in progress. */
  lemma OtherFingersIgnored(st: SwipeState, x: int, y: int, pointer: int, button: int, angle: real)
    requires pointer != 0
    ensures TouchDown(st, x, y, pointer, button).1 == st
    ensures TouchUp(st, x, y, pointer, button, angle).1 == st
    ensures TouchUp(st, x, y, pointer, button, angle).2 == None
  {
  }
}
