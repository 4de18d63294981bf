/** The swipe gesture hook (src/hooks/useSwipe.ts): a horizontal drag, by touch or with
    the left mouse button, that turns the page when it is long and fast enough.
    `Date.now()`, the cursor coordinates, the element's and the window's widths and the
    DOM path of the pressed element are parameters. */
module Swipe {
  import opened Wrappers

  const DefaultThreshold: real := 50.0
  const DefaultMinVelocity: real := 0.3

  /** One element on the path from the pressed element up to the document root. */
  datatype Node = Node(tagName: string, noSwipe: bool)

  datatype Direction = Left | Right

  datatype Input = Touch | Mouse

  /** Where and when the gesture began (`touchStartRef`). */
  datatype Start = Start(x: real, y: real, time: int)

  function Abs(r: real): real {
    if r < 0.0 then -r else r
  }

  /** The press is on a button itself, inside a button or a link, or inside an element
      marked `data-no-swipe` (`closest` looks at the element and its ancestors). */
  predicate Interactive(path: seq<Node>) {
    (path != [] && path[0].tagName == "BUTTON") ||
    exists i :: 0 <= i < |path| && (path[i].tagName == "BUTTON" || path[i].tagName == "A" || path[i].noSwipe)
  }

  /** `velocity > minVelocity` with `velocity = Math.abs(deltaX) / deltaTime`: a zero
      interval gives Infinity for a non-zero distance and NaN (never greater) for zero. */
  predicate Fast(dx: real, dt: int, minVelocity: real) {
    if dt == 0 then dx != 0.0
    else Abs(dx) / (dt as real) > minVelocity
  }

  /** The release decision: whether the page turn is committed, and which callback runs. */
  function Decide(dx: real, dt: int, threshold: real, minVelocity: real, hasLeft: bool, hasRight: bool): (r: (bool, Option<Direction>))
    ensures r.1.Some? ==> r.0
    ensures r.1 == Some(Right) <==> r.0 && dx > 0.0 && hasRight
    ensures r.1 == Some(Left) <==> r.0 && dx < 0.0 && hasLeft
  {
    if Abs(dx) > threshold && Fast(dx, dt, minVelocity) then
      (true, if dx > 0.0 && hasRight then Some(Right) else if dx < 0.0 && hasLeft then Some(Left) else None)
    else (false, None)
  }

  /** A swipe commits exactly when it is longer than the threshold and fast enough. */
  lemma DecideCommits(dx: real, dt: int, threshold: real, minVelocity: real, hasLeft: bool, hasRight: bool)
    ensures Decide(dx, dt, threshold, minVelocity, hasLeft, hasRight).0 <==> Abs(dx) > threshold && Fast(dx, dt, minVelocity)
  {
  }

  /** Mirroring the gesture mirrors the decision: the same commitment, the other side. */
  lemma DecideMirror(dx: real, dt: int, threshold: real, minVelocity: real)
    ensures var (c, d) := Decide(dx, dt, threshold, minVelocity, true, true);
      var (c', d') := Decide(-dx, dt, threshold, minVelocity, true, true);
      c == c' && (d == Some(Right) <==> d' == Some(Left)) && (d == Some(Left) <==> d' == Some(Right))
  {
    assert Abs(-dx) == Abs(dx);
    if dt != 0 {
      assert Abs(-dx) / (dt as real) == Abs(dx) / (dt as real);
    }
  }

  /** With the default settings a swipe that takes time fires only above 0.3 pixels per
      millisecond: a swipe of at most 60 pixels that took 200 ms or more never fires. */
  lemma SlowSwipeIgnored(dx: real, dt: int)
    requires dt >= 200 && Abs(dx) <= 60.0
    ensures !Decide(dx, dt, DefaultThreshold, DefaultMinVelocity, true, true).0
  {
    assert Abs(dx) / (dt as real) <= 60.0 / (dt as real);
    assert 60.0 / (dt as real) <= 60.0 / 200.0;
  }

  /** `Math.min(Math.abs(deltaX) / width, 1)` */
  function Progress(dx: real, width: real): (p: real)
    requires width > 0.0
    ensures 0.0 <= p <= 1.0
    ensures p == 1.0 <==> Abs(dx) >= width
    ensures Abs(dx) < width ==> p * width == Abs(dx)
  {
    var q := Abs(dx) / width;
    assert q >= 1.0 <==> Abs(dx) >= width;
    if q < 1.0 then q else 1.0
  }

  /** `swipeDirection` */
  function DirectionOf(offset: real): (d: Option<Direction>)
    ensures d == Some(Right) <==> offset > 0.0
    ensures d == Some(Left) <==> offset < 0.0
    ensures d == None <==> offset == 0.0
  {
    if offset > 0.0 then Some(Right) else if offset < 0.0 then Some(Left) else None
  }

  class SwipeState {
    const hasLeft: bool
    const hasRight: bool
    const threshold: real
    const minVelocity: real
    var touchStart: Option<Start>
    var containerWidth: real
    var isSwiping: bool
    var swipeOffset: real
    var isTransitioning: bool
    var flipProgress: real

    /** A gesture is in progress exactly while a start is recorded; the offset is zero
        between gestures; the flip progress is a fraction. */
    ghost predicate Valid()
      reads this
    {
      && (isSwiping <==> touchStart.Some?)
      && (!isSwiping ==> swipeOffset == 0.0)
      && 0.0 <= flipProgress <= 1.0
      && containerWidth >= 0.0
    }

    constructor (hasLeft: bool, hasRight: bool, threshold: real, minVelocity: real)
      ensures Valid() && !isSwiping && !isTransitioning && flipProgress == 0.0
      ensures this.hasLeft == hasLeft && this.hasRight == hasRight
      ensures this.threshold == threshold && this.minVelocity == minVelocity
    {
      this.hasLeft := hasLeft;
      this.hasRight := hasRight;
      this.threshold := threshold;
      this.minVelocity := minVelocity;
      touchStart := None;
      containerWidth := 0.0;
      isSwiping := false;
      swipeOffset := 0.0;
      isTransitioning := false;
      flipProgress := 0.0;
    }

    /** `handleTouchStart` / `handleMouseDown`: a press that is not the left button (mouse
        only) or that lands on an interactive element is ignored; otherwise the gesture
        starts here and now, and the container width is measured. */
    method Press(input: Input, button: int, path: seq<Node>, x: real, y: real, now: int,
                 clientWidth: real, innerWidth: real)
      requires Valid() && clientWidth >= 0.0 && innerWidth > 0.0
      modifies this
      ensures Valid()
      ensures if (input == Mouse && button != 0) || Interactive(path) then unchanged(this)
              else (touchStart == Some(Start(x, y, now)) && isSwiping && swipeOffset == 0.0 && flipProgress == 0.0
                && containerWidth == (if clientWidth != 0.0 then clientWidth else innerWidth)
                && isTransitioning == old(isTransitioning))
    {
      if input == Mouse && button != 0 {
        return;
      }
      if Interactive(path) {
        return;
      }
      containerWidth := if clientWidth != 0.0 then clientWidth else innerWidth;
      touchStart := Some(Start(x, y, now));
      isSwiping := true;
      swipeOffset := 0.0;
      flipProgress := 0.0;
    }

    /** `handleTouchMove` / `handleMouseMove`: during a gesture, a mostly horizontal move
        sets the offset and the flip progress; a mostly vertical one changes nothing. */
    method Move(x: real, y: real, innerWidth: real)
      requires Valid() && innerWidth > 0.0
      modifies this
      ensures Valid()
      ensures if old(touchStart).None? || Abs(y - old(touchStart).value.y) > Abs(x - old(touchStart).value.x) then unchanged(this)
              else (var dx := x - old(touchStart).value.x;
                swipeOffset == dx
                && flipProgress == Progress(dx, if old(containerWidth) != 0.0 then old(containerWidth) else innerWidth)
                && touchStart == old(touchStart) && isSwiping == old(isSwiping)
                && containerWidth == old(containerWidth) && isTransitioning == old(isTransitioning))
    {
      if touchStart.None? {
        return;
      }
      var deltaX := x - touchStart.value.x;
      var deltaY := y - touchStart.value.y;
      if Abs(deltaY) > Abs(deltaX) {
        return;
      }
      var width := if containerWidth != 0.0 then containerWidth else innerWidth;
      swipeOffset := deltaX;
      flipProgress := Progress(deltaX, width);
    }

    /** `handleTouchEnd` / `handleMouseUp`: judge the gesture from the current offset and
        its duration, run the callback of its side when committed, and end the gesture.
        The mouse also resets the flip progress at once; the touch leaves it to the timer. */
    method Release(input: Input, now: int) returns (fired: Option<Direction>)
      requires Valid()
      modifies this
      ensures Valid()
      ensures old(touchStart).None? ==> unchanged(this) && fired == None
      ensures old(touchStart).Some? ==>
        var (commit, side) := Decide(old(swipeOffset), now - old(touchStart).value.time, threshold, minVelocity, hasLeft, hasRight);
        && fired == side
        && isTransitioning == (old(isTransitioning) || commit)
        && touchStart == None && !isSwiping && swipeOffset == 0.0
        && flipProgress == (if input == Mouse then 0.0 else old(flipProgress))
        && containerWidth == old(containerWidth)
    {
      fired := None;
      if touchStart.None? {
        return;
      }
      var deltaX := swipeOffset;
      var deltaTime := now - touchStart.value.time;
      var decision := Decide(deltaX, deltaTime, threshold, minVelocity, hasLeft, hasRight);
      if decision.0 {
        isTransitioning := true;
        fired := decision.1;
      }
      touchStart := None;
      isSwiping := false;
      swipeOffset := 0.0;
      if input == Mouse {
        flipProgress := 0.0;
      }
    }

    /** The 600 ms timer after a committed swipe. */
    method TransitionEnd()
      requires Valid()
      modifies this
      ensures Valid() && !isTransitioning && flipProgress == 0.0
      ensures touchStart == old(touchStart) && isSwiping == old(isSwiping)
      ensures swipeOffset == old(swipeOffset) && containerWidth == old(containerWidth)
    {
      isTransitioning := false;
      flipProgress := 0.0;
    }

    /** The hook's `swipeDirection` output. */
    function SwipeDirection(): Option<Direction>
      reads this
    {
      DirectionOf(swipeOffset)
    }
  }
}
