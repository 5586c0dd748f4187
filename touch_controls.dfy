/** Swipe detection of the touch controls hook (src/hooks/useTouchControls.ts). */
module TouchControls {
  import opened Types
  import Snake

  /** Pixels a swipe must cover along its longer axis. */
  const MIN_SWIPE_DISTANCE: real := 30.0
  /** Milliseconds a swipe may take. */
  const MAX_SWIPE_TIME: int := 1000

  /** A touch point's clientX and clientY. */
  datatype TouchPoint = TouchPoint(x: real, y: real)

  /** Where and when (Date.now(), in ms) the current touch began. */
  datatype TouchStart = TouchStart(x: real, y: real, time: int)

  function AbsReal(v: real): real {
    if v < 0.0 then -v else v
  }

  function MaxReal(a: real, b: real): real {
    if a >= b then a else b
  }

  /** The longer axis decides; a tie goes vertical. */
  function CalculateSwipeDirection(deltaX: real, deltaY: real): Direction {
    if AbsReal(deltaX) > AbsReal(deltaY) then
      if deltaX > 0.0 then Right else Left
    else
      if deltaY > 0.0 then Down else Up
  }

  lemma SwipeDirectionCases(deltaX: real, deltaY: real)
    ensures CalculateSwipeDirection(deltaX, deltaY) == Right <==> AbsReal(deltaX) > AbsReal(deltaY) && deltaX > 0.0
    ensures CalculateSwipeDirection(deltaX, deltaY) == Left <==> AbsReal(deltaX) > AbsReal(deltaY) && deltaX <= 0.0
    ensures CalculateSwipeDirection(deltaX, deltaY) == Down <==> AbsReal(deltaX) <= AbsReal(deltaY) && deltaY > 0.0
    ensures CalculateSwipeDirection(deltaX, deltaY) == Up <==> AbsReal(deltaX) <= AbsReal(deltaY) && deltaY <= 0.0
  {
  }

  /** Swiping back along the same line gives the opposite direction. */
  lemma ReversedSwipeIsOpposite(deltaX: real, deltaY: real)
    requires deltaX != 0.0 || deltaY != 0.0
    ensures CalculateSwipeDirection(-deltaX, -deltaY) == Snake.Opposite(CalculateSwipeDirection(deltaX, deltaY))
  {
  }

  lemma SwipeDirectionExamples()
    ensures CalculateSwipeDirection(50.0, 10.0) == Right && CalculateSwipeDirection(-50.0, 10.0) == Left
    ensures CalculateSwipeDirection(10.0, 50.0) == Down && CalculateSwipeDirection(10.0, -50.0) == Up
    ensures CalculateSwipeDirection(40.0, 40.0) == Down && CalculateSwipeDirection(40.0, -40.0) == Up
  {
  }

  /** The stored start after touchstart: recorded only while running and when a touch is present. */
  function TouchStartSpec(start: Option<TouchStart>, isRunning: bool, touch: Option<TouchPoint>, now: int): Option<TouchStart> {
    if !isRunning then start
    else match touch
      case None => start
      case Some(t) => Some(TouchStart(t.x, t.y, now))
  }

  /** The stored start and the reported direction after touchend. */
  function TouchEndSpec(start: Option<TouchStart>, isRunning: bool, touch: Option<TouchPoint>, now: int): (Option<TouchStart>, Option<Direction>) {
    if !isRunning || start.None? || touch.None? then (start, None)
    else
      var s, t := start.value, touch.value;
      if now - s.time > MAX_SWIPE_TIME then (None, None)
      else
        var deltaX, deltaY := t.x - s.x, t.y - s.y;
        if MaxReal(AbsReal(deltaX), AbsReal(deltaY)) < MIN_SWIPE_DISTANCE then (None, None)
        else (None, Some(CalculateSwipeDirection(deltaX, deltaY)))
  }

  /** The conditions under which a touchend reports, and what it reports. */
  lemma TouchEndReportsIff(start: Option<TouchStart>, isRunning: bool, touch: Option<TouchPoint>, now: int)
    ensures var d := TouchEndSpec(start, isRunning, touch, now).1;
      d.Some? <==>
        && isRunning && start.Some? && touch.Some?
        && now - start.value.time <= MAX_SWIPE_TIME
        && (AbsReal(touch.value.x - start.value.x) >= MIN_SWIPE_DISTANCE
            || AbsReal(touch.value.y - start.value.y) >= MIN_SWIPE_DISTANCE)
    ensures var d := TouchEndSpec(start, isRunning, touch, now).1;
      d.Some? ==> d.value == CalculateSwipeDirection(touch.value.x - start.value.x, touch.value.y - start.value.y)
  {
  }

  /** Once a touchend gets past the running, start and touch checks, the start is dropped whatever follows. */
  lemma TouchEndClearsStart(start: Option<TouchStart>, isRunning: bool, touch: Option<TouchPoint>, now: int)
    requires isRunning && start.Some? && touch.Some?
    ensures TouchEndSpec(start, isRunning, touch, now).0 == None
  {
  }

  /** Each start yields at most one direction: a second touchend without a new touchstart reports nothing. */
  lemma OneDirectionPerStart(start: Option<TouchStart>, isRunning: bool, touch: Option<TouchPoint>, now: int,
                             isRunning2: bool, touch2: Option<TouchPoint>, now2: int)
    requires TouchEndSpec(start, isRunning, touch, now).1.Some?
    ensures TouchEndSpec(TouchEndSpec(start, isRunning, touch, now).0, isRunning2, touch2, now2).1 == None
  {
  }

  /** While the game is not running neither handler changes anything or reports. */
  lemma NotRunningIgnoresTouches(start: Option<TouchStart>, touch: Option<TouchPoint>, now: int)
    ensures TouchStartSpec(start, false, touch, now) == start
    ensures TouchEndSpec(start, false, touch, now) == (start, None)
  {
  }

  /** A horizontal swipe of exactly 30 px counts; a 25 px horizontal or a 20 px vertical swipe does not. */
  lemma SwipeDistanceBoundary()
    ensures TouchEndSpec(Some(TouchStart(100.0, 100.0, 0)), true, Some(TouchPoint(130.0, 100.0)), 100).1 == Some(Right)
    ensures TouchEndSpec(Some(TouchStart(100.0, 100.0, 0)), true, Some(TouchPoint(125.0, 100.0)), 100).1 == None
    ensures TouchEndSpec(Some(TouchStart(100.0, 100.0, 0)), true, Some(TouchPoint(100.0, 120.0)), 100).1 == None
  {
  }

  /** A 100 px swipe to the right counts after 500 or exactly 1000 ms, not after 1001 ms. */
  lemma SwipeTimeBoundary()
    ensures TouchEndSpec(Some(TouchStart(100.0, 100.0, 5000)), true, Some(TouchPoint(200.0, 100.0)), 5500).1 == Some(Right)
    ensures TouchEndSpec(Some(TouchStart(100.0, 100.0, 5000)), true, Some(TouchPoint(200.0, 100.0)), 6000).1 == Some(Right)
    ensures TouchEndSpec(Some(TouchStart(100.0, 100.0, 5000)), true, Some(TouchPoint(200.0, 100.0)), 6001).1 == None
  {
  }

  /** The direction reported and whether the browser default is suppressed. */
  datatype TouchEndOutcome = TouchEndOutcome(direction: Option<Direction>, preventDefault: bool)

  /** The hook's state: the touchStartRef slot. */
  class TouchTracker {
    var touchStart: Option<TouchStart>

    constructor ()
      ensures touchStart == None
    {
      touchStart := None;
    }

    /** Returns whether preventDefault is called. */
    method HandleTouchStart(isRunning: bool, touch: Option<TouchPoint>, now: int) returns (preventDefault: bool)
      modifies this`touchStart
      ensures touchStart == TouchStartSpec(old(touchStart), isRunning, touch, now)
      ensures preventDefault <==> isRunning && touch.Some?
    {
      if !isRunning {
        return false;
      }
      if touch.None? {
        return false;
      }
      touchStart := Some(TouchStart(touch.value.x, touch.value.y, now));
      preventDefault := true;
    }

    /** The direction goes to the store unfiltered; reversals are rejected there, not here. */
    method HandleTouchEnd(isRunning: bool, touch: Option<TouchPoint>, now: int) returns (outcome: TouchEndOutcome)
      modifies this`touchStart
      ensures (touchStart, outcome.direction) == TouchEndSpec(old(touchStart), isRunning, touch, now)
      ensures outcome.preventDefault <==> outcome.direction.Some?
    {
      if !isRunning {
        return TouchEndOutcome(None, false);
      }
      if touchStart.None? {
        return TouchEndOutcome(None, false);
      }
      if touch.None? {
        return TouchEndOutcome(None, false);
      }
      var endX, endY := touch.value.x, touch.value.y;
      var timeElapsed := now - touchStart.value.time;
      if timeElapsed > MAX_SWIPE_TIME {
        touchStart := None;
        return TouchEndOutcome(None, false);
      }
      var deltaX, deltaY := endX - touchStart.value.x, endY - touchStart.value.y;
      var maxDistance := MaxReal(AbsReal(deltaX), AbsReal(deltaY));
      if maxDistance < MIN_SWIPE_DISTANCE {
        touchStart := None;
        return TouchEndOutcome(None, false);
      }
      touchStart := None;
      var newDirection := CalculateSwipeDirection(deltaX, deltaY);
      outcome := TouchEndOutcome(Some(newDirection), true);
    }
  }
}
