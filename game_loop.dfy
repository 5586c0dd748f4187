/** Frame timing of the game loop hook (src/hooks/useGameLoop.ts). Timestamps are whole milliseconds. */
module GameLoop {

  /** The reference time a frame measures from: a last time of 0 means "not started", and the frame adopts its own timestamp. */
  function FrameStart(last: int, timestamp: int): int {
    if last == 0 then timestamp else last
  }

  /** One animation frame: the new last-update time and whether onTick fires. */
  function FrameStep(last: int, timestamp: int, interval: int): (int, bool)
    requires interval > 0
  {
    var start := FrameStart(last, timestamp);
    var elapsed := timestamp - start;
    if elapsed >= interval then (timestamp - elapsed % interval, true) else (start, false)
  }

  lemma FiresIff(last: int, timestamp: int, interval: int)
    requires interval > 0
    ensures FrameStep(last, timestamp, interval).1 <==> timestamp - FrameStart(last, timestamp) >= interval
  {
  }

  /** The first frame after a start never fires; it only records its timestamp. */
  lemma FirstFrameRecordsTimestamp(timestamp: int, interval: int)
    requires interval > 0
    ensures FrameStep(0, timestamp, interval) == (timestamp, false)
  {
  }

  lemma QuietFrameKeepsLast(last: int, timestamp: int, interval: int)
    requires interval > 0 && last != 0
    ensures !FrameStep(last, timestamp, interval).1 ==> FrameStep(last, timestamp, interval).0 == last
  {
  }

  /** A non-zero multiple of a positive d is at least d away from zero. */
  lemma MultipleSign(x: int, d: int)
    requires d > 0
    ensures x >= 1 ==> x * d >= d
    ensures x <= -1 ==> x * d <= -d
  {
  }

  /** Euclidean division leaves a multiple of the divisor. */
  lemma MultipleHasNoRemainder(q: int, d: int)
    requires d > 0
    ensures (q * d) % d == 0
  {
    var m := q * d;
    var r, k := m % d, m / d;
    assert m == k * d + r && 0 <= r < d;
    assert (q - k) * d == r;
    MultipleSign(q - k, d);
  }

  /**
   * After a tick the carried-over remainder is under one interval, whole extra intervals are
   * dropped, and the schedule stays on the start's grid of interval multiples.
   */
  lemma FiringCarriesRemainder(last: int, timestamp: int, interval: int)
    requires interval > 0
    ensures var (newLast, fired) := FrameStep(last, timestamp, interval);
      var start := FrameStart(last, timestamp);
      fired ==>
        && 0 <= timestamp - newLast < interval
        && newLast - start == ((timestamp - start) / interval) * interval
        && (newLast - start) % interval == 0
        && newLast >= start + interval
  {
    var start := FrameStart(last, timestamp);
    var elapsed := timestamp - start;
    var q, r := elapsed / interval, elapsed % interval;
    assert elapsed == q * interval + r && 0 <= r < interval;
    MultipleHasNoRemainder(q, interval);
    MultipleSign(q, interval);
  }

  /** The loop over a run of frames: the final last-update time and the number of ticks fired. */
  function RunFrames(last: int, timestamps: seq<int>, interval: int): (int, nat)
    requires interval > 0
    decreases |timestamps|
  {
    if |timestamps| == 0 then (last, 0)
    else
      var (next, fired) := FrameStep(last, timestamps[0], interval);
      var (final, count) := RunFrames(next, timestamps[1..], interval);
      (final, count + if fired then 1 else 0)
  }

  /** Once started, ticks never outpace the clock: each one advances the last-update time by at least one interval. */
  lemma {:induction false} TicksNeverOutpaceClock(last: int, timestamps: seq<int>, interval: int)
    requires interval > 0 && last > 0
    ensures var (final, count) := RunFrames(last, timestamps, interval);
      final >= last + count * interval
    decreases |timestamps|
  {
    if |timestamps| > 0 {
      var (next, fired) := FrameStep(last, timestamps[0], interval);
      FiringCarriesRemainder(last, timestamps[0], interval);
      assert next >= last + (if fired then interval else 0);
      TicksNeverOutpaceClock(next, timestamps[1..], interval);
      var (final, count) := RunFrames(next, timestamps[1..], interval);
      var total := count + if fired then 1 else 0;
      assert total * interval == count * interval + (if fired then interval else 0);
    }
  }

  /** A fired frame never moves the last-update time past its own timestamp. */
  lemma FiringNeverAhead(last: int, timestamp: int, interval: int)
    requires interval > 0
    ensures FrameStep(last, timestamp, interval).1 ==> FrameStep(last, timestamp, interval).0 <= timestamp
  {
  }

  /**
   * The start effect after a render. It is keyed on isRunning and on gameLoop, and gameLoop is
   * keyed on interval, so a change of either runs the cleanup and the effect again; when the
   * loop is then running, the last-update time is reset to 0. Otherwise nothing is reset.
   */
  function EffectLast(last: int, wasRunning: bool, oldInterval: int, isRunning: bool, interval: int): int {
    if (isRunning != wasRunning || interval != oldInterval) && isRunning then 0 else last
  }

  /** Starting the loop resets the clock, and the first frame then only records its timestamp. */
  lemma StartResetsClock(last: int, oldInterval: int, interval: int, timestamp: int)
    requires interval > 0
    ensures EffectLast(last, false, oldInterval, true, interval) == 0
    ensures FrameStep(EffectLast(last, false, oldInterval, true, interval), timestamp, interval) == (timestamp, false)
  {
  }

  /**
   * A speed change while running also resets the clock: the carried remainder is dropped and the
   * first frame at the new interval never fires, however long ago the last tick was.
   */
  lemma SpeedChangeRestartsClock(last: int, oldInterval: int, interval: int, timestamp: int)
    requires interval > 0 && interval != oldInterval
    ensures EffectLast(last, true, oldInterval, true, interval) == 0
    ensures FrameStep(EffectLast(last, true, oldInterval, true, interval), timestamp, interval) == (timestamp, false)
  {
  }

  /** Stopping, or a render that changes neither dependency, leaves the last-update time alone. */
  lemma EffectKeepsClockOtherwise(last: int, wasRunning: bool, oldInterval: int, isRunning: bool, interval: int)
    ensures !isRunning ==> EffectLast(last, wasRunning, oldInterval, isRunning, interval) == last
    ensures isRunning == wasRunning && interval == oldInterval ==>
      EffectLast(last, wasRunning, oldInterval, isRunning, interval) == last
  {
  }

  /**
   * The hook's state: the lastUpdateTimeRef slot and the isRunning and interval it was last
   * rendered with. requestAnimationFrame and its cancellation are the caller's: frames arrive
   * only while the loop is running.
   */
  class GameLoopTimer {
    var lastUpdateTime: int
    var isRunning: bool
    var interval: int

    /** The first render: useRef(0), and the effect, which at most sets the slot to 0 again. */
    constructor (isRunning: bool, interval: int)
      requires interval > 0
      ensures lastUpdateTime == 0 && this.isRunning == isRunning && this.interval == interval
    {
      lastUpdateTime := 0;
      this.isRunning := isRunning;
      this.interval := interval;
    }

    /** A re-render with new options: the effect re-runs exactly when a dependency changed. */
    method Render(isRunning: bool, interval: int)
      requires interval > 0
      modifies this
      ensures lastUpdateTime == EffectLast(old(lastUpdateTime), old(this.isRunning), old(this.interval), isRunning, interval)
      ensures this.isRunning == isRunning && this.interval == interval
    {
      if (isRunning != this.isRunning || interval != this.interval) && isRunning {
        lastUpdateTime := 0;
      }
      this.isRunning := isRunning;
      this.interval := interval;
    }

    /** gameLoop for one frame at the interval it closes over; returns whether onTick is called. */
    method Frame(timestamp: int) returns (fired: bool)
      requires interval > 0
      modifies this`lastUpdateTime
      ensures (lastUpdateTime, fired) == FrameStep(old(lastUpdateTime), timestamp, interval)
    {
      if lastUpdateTime == 0 {
        lastUpdateTime := timestamp;
      }
      var elapsed := timestamp - lastUpdateTime;
      fired := elapsed >= interval;
      if fired {
        lastUpdateTime := timestamp - elapsed % interval;
      }
    }
  }
}
