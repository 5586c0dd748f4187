/** The tick-interval curve (src/game/speed.ts). */
module GameSpeed {
  import opened Types
  import opened Constants

  /** The four constants of one mode, in milliseconds and food counts. */
  datatype SpeedParams = SpeedParams(initial: int, increment: int, threshold: int, minimum: int)

  function ModeParams(mode: GameMode): (p: SpeedParams)
    ensures p.threshold > 0 && p.increment > 0 && 0 < p.minimum <= p.initial
  {
    if mode == Classic then SpeedParams(INITIAL_SPEED, SPEED_INCREMENT, FOOD_PER_SPEED_INCREASE, MIN_SPEED)
    else SpeedParams(SPEED_MODE_INITIAL, SPEED_MODE_INCREMENT, SPEED_MODE_FOOD_THRESHOLD, MIN_SPEED_MODE)
  }

  function Max(a: int, b: int): int {
    if a >= b then a else b
  }

  /** The interval between ticks after `foodEaten` foods: one decrement per full threshold, never below the minimum. */
  function CalculateSpeed(foodEaten: nat, gameMode: GameMode): (r: int)
    ensures ModeParams(gameMode).minimum <= r <= ModeParams(gameMode).initial
  {
    var p := ModeParams(gameMode);
    var speedIncreases := foodEaten / p.threshold;
    var targetSpeed := p.initial - speedIncreases * p.increment;
    Max(targetSpeed, p.minimum)
  }

  lemma SpeedAtStart(mode: GameMode)
    ensures CalculateSpeed(0, mode) == (if mode == Classic then INITIAL_SPEED else SPEED_MODE_INITIAL)
  {
  }

  lemma SpeedBand(foodEaten: nat, mode: GameMode)
    ensures mode == Classic ==> MIN_SPEED <= CalculateSpeed(foodEaten, mode) <= INITIAL_SPEED
    ensures mode == Speed ==> MIN_SPEED_MODE <= CalculateSpeed(foodEaten, mode) <= SPEED_MODE_INITIAL
  {
  }

  lemma MulMonotone(x: int, y: int, t: int)
    ensures x <= y && t >= 0 ==> x * t <= y * t
  {
    if x <= y && t >= 0 {
      assert y * t - x * t == (y - x) * t;
    }
  }

  lemma DivMonotone(a: nat, b: nat, t: int)
    requires a <= b && t > 0
    ensures a / t <= b / t
  {
    var qa, qb := a / t, b / t;
    assert qa * t <= a && b < (qb + 1) * t;
    MulMonotone(qb + 1, qa, t);
  }

  /** Eating more never makes the game slower. */
  lemma SpeedNonIncreasing(a: nat, b: nat, mode: GameMode)
    requires a <= b
    ensures CalculateSpeed(b, mode) <= CalculateSpeed(a, mode)
  {
    var p := ModeParams(mode);
    DivMonotone(a, b, p.threshold);
    assert (a / p.threshold) * p.increment <= (b / p.threshold) * p.increment;
  }

  lemma DivInBlock(n: nat, k: nat, t: int)
    requires t > 0 && k * t <= n < (k + 1) * t
    ensures n / t == k
  {
    var q := n / t;
    assert q * t <= n < (q + 1) * t;
    MulMonotone(q + 1, k, t);
    MulMonotone(k + 1, q, t);
  }

  /** Within the block [k*t, (k+1)*t) of foods the interval is the k-th step, clamped. */
  lemma SpeedConstantInBlock(n: nat, k: nat, mode: GameMode)
    requires k * ModeParams(mode).threshold <= n < (k + 1) * ModeParams(mode).threshold
    ensures CalculateSpeed(n, mode) == Max(ModeParams(mode).initial - k * ModeParams(mode).increment, ModeParams(mode).minimum)
  {
    DivInBlock(n, k, ModeParams(mode).threshold);
  }

  /** Classic reaches its floor after 60 foods and Speed after 16, and stays there. */
  lemma SpeedReachesMinimum(n: nat, mode: GameMode)
    requires n >= (if mode == Classic then 60 else 16)
    ensures CalculateSpeed(n, mode) == ModeParams(mode).minimum
  {
    var t := ModeParams(mode).threshold;
    var m := if mode == Classic then 60 else 16;
    DivMonotone(m, n, t);
  }

  lemma ClassicExamples()
    ensures CalculateSpeed(2, Classic) == 150 && CalculateSpeed(3, Classic) == 145
    ensures CalculateSpeed(6, Classic) == 140 && CalculateSpeed(9, Classic) == 135
    ensures CalculateSpeed(60, Classic) == 50 && CalculateSpeed(100, Classic) == 50
    ensures CalculateSpeed(9999, Classic) == 50
  {
  }

  lemma SpeedModeExamples()
    ensures CalculateSpeed(1, Speed) == 100 && CalculateSpeed(2, Speed) == 92
    ensures CalculateSpeed(4, Speed) == 84 && CalculateSpeed(6, Speed) == 76
    ensures CalculateSpeed(16, Speed) == 40 && CalculateSpeed(100, Speed) == 40
    ensures CalculateSpeed(9999, Speed) == 40
  {
  }
}
