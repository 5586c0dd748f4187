/** Key handling of the keyboard controls hook (src/hooks/useKeyboardControls.ts). */
module KeyboardControls {
  import opened Types

  /** Arrow keys and WASD in either case; the key is KeyboardEvent.key. */
  const KEY_TO_DIRECTION: map<string, Direction> := map[
    "ArrowUp" := Up, "ArrowDown" := Down, "ArrowLeft" := Left, "ArrowRight" := Right,
    "w" := Up, "W" := Up, "s" := Down, "S" := Down,
    "a" := Left, "A" := Left, "d" := Right, "D" := Right]

  /** The keys whose default action (scrolling) is suppressed. */
  const ARROW_KEYS: set<string> := {"ArrowUp", "ArrowDown", "ArrowLeft", "ArrowRight"}

  /** The direction passed to the store, and whether preventDefault is called. */
  datatype KeyOutcome = KeyOutcome(direction: Option<Direction>, preventDefault: bool)

  function HandleKeyDown(isRunning: bool, key: string): KeyOutcome {
    if !isRunning then KeyOutcome(None, false)
    else if key !in KEY_TO_DIRECTION then KeyOutcome(None, false)
    else KeyOutcome(Some(KEY_TO_DIRECTION[key]), key in ARROW_KEYS)
  }

  lemma ArrowKeysSteer()
    ensures HandleKeyDown(true, "ArrowUp") == KeyOutcome(Some(Up), true)
    ensures HandleKeyDown(true, "ArrowDown") == KeyOutcome(Some(Down), true)
    ensures HandleKeyDown(true, "ArrowLeft") == KeyOutcome(Some(Left), true)
    ensures HandleKeyDown(true, "ArrowRight") == KeyOutcome(Some(Right), true)
  {
  }

  /** WASD steers in both cases and leaves the browser default alone. */
  lemma LetterKeysSteer()
    ensures HandleKeyDown(true, "w") == KeyOutcome(Some(Up), false) && HandleKeyDown(true, "W") == KeyOutcome(Some(Up), false)
    ensures HandleKeyDown(true, "s") == KeyOutcome(Some(Down), false) && HandleKeyDown(true, "S") == KeyOutcome(Some(Down), false)
    ensures HandleKeyDown(true, "a") == KeyOutcome(Some(Left), false) && HandleKeyDown(true, "A") == KeyOutcome(Some(Left), false)
    ensures HandleKeyDown(true, "d") == KeyOutcome(Some(Right), false) && HandleKeyDown(true, "D") == KeyOutcome(Some(Right), false)
  {
  }

  /** The keys that steer towards a direction: its arrow and its letter in both cases. */
  function KeysFor(d: Direction): set<string> {
    match d
    case Up => {"ArrowUp", "w", "W"}
    case Down => {"ArrowDown", "s", "S"}
    case Left => {"ArrowLeft", "a", "A"}
    case Right => {"ArrowRight", "d", "D"}
  }

  /**
   * A key steers towards d exactly when it is one of KeysFor(d), whatever the snake's heading
   * (reversals are left to the store); every other key does nothing.
   */
  lemma KeyDownSteersIff(key: string, d: Direction)
    ensures HandleKeyDown(true, key).direction == Some(d) <==> key in KeysFor(d)
    ensures HandleKeyDown(true, key).direction.None? <==> key !in KEY_TO_DIRECTION
  {
  }

  lemma UnmappedKeyIsIgnored(isRunning: bool, key: string)
    requires key !in KEY_TO_DIRECTION
    ensures HandleKeyDown(isRunning, key) == KeyOutcome(None, false)
  {
  }

  lemma NotRunningIgnoresKeys(key: string)
    ensures HandleKeyDown(false, key) == KeyOutcome(None, false)
  {
  }

  /** preventDefault is requested for the four arrow keys only, and only while running. */
  lemma PreventDefaultOnlyForArrows(isRunning: bool, key: string)
    ensures HandleKeyDown(isRunning, key).preventDefault <==> isRunning && key in ARROW_KEYS
  {
  }
}
