/** The game's configuration constants (src/utils/constants.ts). */
module Constants {
  /** The board is GRID_SIZE x GRID_SIZE cells. */
  const GRID_SIZE: int := 20
  const INITIAL_SNAKE_LENGTH: nat := 3
  const POINTS_PER_FOOD: int := 10

  /** Classic mode: tick interval in milliseconds at the start, per step, every so many foods, and its floor. */
  const INITIAL_SPEED: int := 150
  const SPEED_INCREMENT: int := 5
  const FOOD_PER_SPEED_INCREASE: int := 3
  const MIN_SPEED: int := 50

  /** Speed mode: the same four constants. */
  const SPEED_MODE_INITIAL: int := 100
  const SPEED_MODE_INCREMENT: int := 8
  const SPEED_MODE_FOOD_THRESHOLD: int := 2
  const MIN_SPEED_MODE: int := 40
}
