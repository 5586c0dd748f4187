/** Value types shared by the game rules, the stores and the input handlers (src/types/index.ts). */
module Types {
  import opened Constants

  datatype Option<T> = None | Some(value: T)

  /** A board cell; x grows to the right and y grows downward. */
  datatype Position = Position(x: int, y: int)

  datatype Direction = Up | Down | Left | Right

  /** 'classic' | 'speed': selects the speed-curve constants. */
  datatype GameMode = Classic | Speed

  datatype GameStatus = Idle | Playing | Paused | GameOver

  /** A cell of the GRID_SIZE x GRID_SIZE board. */
  predicate InGrid(p: Position) {
    0 <= p.x < GRID_SIZE && 0 <= p.y < GRID_SIZE
  }

  datatype ThemeId = Default | Jungle | Ocean | Space | Candy | Neon | Desert | Winter

  /** The thirteen colours of a theme, each a hex string such as "#22c55e". */
  datatype ThemeColors = ThemeColors(
    primary: string,
    primaryDark: string,
    secondary: string,
    background: string,
    surface: string,
    surfaceLight: string,
    text: string,
    textSecondary: string,
    snake: string,
    snakeHead: string,
    food: string,
    board: string,
    boardCell: string)

  datatype Theme = Theme(id: ThemeId, name: string, colors: ThemeColors)
}
