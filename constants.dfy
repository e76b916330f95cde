/** Constants shared by the game engine, the search and the game loop (utils.py). */
module Constants {

  /** Internal player numbers; 0 marks an empty cell. */
  const EMPTY: int := 0
  const YELLOW_NUM: int := 1
  const RED_NUM: int := 2

  /** Game modes. */
  const PLAYER_MODE: int := 0
  const AI_MODE: int := 1

  /** Board dimensions: row 0 is the top, row 5 the bottom. */
  const ROWS: int := 6
  const COLS: int := 7
  const CENTER_COL: int := 3

  /** Minimax parameters. */
  const WIN_SCORE: int := 1_000_000_000_000
  const THREE_IN_ROW_MULT: int := 100
  const TWO_IN_ROW_MULT: int := 10
  const CENTER_MULT: int := 1

  /** Stands for math.inf: strictly beyond every score the search can produce. */
  const INFINITY: int := 2 * WIN_SCORE

  /** The content of one board cell. */
  type Cell = c: int | EMPTY <= c <= RED_NUM

  /** Whose turn it is, and whose piece is dropped. */
  type Player = p: int | p == YELLOW_NUM || p == RED_NUM witness YELLOW_NUM

  datatype Option<T> = None | Some(value: T)

  function Max(x: int, y: int): int { if x >= y then x else y }
  function Min(x: int, y: int): int { if x <= y then x else y }
}
