/**
 * The running game (game.py): a Connect4Game owns one GameState whose
 * board make_move updates in place, and records the winner and whether the
 * game is over.
 */
module Game {
  import opened Constants
  import opened Board
  import opened State

  class Connect4Game {
    const state: MutableGameState
    const gameMode: int
    const aiColor: Option<Player>
    var winner: Option<Player>
    var gameOver: bool

    ghost predicate Valid()
      reads this
    {
      state.Valid()
    }

    /**
     * A new game: an empty board with yellow to move, no winner, not over.
     * In AI mode the bot's colour is aiChoice, the value random.choice drew
     * from [YELLOW_NUM, RED_NUM].
     */
    constructor (gameMode: int, aiChoice: Player)
      ensures Valid() && fresh(state) && fresh(state.board)
      ensures state.Grid() == EmptyGrid() && state.turn == YELLOW_NUM
      ensures this.gameMode == gameMode
      ensures aiColor == if gameMode == AI_MODE then Some(aiChoice) else None
      ensures winner == None && !gameOver
    {
      var board := new Cell[ROWS, COLS]((i, j) => EMPTY);
      state := new MutableGameState(board, YELLOW_NUM);
      this.gameMode := gameMode;
      aiColor := if gameMode == AI_MODE then Some(aiChoice) else None;
      winner := None;
      gameOver := false;
      new;
      SameCells(state.Grid(), EmptyGrid());
    }

    /**
     * make_move: writes the mover's piece into the lowest empty cell of col,
     * scanning bottom-up (nothing is written when the column has none); then
     * a four-in-a-row for the mover ends the game with the mover as winner, a
     * full board ends it without one, and otherwise the turn passes.
     */
    method MakeMove(col: int)
      requires Valid() && 0 <= col < COLS
      modifies this, state, state.board
      ensures Valid()
      ensures state.Grid() == FillLowestGap(old(state.Grid()), col, old(state.turn))
      ensures HasFour(state.Grid(), old(state.turn)) ==>
        winner == Some(old(state.turn)) && gameOver && state.turn == old(state.turn)
      ensures !HasFour(state.Grid(), old(state.turn)) && IsTie(state.Grid()) ==>
        winner == old(winner) && gameOver && state.turn == old(state.turn)
      ensures !HasFour(state.Grid(), old(state.turn)) && !IsTie(state.Grid()) ==>
        winner == old(winner) && gameOver == old(gameOver) && state.turn == Opponent(old(state.turn))
    {
      ghost var before := state.Grid();
      var i := ROWS - 1;
      while i >= 0
        invariant -1 <= i < ROWS
        invariant state.Grid() == before
        invariant LowestGap(before, col, ROWS - 1) == LowestGap(before, col, i)
      {
        if state.board[i, col] == EMPTY {
          var piece: Cell := state.turn;
          state.board[i, col] := piece;
          SameCells(state.Grid(), FillLowestGap(before, col, state.turn));
          break;
        }
        i := i - 1;
      }
      var won := IsWinning(state.Grid(), state.turn);
      if won {
        winner := Some(state.turn);
        gameOver := true;
        return;
      } else if IsTie(state.Grid()) {
        gameOver := true;
        return;
      }
      state.ChangeTurn();
    }
  }

  /** make_move and get_new_state put the piece in the same cell when the column is not full. */
  lemma MoveMatchesNewState(b: Grid, col: int, turn: Player)
    requires WellFormed(b) && 0 <= col < COLS && IsLegalAction(b, col)
    ensures FillLowestGap(b, col, turn) == NextState(GameState(b, turn), col).board
  {
    FillIsDrop(b, col, turn);
  }

  /** On a board where pieces rest on one another, a full column leaves the board as it was. */
  lemma FullColumnUnchanged(b: Grid, col: int, turn: Player)
    requires WellFormed(b) && 0 <= col < COLS && Gravity(b) && !IsLegalAction(b, col)
    ensures FillLowestGap(b, col, turn) == b
  {
    FillIsDrop(b, col, turn);
  }

  /** make_move keeps every column free of gaps. */
  lemma MovePreservesGravity(b: Grid, col: int, turn: Player)
    requires WellFormed(b) && 0 <= col < COLS && Gravity(b)
    ensures Gravity(FillLowestGap(b, col, turn))
  {
    FillIsDrop(b, col, turn);
    DropPreservesGravity(b, col, turn);
  }
}
