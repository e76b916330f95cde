# Connect Four engine and alpha-beta bot, modelled in Dafny

This project models the game engine and computer opponent of a 6 x 7 Connect
Four program. The modelled parts are:

- `GameState` (state.py): the board, legality, the successor position,
  four-in-a-row and full-board detection, and the pattern counts of the heuristic;
- the fail-soft alpha-beta `minimax` (ai/minimax.py);
- the `Agent` that picks a column, in random or minimax mode (ai/agent.py);
- the `Connect4Game` object that a running game updates in place (game.py).

Each nested-loop scan of the source becomes a Dafny method proved equal to a
specification function over 4-cell windows. Facts are then proved about
those functions:

- four-in-a-row means some window holds four;
- a full board on a board without floating pieces means no legal column;
- the heuristic stays within ±7596, far below the win score.

The search is proved against `MinimaxValue`, an unpruned reference minimax
that tries the legal columns left to right. `Minimax` is fail-soft:

- a result strictly inside the window is the exact value;
- a result at or below alpha bounds the value from above;
- a result at or above beta bounds it from below.

So the full-width call (`get_evaluation`) is exact. Pruning therefore never
changes the value, and neither does the move ordering.

Modules:

| file | module | source |
|---|---|---|
| constants.dfy | `Constants` | the constants of utils.py |
| board.dfy | `Board` | board geometry and specification functions |
| state.dfy | `State` | `GameState` as a value, its scans as methods, and the mutable object that game.py owns |
| sorting.dfy | `Sorting` | the stable `sorted(..., key=...)` |
| search.dfy | `Search` | minimax and the depth-0 move ordering of `get_legal_actions(sort=True)` |
| agent.dfy | `AI` | `Agent` |
| game.dfy | `Game` | `Connect4Game` |

Search positions are values: `get_new_state` copies the board, so each
recursive frame owns its own board. The game object's board is an
`array2<Cell>` that `make_move` writes in place.

On a position with no legal column, the random agent calls `random.choice`
on an empty list, which raises `IndexError`. The model returns the distinct
`EmptyChoice` result there.

## Model

| member | source | states |
|---|---|---|
| State.Opponent | state.py:17-18 | the turn passed on is always the other player |
| State.MutableGameState.ChangeTurn | state.py:17-18 | the object's turn becomes the opponent of the old turn; the board is not touched |
| State.MutableGameState.constructor | state.py:13-15 | the object holds the given board and turn |
| State.IsWinning | state.py:20-45 | the four scans find a line iff some 4-cell window on the board holds four pieces of the player |
| State.HasFourInScan | state.py:22-25 | one scan reports a line only if one exists, and reports none only if none of the windows it visits holds four |
| Board.ScanWindow | state.py:22-43 | every window the four scans visit lies on the board |
| Board.ScansVisitEachWindowOnce | state.py:22-43 | distinct loop indices of the four scans name distinct windows, so each window is counted once |
| Board.OnBoardIsScanned | state.py:22-43 | every on-board window in the four directions is visited by one of the four scans |
| Board.IsTie | state.py:47-48 | the board counts as a tie exactly when its set of empty cells has size zero, and then no column is legal |
| Board.FullBoard | state.py:47-48 | no empty cell on the board is the same as an empty set of empty cells, and leaves no legal column |
| Board.IsLegalAction | state.py:50-51 | a column with an empty top cell has a lowest empty cell for a piece to fill |
| Board.TieIffNoLegalActions | state.py:47-51 | on a board without floating pieces, no empty cell is left iff no column is legal |
| Board.LegalBelow | state.py:53-57 | the columns below c that have an empty top cell, exactly, in increasing order |
| Board.LegalActions | state.py:53-59 | exactly the columns whose top cell is empty, each once, in increasing order |
| State.CollectLegalActions | state.py:53-59 | the loop over ACTIONS yields exactly the legal columns in increasing order |
| Search.GetLegalActions | state.py:53-62 | without sort, the legal columns in order; with sort, a permutation of them ordered by depth-0 child value, equal values in column order |
| Search.DepthZeroKeys | state.py:62 | the sort key of every legal column, and only of those, is the depth-0 value of its child |
| Search.SortKey | state.py:62 | the key is the depth-0 minimax value of the child the column leads to |
| Search.KeysGiveOrder | state.py:62 | a list sorted by those keys is ordered by depth-0 child value, ties by column |
| Sorting.Insert | state.py:62 | inserting adds exactly that element to the multiset |
| Sorting.InsertSorted | state.py:62 | inserting into a sorted list keeps it sorted |
| Sorting.SortByKey | state.py:62 | the sort returns a permutation of its input |
| Sorting.SortByKeySorted | state.py:62 | the sort's result is sorted by (key, column), which is what a stable sort of increasing columns gives |
| Board.LowestEmptyRow | state.py:67-70 | on a legal column, an empty row with every cell below it occupied |
| Board.Drop | state.py:64-72 | a legal column gets the mover's piece in its lowest empty row and nothing else changes; an illegal column leaves the board as is |
| Board.DropPreservesGravity | state.py:64-72 | dropping a piece keeps every column free of gaps |
| Board.DropFillsOneCell | state.py:64-72 | a legal drop removes exactly one cell, the one it fills, from the set of empty cells |
| State.NextState | state.py:64-72 | a legal column drops the piece and passes the turn; an illegal one returns the same state |
| State.NextStatePreservesGravity | state.py:64-72 | the successor of a board without floating pieces has none either |
| State.GetNewState | state.py:64-72 | the bottom-up copy-and-write loop computes the successor position |
| Search.GetEvaluation | state.py:74-75 | the full-window search returns exactly the unpruned minimax value |
| Board.CountOf | state.py:82-85 | counts the cells of a window that hold a value (at most four); OpenThreeIsCount and OpenTwoIsCount show that the source's explicit patterns are conditions on these counts |
| Board.PatternScore | state.py:82-91 | a window scores +1, -1 or 0 |
| Board.WindowScore | state.py:82-91 | a window on the board scores +1, -1 or 0 |
| State.OpenThreeIsCount | state.py:82-85 | the four explicit three-in-a-row patterns are exactly the windows with three of the player's pieces and one empty cell |
| State.OpenTwoIsCount | state.py:142-147 | the six explicit two-in-a-row patterns are exactly the windows with two of the player's pieces and two empty cells |
| State.SourcePatternsScore | state.py:82-91 | a window's score is +1 for a yellow pattern, else -1 for a red one, else 0, as in the if/elif |
| State.PatternDelta | state.py:82-91 | the if/elif on one window's four cells adds that window's pattern score |
| State.WindowDelta | state.py:82-91 | the if/elif on one window of the board adds that window's pattern score |
| State.CountRow | state.py:81-91 | the inner loop adds up the scores of the windows of one outer index |
| State.CountScan | state.py:80-91 | one scan's nested loops add up the scores of all its windows |
| State.CountScans | state.py:77-135 | the four scans together add up all their window scores |
| State.CountAllScans | state.py:77-135 | the four scans give the board's pattern count |
| State.CountThreeInRow | state.py:77-135 | count_three_in_row is the open-three score, and lies within ±69 |
| State.CountTwoInRow | state.py:137-211 | count_two_in_row is the open-two score, and lies within ±69 |
| Board.RowSumBound | state.py:81-91 | the inner loop of one scan changes the count by at most the number of windows it visits |
| Board.BlockSumBound | state.py:80-91 | one scan changes the count by at most the number of windows it visits |
| Board.WindowCount | state.py:80-133 | the four scans visit 24, 21, 12 and 12 windows |
| Board.PatternCountBound | state.py:77-135 | a pattern count lies within ±69, the number of windows |
| Board.ColumnBalanceBound | state.py:213-222 | n cells of a column contribute at most ±n |
| State.CountCenter | state.py:213-222 | count_center is yellow minus red pieces in column 3, within ±6 |
| Board.Heuristic | ai/minimax.py:19 | the depth-0 formula 100 * threes + 10 * twos + 1 * centre lies within ±7596, strictly between -WIN_SCORE and WIN_SCORE |
| Search.MinimaxValue | ai/minimax.py:9-39 | the unpruned minimax value lies within ±INFINITY |
| Search.ChildValue | ai/minimax.py:25 | the value of a child lies within ±INFINITY |
| Search.MaxOver | ai/minimax.py:22-30 | yellow's maximum over a column list lies within ±INFINITY |
| Search.MinOver | ai/minimax.py:31-39 | red's minimum over a column list lies within ±INFINITY |
| Search.MaxOverIsLargest | ai/minimax.py:23-26 | the maximum is at least every child's value and is -INFINITY or one of them |
| Search.MinOverIsSmallest | ai/minimax.py:32-35 | the minimum is at most every child's value and is INFINITY or one of them |
| Search.MaxOverPermutation | ai/minimax.py:21-26 | yellow's value does not depend on the order in which the columns are tried |
| Search.MinOverPermutation | ai/minimax.py:31-35 | red's value does not depend on the order in which the columns are tried |
| Search.MaxOverBelowAll | ai/minimax.py:24-29 | the maximum over a subset of the columns is no larger than over all of them |
| Search.MinOverAboveAll | ai/minimax.py:33-38 | the minimum over a subset of the columns is no smaller than over all of them |
| Search.YellowNode | ai/minimax.py:21-30 | a non-terminal yellow node above depth 0 takes the maximum over its legal children |
| Search.RedNode | ai/minimax.py:31-39 | a non-terminal red node above depth 0 takes the minimum over its legal children |
| Search.YellowMaximises | ai/minimax.py:22-30 | yellow's value is at least every legal child's value, and is attained by one when any column is legal |
| Search.RedMinimises | ai/minimax.py:31-39 | red's value is at most every legal child's value, and is attained by one when any column is legal |
| Search.ValueWithinWinScores | ai/minimax.py:9-39 | on boards without floating pieces, every value lies within ±WIN_SCORE |
| Search.InnerValueWithinWinScores | ai/minimax.py:21-39 | the same for non-terminal nodes above depth 0, by induction over the children |
| Search.Minimax | ai/minimax.py:9-39 | fail-soft alpha-beta: exact inside the window, a bound outside it; yellow's win gives WIN_SCORE before red's win gives -WIN_SCORE before a full board gives 0; at depth 0 the heuristic |
| Search.SearchChildren | ai/minimax.py:21-39 | the sorted children's loop gives a fail-soft value of a non-terminal node |
| Search.SearchChild | ai/minimax.py:25 | the recursive call gives a fail-soft value of one child |
| Search.MaxChildren | ai/minimax.py:22-30 | yellow's loop with alpha raised and a beta cut-off is fail-soft with respect to the maximum over the columns |
| Search.MinChildren | ai/minimax.py:31-39 | red's loop with beta lowered and an alpha cut-off is fail-soft with respect to the minimum over the columns |
| AI.Agent.constructor | ai/agent.py:11-13 | the agent keeps its algorithm and depth |
| AI.Agent.GetMove | ai/agent.py:16-38 | random mode gives a legal column, or an error when none is legal; minimax mode gives no move without a depth, else the leftmost best column, or no move exactly when no column is legal on a board without floating pieces; any other algorithm gives no move |
| AI.Sentinel | ai/agent.py:24 | the starting evaluation is beyond every score, on the losing side of the mover |
| AI.Evaluations | ai/agent.py:25-27 | one evaluation per legal column |
| AI.EvaluationsAt | ai/agent.py:25-27 | the k-th evaluation is the depth-limited value of the k-th column's child |
| AI.SelectionStep | ai/agent.py:28-35 | a strict improvement moves the choice to the new column, otherwise the choice stays |
| AI.ScanColumns | ai/agent.py:25-35 | the loop selects the first column whose evaluation is strictly best and beats the sentinel, or none |
| AI.BestMove | ai/agent.py:22-36 | minimax mode returns the leftmost column with the best child value for the mover, and None exactly when no column is legal on a board without floating pieces |
| AI.IndexChosen | ai/agent.py:28-35 | the selected index names the best column |
| AI.ChosenUnbeaten | ai/agent.py:28-35 | no legal column has a strictly better value than the chosen one |
| AI.ChosenLeftmost | ai/agent.py:28-35 | every legal column left of the chosen one is strictly worse |
| AI.NoneChosen | ai/agent.py:22-36 | when nothing is selected, no legal column beats the sentinel |
| AI.SomeColumnBeatsSentinel | ai/agent.py:24 | on boards without floating pieces, every legal column beats the sentinel, so a move is found whenever a column is legal |
| Board.EmptyGrid | game.py:13 | the new board has only empty cells |
| Game.Connect4Game.constructor | game.py:12-19 | an empty board, yellow to move, the AI colour only in AI mode, no winner, game not over |
| Board.LowestGap | game.py:22-25 | the bottom-up scan finds the lowest empty cell of the column, or none |
| Board.FillLowestGap | game.py:22-25 | the mover's piece goes into the lowest empty cell and nothing else changes; a full column is left as is |
| Game.Connect4Game.MakeMove | game.py:21-34 | the board gets the piece in the lowest empty cell; a line for the mover ends the game with the mover as winner, else a full board ends it without one, else the turn passes |
| Board.FillIsDrop | game.py:22-25 | make_move's write agrees with get_new_state's on a legal column, and on every column of a board without floating pieces |
| Game.MoveMatchesNewState | game.py:22-25 | on a column that is not full, make_move produces get_new_state's board |
| Game.FullColumnUnchanged | game.py:22-25 | on a full column of a board without floating pieces, make_move leaves the board unchanged before its checks |
| Game.MovePreservesGravity | game.py:22-25 | make_move keeps every column free of gaps |

## Left out

- The board is a numpy float array in the source. Here its cells are the integers 0, 1 and 2, the values the program stores.
- `math.inf` and `-math.inf` become ±`INFINITY`, twice the win score. The search returns ±`INFINITY` only on a board with floating pieces, where a node can have no win, no full board and no legal column; the source returns ±inf there. On every other board each score lies within ±`WIN_SCORE` (Search.ValueWithinWinScores). Mapping inf to `INFINITY` keeps the order of every value the source compares, so each comparison comes out as in the source.
- The uniform distribution of `random.choice` is not modelled. Both random choices become parameters or nondeterministic choices:
  - the random agent picks some legal column;
  - the AI colour of a new AI-mode game is a constructor argument.
- AI.Agent.GetMove: the random mode promises only a legal column, because the choice is random.
- Search.Minimax: negative depths are left out because depth is a `nat`; the source never produces one.
- Search.Minimax: it requires `-INFINITY <= alpha < beta <= INFINITY`. The source's callers always meet this: the initial window is infinite, and a loop breaks as soon as `beta <= alpha`.
- Game.Connect4Game.MakeMove: it requires a column in 0..6. A negative column would wrap around in numpy indexing, and a larger one raises `IndexError`; the event loop (connect4.py) passes only a clicked legal column or the bot's move.
- State.GetNewState: it requires a column in 0..6, for the same reason; the callers pass only legal columns.
- State.GetNewState: for an illegal column the source returns the same object; the model returns an equal value, so object identity is not modelled.
- The GUI (gui.py), the event loop (connect4.py) and the colour and size constants of utils.py are not part of this model.
- The modules' import paths (`ai.state`) are not modelled.
