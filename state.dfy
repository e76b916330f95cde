/**
 * GameState (state.py): a board with the player to move, its successor
 * function, and the nested-loop scans for four-in-a-row and the heuristic
 * pattern counts, each proved equal to its window-based specification.
 */
module State {
  import opened Constants
  import opened Board

  /** A position: an owned board snapshot and the player to move. */
  datatype GameState = GameState(board: Grid, turn: Player)

  /** change_turn: yellow passes to red and red to yellow. */
  function Opponent(p: Player): (q: Player)
    ensures q != p
  {
    if p == YELLOW_NUM then RED_NUM else YELLOW_NUM
  }

  /**
   * get_new_state, as a value: a legal column drops the mover's piece and
   * passes the turn; an illegal one gives back the same state.
   */
  function NextState(s: GameState, a: int): (t: GameState)
    requires WellFormed(s.board) && 0 <= a < COLS
    ensures WellFormed(t.board)
    ensures !IsLegalAction(s.board, a) ==> t == s
    ensures IsLegalAction(s.board, a) ==> t.board == Drop(s.board, a, s.turn) && t.turn == Opponent(s.turn)
  {
    if IsLegalAction(s.board, a) then GameState(Drop(s.board, a, s.turn), Opponent(s.turn)) else s
  }

  lemma NextStatePreservesGravity(s: GameState, a: int)
    requires WellFormed(s.board) && 0 <= a < COLS && Gravity(s.board)
    ensures Gravity(NextState(s, a).board)
  {
    DropPreservesGravity(s.board, a, s.turn);
  }

  /** get_new_state: copy the board, then write the mover's piece into the lowest empty row, scanning bottom-up. */
  method GetNewState(s: GameState, action: int) returns (t: GameState)
    requires WellFormed(s.board) && 0 <= action < COLS
    ensures t == NextState(s, action)
  {
    if IsLegalAction(s.board, action) {
      var newBoard := s.board;
      var i := ROWS - 1;
      while i >= 0
        invariant -1 <= i < ROWS
        invariant newBoard == s.board
        invariant forall k :: i < k < ROWS ==> s.board[k][action] != EMPTY
      {
        if newBoard[i][action] == EMPTY {
          var cell: Cell := s.turn;
          var row: seq<Cell> := newBoard[i][action := cell];
          newBoard := newBoard[i := row];
          break;
        }
        i := i - 1;
      }
      return GameState(newBoard, if s.turn == RED_NUM then YELLOW_NUM else RED_NUM);
    }
    return s;
  }

  /** get_legal_actions without sorting: every column of ACTIONS in turn, kept when its top cell is empty. */
  method CollectLegalActions(b: Grid) returns (legal: seq<int>)
    requires WellFormed(b)
    ensures legal == LegalActions(b)
  {
    legal := [];
    var action := 0;
    while action < COLS
      invariant 0 <= action <= COLS
      invariant legal == LegalBelow(b, action)
    {
      if IsLegalAction(b, action) {
        legal := legal + [action];
      }
      action := action + 1;
    }
  }

  // ------------------------------------------------------------ is_winning

  /** is_winning: the four directional scans, each returning as soon as it finds a line. */
  method IsWinning(b: Grid, p: Player) returns (r: bool)
    requires WellFormed(b)
    ensures r == HasFour(b, p)
  {
    var h := HasFourInScan(b, HORIZONTAL, p);
    if h { return true; }
    var v := HasFourInScan(b, VERTICAL, p);
    if v { return true; }
    var pd := HasFourInScan(b, POSITIVE_DIAGONAL, p);
    if pd { return true; }
    var nd := HasFourInScan(b, NEGATIVE_DIAGONAL, p);
    if nd { return true; }
    forall w | OnBoard(w) ensures !FourOf(b, w, p) {
      var d, o, k := OnBoardIsScanned(w);
    }
    return false;
  }

  /** One of is_winning's four nested scans. */
  method HasFourInScan(b: Grid, d: Scan, p: Player) returns (found: bool)
    requires WellFormed(b) && IsScan(d)
    ensures found ==> HasFour(b, p)
    ensures !found ==> forall o, k :: InScan(d, o, k) ==> !FourOf(b, ScanWindow(d, o, k), p)
  {
    var i := d.outerLo;
    while i < d.outerHi
      invariant d.outerLo <= i <= d.outerHi
      invariant forall o, k :: InScan(d, o, k) && o < i ==> !FourOf(b, ScanWindow(d, o, k), p)
    {
      var j := 0;
      while j < d.innerHi
        invariant 0 <= j <= d.innerHi
        invariant forall o, k :: InScan(d, o, k) && (o < i || (o == i && k < j)) ==> !FourOf(b, ScanWindow(d, o, k), p)
      {
        var w := ScanWindow(d, i, j);
        assert InScan(d, i, j);
        if b[w.row][w.col] == p && b[w.row + w.dr][w.col + w.dc] == p
          && b[w.row + 2 * w.dr][w.col + 2 * w.dc] == p && b[w.row + 3 * w.dr][w.col + 3 * w.dc] == p
        {
          assert FourOf(b, w, p);
          return true;
        }
        j := j + 1;
      }
      i := i + 1;
    }
    return false;
  }

  // ------------------------------------------------------- pattern counts

  /** count_three_in_row's four explicit patterns: three pieces of p and one empty cell. */
  predicate OpenThree(c0: Cell, c1: Cell, c2: Cell, c3: Cell, p: Player) {
    || (c0 == EMPTY && c1 == p && c2 == p && c3 == p)
    || (c0 == p && c1 == EMPTY && c2 == p && c3 == p)
    || (c0 == p && c1 == p && c2 == EMPTY && c3 == p)
    || (c0 == p && c1 == p && c2 == p && c3 == EMPTY)
  }

  /** count_two_in_row's six explicit patterns: two pieces of p and two empty cells. */
  predicate OpenTwo(c0: Cell, c1: Cell, c2: Cell, c3: Cell, p: Player) {
    || (c0 == EMPTY && c1 == EMPTY && c2 == p && c3 == p)
    || (c0 == EMPTY && c1 == p && c2 == EMPTY && c3 == p)
    || (c0 == EMPTY && c1 == p && c2 == p && c3 == EMPTY)
    || (c0 == p && c1 == EMPTY && c2 == EMPTY && c3 == p)
    || (c0 == p && c1 == EMPTY && c2 == p && c3 == EMPTY)
    || (c0 == p && c1 == p && c2 == EMPTY && c3 == EMPTY)
  }

  /** The four explicit patterns are exactly the windows with three pieces of p and one empty cell. */
  lemma OpenThreeIsCount(c0: Cell, c1: Cell, c2: Cell, c3: Cell, p: Player)
    ensures OpenThree(c0, c1, c2, c3, p) <==> CountOf(c0, c1, c2, c3, p) == 3 && CountOf(c0, c1, c2, c3, EMPTY) == 1
  {
  }

  /** The six explicit patterns are exactly the windows with two pieces of p and two empty cells. */
  lemma OpenTwoIsCount(c0: Cell, c1: Cell, c2: Cell, c3: Cell, p: Player)
    ensures OpenTwo(c0, c1, c2, c3, p) <==> CountOf(c0, c1, c2, c3, p) == 2 && CountOf(c0, c1, c2, c3, EMPTY) == 2
  {
  }

  /** The source's if/elif over the explicit patterns scores a window as PatternScore does. */
  lemma SourcePatternsScore(c0: Cell, c1: Cell, c2: Cell, c3: Cell, pieces: int)
    requires pieces == 3 || pieces == 2
    ensures PatternScore(c0, c1, c2, c3, pieces) ==
      if (pieces == 3 && OpenThree(c0, c1, c2, c3, YELLOW_NUM)) || (pieces == 2 && OpenTwo(c0, c1, c2, c3, YELLOW_NUM)) then 1
      else if (pieces == 3 && OpenThree(c0, c1, c2, c3, RED_NUM)) || (pieces == 2 && OpenTwo(c0, c1, c2, c3, RED_NUM)) then -1
      else 0
  {
    OpenThreeIsCount(c0, c1, c2, c3, YELLOW_NUM);
    OpenThreeIsCount(c0, c1, c2, c3, RED_NUM);
    OpenTwoIsCount(c0, c1, c2, c3, YELLOW_NUM);
    OpenTwoIsCount(c0, c1, c2, c3, RED_NUM);
  }

  /** count_three_in_row: +1 per open yellow three, -1 per open red three. */
  method CountThreeInRow(b: Grid) returns (count: int)
    requires WellFormed(b)
    ensures count == ThreeInRowScore(b)
    ensures -69 <= count <= 69
  {
    count := CountAllScans(b, 3);
    PatternCountBound(b, 3);
  }

  /** count_two_in_row: +1 per open yellow two, -1 per open red two. */
  method CountTwoInRow(b: Grid) returns (count: int)
    requires WellFormed(b)
    ensures count == TwoInRowScore(b)
    ensures -69 <= count <= 69
  {
    count := CountAllScans(b, 2);
    PatternCountBound(b, 2);
  }

  /** The four scans of a pattern count, added up in the source's order. */
  method CountAllScans(b: Grid, pieces: int) returns (count: int)
    requires WellFormed(b) && (pieces == 3 || pieces == 2)
    ensures count == PatternCount(b, pieces)
  {
    count := CountScans(b, HORIZONTAL, VERTICAL, POSITIVE_DIAGONAL, NEGATIVE_DIAGONAL, pieces);
  }

  /** Runs four scans one after the other and adds up their counts. */
  method CountScans(b: Grid, d1: Scan, d2: Scan, d3: Scan, d4: Scan, pieces: int) returns (count: int)
    requires WellFormed(b) && IsScan(d1) && IsScan(d2) && IsScan(d3) && IsScan(d4) && (pieces == 3 || pieces == 2)
    ensures count == ScanSum(b, d1, pieces) + ScanSum(b, d2, pieces) + ScanSum(b, d3, pieces) + ScanSum(b, d4, pieces)
  {
    var h := CountScan(b, d1, pieces);
    var v := CountScan(b, d2, pieces);
    var pd := CountScan(b, d3, pieces);
    var nd := CountScan(b, d4, pieces);
    count := h + v + pd + nd;
  }

  /** One nested scan of a pattern count. */
  method CountScan(b: Grid, d: Scan, pieces: int) returns (count: int)
    requires WellFormed(b) && IsScan(d) && (pieces == 3 || pieces == 2)
    ensures count == ScanSum(b, d, pieces)
  {
    count := 0;
    var i := d.outerLo;
    while i < d.outerHi
      invariant d.outerLo <= i <= d.outerHi
      invariant count == BlockSum(b, d, i, pieces)
    {
      var row := CountRow(b, d, i, pieces);
      count := count + row;
      BlockStep(b, d, i, pieces);
      i := i + 1;
    }
  }

  /** The inner loop of a scan, at outer index i. */
  method CountRow(b: Grid, d: Scan, i: int, pieces: int) returns (count: int)
    requires WellFormed(b) && IsScan(d) && d.outerLo <= i < d.outerHi && (pieces == 3 || pieces == 2)
    ensures count == RowSum(b, d, i, d.innerHi, pieces)
  {
    count := 0;
    var j := 0;
    while j < d.innerHi
      invariant 0 <= j <= d.innerHi
      invariant count == RowSum(b, d, i, j, pieces)
    {
      RowStep(b, d, i, j, pieces);
      var delta := WindowDelta(b, ScanWindow(d, i, j), pieces);
      count := count + delta;
      j := j + 1;
    }
  }

  lemma RowStep(b: Grid, d: Scan, i: int, j: int, pieces: int)
    requires WellFormed(b) && IsScan(d) && InScan(d, i, j)
    ensures OnBoard(ScanWindow(d, i, j))
    ensures RowSum(b, d, i, j + 1, pieces) == RowSum(b, d, i, j, pieces) + WindowScore(b, ScanWindow(d, i, j), pieces)
  {
  }

  lemma BlockStep(b: Grid, d: Scan, i: int, pieces: int)
    requires WellFormed(b) && IsScan(d) && d.outerLo <= i < d.outerHi
    ensures BlockSum(b, d, i + 1, pieces) == BlockSum(b, d, i, pieces) + RowSum(b, d, i, d.innerHi, pieces)
  {
  }

  /** One scan step: reads the window's four cells and scores them. */
  method WindowDelta(b: Grid, w: Window, pieces: int) returns (delta: int)
    requires WellFormed(b) && OnBoard(w) && (pieces == 3 || pieces == 2)
    ensures delta == WindowScore(b, w, pieces)
  {
    delta := PatternDelta(b[w.row][w.col], b[w.row + w.dr][w.col + w.dc],
      b[w.row + 2 * w.dr][w.col + 2 * w.dc], b[w.row + 3 * w.dr][w.col + 3 * w.dc], pieces);
  }

  /** The if/elif of a scan step: +1 for a yellow pattern, -1 for a red one, otherwise 0. */
  method PatternDelta(c0: Cell, c1: Cell, c2: Cell, c3: Cell, pieces: int) returns (delta: int)
    requires pieces == 3 || pieces == 2
    ensures delta == PatternScore(c0, c1, c2, c3, pieces)
  {
    SourcePatternsScore(c0, c1, c2, c3, pieces);
    if (pieces == 3 && OpenThree(c0, c1, c2, c3, YELLOW_NUM)) || (pieces == 2 && OpenTwo(c0, c1, c2, c3, YELLOW_NUM)) {
      delta := 1;
    } else if (pieces == 3 && OpenThree(c0, c1, c2, c3, RED_NUM)) || (pieces == 2 && OpenTwo(c0, c1, c2, c3, RED_NUM)) {
      delta := -1;
    } else {
      delta := 0;
    }
  }


  /** count_center: +1 per yellow piece and -1 per red piece in the centre column. */
  method CountCenter(b: Grid) returns (count: int)
    requires WellFormed(b)
    ensures count == CenterScore(b)
    ensures -ROWS <= count <= ROWS
  {
    count := 0;
    var j := CENTER_COL;
    var i := 0;
    while i < ROWS
      invariant 0 <= i <= ROWS
      invariant count == ColumnBalance(b, j, i)
    {
      if b[i][j] == YELLOW_NUM {
        count := count + 1;
      } else if b[i][j] == RED_NUM {
        count := count - 1;
      }
      i := i + 1;
    }
    ColumnBalanceBound(b, CENTER_COL, ROWS);
  }

  // --------------------------------------------------- the mutable object

  /**
   * The GameState object a running game owns: its board is updated in
   * place and change_turn overwrites its turn.
   */
  class MutableGameState {
    const board: array2<Cell>
    var turn: Player

    ghost predicate Valid() {
      board.Length0 == ROWS && board.Length1 == COLS
    }

    constructor (board: array2<Cell>, turn: Player)
      ensures this.board == board && this.turn == turn
    {
      this.board := board;
      this.turn := turn;
    }

    /** The board's current contents as a value. */
    function Grid(): (g: Grid)
      requires Valid()
      reads board
      ensures WellFormed(g)
      ensures forall i, j :: 0 <= i < ROWS && 0 <= j < COLS ==> g[i][j] == board[i, j]
    {
      seq(ROWS, i requires 0 <= i < ROWS reads board =>
        seq(COLS, j requires 0 <= j < COLS reads board => board[i, j]))
    }

    /** change_turn: the turn passes to the other player; the board is untouched. */
    method ChangeTurn()
      modifies this
      ensures turn == Opponent(old(turn))
    {
      turn := if turn == YELLOW_NUM then RED_NUM else YELLOW_NUM;
    }
  }
}
