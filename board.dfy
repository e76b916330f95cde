/**
 * The board and the specifications of the board scans of state.py: the
 * 4-cell windows, four-in-a-row, the full-board test, legal columns, the
 * gravity drop and the pattern counts that feed the heuristic.
 */
module Board {
  import opened Constants

  /** board[i][j] is row i (0 = top) and column j (0 = left). */
  type Grid = seq<seq<Cell>>

  predicate WellFormed(b: Grid) {
    |b| == ROWS && forall i :: 0 <= i < ROWS ==> |b[i]| == COLS
  }

  /** No piece floats: every cell below an occupied cell is occupied. */
  ghost predicate Gravity(b: Grid)
    requires WellFormed(b)
  {
    forall i, k, j :: 0 <= i <= k < ROWS && 0 <= j < COLS && b[i][j] != EMPTY ==> b[k][j] != EMPTY
  }

  /** Two boards with the same cells are the same board. */
  lemma SameCells(g: Grid, h: Grid)
    requires WellFormed(g) && WellFormed(h)
    requires forall i, j :: 0 <= i < ROWS && 0 <= j < COLS ==> g[i][j] == h[i][j]
    ensures g == h
  {
    forall i | 0 <= i < ROWS ensures g[i] == h[i] {
      assert forall j :: 0 <= j < COLS ==> g[i][j] == h[i][j];
    }
  }

  /** The board of a new game. */
  function EmptyGrid(): (b: Grid)
    ensures WellFormed(b)
    ensures forall i, j :: 0 <= i < ROWS && 0 <= j < COLS ==> b[i][j] == EMPTY
  {
    seq(ROWS, i => seq(COLS, j => EMPTY))
  }

  // ---------------------------------------------------------------- windows

  /** Four cells starting at (row, col) and stepping by (dr, dc). */
  datatype Window = Window(row: int, col: int, dr: int, dc: int)

  /** Horizontal, vertical, up-right diagonal and down-right diagonal. */
  predicate IsDirection(dr: int, dc: int) {
    (dr == 0 && dc == 1) || (dr == 1 && dc == 0) || (dr == -1 && dc == 1) || (dr == 1 && dc == 1)
  }

  /** A window in one of the four directions whose four cells all lie on the board. */
  predicate OnBoard(w: Window) {
    && IsDirection(w.dr, w.dc)
    && 0 <= w.row < ROWS && 0 <= w.col < COLS
    && 0 <= w.row + 3 * w.dr < ROWS && 0 <= w.col + 3 * w.dc < COLS
  }

  function Cells(b: Grid, w: Window): (c: seq<Cell>)
    requires WellFormed(b) && OnBoard(w)
    ensures |c| == 4
  {
    [b[w.row][w.col], b[w.row + w.dr][w.col + w.dc],
     b[w.row + 2 * w.dr][w.col + 2 * w.dc], b[w.row + 3 * w.dr][w.col + 3 * w.dc]]
  }

  /** The window holds four pieces of player p. */
  predicate FourOf(b: Grid, w: Window, p: int)
    requires WellFormed(b) && OnBoard(w)
  {
    Cells(b, w) == [p, p, p, p]
  }

  /** Player p has four in a row somewhere on the board. */
  ghost predicate HasFour(b: Grid, p: int)
    requires WellFormed(b)
  {
    exists w: Window :: OnBoard(w) && FourOf(b, w, p)
  }

  /**
   * is_tie: the board is full, that is, the number of empty cells is zero;
   * a full board leaves no column to play.
   */
  predicate IsTie(b: Grid): (r: bool)
    requires WellFormed(b)
    ensures r <==> |EmptyCells(b)| == 0
    ensures r ==> LegalActions(b) == []
  {
    FullBoard(b);
    forall i, j :: 0 <= i < ROWS && 0 <= j < COLS ==> b[i][j] != EMPTY
  }

  /** No empty cell is the same as an empty set of empty cells, and leaves no top cell free. */
  lemma FullBoard(b: Grid)
    requires WellFormed(b)
    ensures (forall i, j :: 0 <= i < ROWS && 0 <= j < COLS ==> b[i][j] != EMPTY) <==> |EmptyCells(b)| == 0
    ensures (forall i, j :: 0 <= i < ROWS && 0 <= j < COLS ==> b[i][j] != EMPTY) ==> LegalActions(b) == []
  {
    forall i, j | 0 <= i < ROWS && 0 <= j < COLS ensures b[i][j] == EMPTY ==> (i, j) in EmptyCells(b) {
    }
    assert |LegalActions(b)| > 0 ==> LegalActions(b)[0] in LegalActions(b);
  }

  // ---------------------------------------------------- the scans' geometry

  /**
   * One of the four nested scans of state.py. The outer loop index runs
   * over [outerLo, outerHi) and the inner one over [0, innerHi); the window
   * visited at (outer, inner) starts at row outer and column inner (row
   * inner and column outer for the column-major vertical scan) and steps by
   * (dr, dc).
   */
  datatype Scan = Scan(outerLo: int, outerHi: int, innerHi: int, columnMajor: bool, dr: int, dc: int)

  const HORIZONTAL: Scan := Scan(0, ROWS, COLS - 3, false, 0, 1)
  const VERTICAL: Scan := Scan(0, COLS, ROWS - 3, true, 1, 0)
  const POSITIVE_DIAGONAL: Scan := Scan(3, ROWS, COLS - 3, false, -1, 1)
  const NEGATIVE_DIAGONAL: Scan := Scan(0, ROWS - 3, COLS - 3, false, 1, 1)

  predicate IsScan(d: Scan) {
    d == HORIZONTAL || d == VERTICAL || d == POSITIVE_DIAGONAL || d == NEGATIVE_DIAGONAL
  }

  predicate InScan(d: Scan, outer: int, inner: int) {
    d.outerLo <= outer < d.outerHi && 0 <= inner < d.innerHi
  }

  /** The window scan d visits at loop indices (outer, inner). */
  function ScanWindow(d: Scan, outer: int, inner: int): (w: Window)
    ensures IsScan(d) && InScan(d, outer, inner) ==> OnBoard(w)
  {
    if d.columnMajor then Window(inner, outer, d.dr, d.dc) else Window(outer, inner, d.dr, d.dc)
  }

  /**
   * The scans visit no window twice: distinct loop indices, in the same scan
   * or in different ones, name distinct windows.
   */
  lemma ScansVisitEachWindowOnce(d1: Scan, o1: int, i1: int, d2: Scan, o2: int, i2: int)
    requires IsScan(d1) && InScan(d1, o1, i1) && IsScan(d2) && InScan(d2, o2, i2)
    requires ScanWindow(d1, o1, i1) == ScanWindow(d2, o2, i2)
    ensures d1 == d2 && o1 == o2 && i1 == i2
  {
  }

  /** The scans miss no window: every window on the board is visited by one of them. */
  lemma OnBoardIsScanned(w: Window) returns (d: Scan, outer: int, inner: int)
    requires OnBoard(w)
    ensures IsScan(d) && InScan(d, outer, inner) && ScanWindow(d, outer, inner) == w
  {
    if w.dr == 0 {
      d, outer, inner := HORIZONTAL, w.row, w.col;
    } else if w.dc == 0 {
      d, outer, inner := VERTICAL, w.col, w.row;
    } else if w.dr == -1 {
      d, outer, inner := POSITIVE_DIAGONAL, w.row, w.col;
    } else {
      d, outer, inner := NEGATIVE_DIAGONAL, w.row, w.col;
    }
  }

  // ------------------------------------------------------- pattern counting

  /** How many of the four cells c0..c3 hold v. */
  function CountOf(c0: Cell, c1: Cell, c2: Cell, c3: Cell, v: int): (n: nat)
    ensures n <= 4
  {
    (if c0 == v then 1 else 0) + (if c1 == v then 1 else 0) + (if c2 == v then 1 else 0) + (if c3 == v then 1 else 0)
  }

  /**
   * The contribution of one window c0..c3 to a pattern count: +1 when it
   * holds exactly `pieces` yellow pieces and nothing else, -1 when it holds
   * exactly `pieces` red pieces and nothing else, 0 otherwise.
   */
  function PatternScore(c0: Cell, c1: Cell, c2: Cell, c3: Cell, pieces: int): (s: int)
    ensures -1 <= s <= 1
  {
    var empty := CountOf(c0, c1, c2, c3, EMPTY);
    if CountOf(c0, c1, c2, c3, YELLOW_NUM) == pieces && empty == 4 - pieces then 1
    else if CountOf(c0, c1, c2, c3, RED_NUM) == pieces && empty == 4 - pieces then -1
    else 0
  }

  /** The contribution of one window on the board to a pattern count. */
  function WindowScore(b: Grid, w: Window, pieces: int): (s: int)
    requires WellFormed(b) && OnBoard(w)
    ensures -1 <= s <= 1
  {
    PatternScore(b[w.row][w.col], b[w.row + w.dr][w.col + w.dc],
      b[w.row + 2 * w.dr][w.col + 2 * w.dc], b[w.row + 3 * w.dr][w.col + 3 * w.dc], pieces)
  }

  /** The pattern scores of the first `inner` windows that row `outer` of scan d visits. */
  function RowSum(b: Grid, d: Scan, outer: int, inner: int, pieces: int): (s: int)
    requires WellFormed(b) && IsScan(d) && d.outerLo <= outer < d.outerHi && 0 <= inner <= d.innerHi
    decreases inner
  {
    if inner == 0 then 0
    else
      assert InScan(d, outer, inner - 1);
      RowSum(b, d, outer, inner - 1, pieces) + WindowScore(b, ScanWindow(d, outer, inner - 1), pieces)
  }

  /** How many windows scan d visits before its outer index reaches hi. */
  function BlockSize(d: Scan, hi: int): int
    requires d.innerHi >= 0
    decreases hi - d.outerLo
  {
    if hi <= d.outerLo then 0 else BlockSize(d, hi - 1) + d.innerHi
  }

  /** The pattern scores of every window scan d visits before its outer index reaches hi. */
  function BlockSum(b: Grid, d: Scan, hi: int, pieces: int): (s: int)
    requires WellFormed(b) && IsScan(d) && hi <= d.outerHi
    decreases hi - d.outerLo
  {
    if hi <= d.outerLo then 0
    else BlockSum(b, d, hi - 1, pieces) + RowSum(b, d, hi - 1, d.innerHi, pieces)
  }

  /** The total of one scan. */
  function ScanSum(b: Grid, d: Scan, pieces: int): int
    requires WellFormed(b) && IsScan(d)
  {
    BlockSum(b, d, d.outerHi, pieces)
  }

  /** A pattern count: the four scans added up in the order state.py runs them. */
  function PatternCount(b: Grid, pieces: int): int
    requires WellFormed(b)
  {
    ScanSum(b, HORIZONTAL, pieces) + ScanSum(b, VERTICAL, pieces)
    + ScanSum(b, POSITIVE_DIAGONAL, pieces) + ScanSum(b, NEGATIVE_DIAGONAL, pieces)
  }

  lemma {:induction false} RowSumBound(b: Grid, d: Scan, outer: int, inner: int, pieces: int)
    requires WellFormed(b) && IsScan(d) && d.outerLo <= outer < d.outerHi && 0 <= inner <= d.innerHi
    ensures -inner <= RowSum(b, d, outer, inner, pieces) <= inner
    decreases inner
  {
    if inner > 0 {
      RowSumBound(b, d, outer, inner - 1, pieces);
      assert InScan(d, outer, inner - 1);
      var w := ScanWindow(d, outer, inner - 1);
      assert RowSum(b, d, outer, inner, pieces) == RowSum(b, d, outer, inner - 1, pieces) + WindowScore(b, w, pieces);
    }
  }

  lemma {:induction false} BlockSumBound(b: Grid, d: Scan, hi: int, pieces: int)
    requires WellFormed(b) && IsScan(d) && hi <= d.outerHi
    ensures -BlockSize(d, hi) <= BlockSum(b, d, hi, pieces) <= BlockSize(d, hi)
    decreases hi - d.outerLo
  {
    if hi > d.outerLo {
      BlockSumBound(b, d, hi - 1, pieces);
      RowSumBound(b, d, hi - 1, d.innerHi, pieces);
    }
  }

  /** The scans visit 24 horizontal, 21 vertical and 12 + 12 diagonal windows: 69 in all. */
  lemma WindowCount()
    ensures BlockSize(HORIZONTAL, ROWS) == 24 && BlockSize(VERTICAL, COLS) == 21
    ensures BlockSize(POSITIVE_DIAGONAL, ROWS) == 12 && BlockSize(NEGATIVE_DIAGONAL, ROWS - 3) == 12
  {
  }

  /** A pattern count lies in [-69, 69]. */
  lemma PatternCountBound(b: Grid, pieces: int)
    requires WellFormed(b)
    ensures -69 <= PatternCount(b, pieces) <= 69
  {
    WindowCount();
    BlockSumBound(b, HORIZONTAL, ROWS, pieces);
    BlockSumBound(b, VERTICAL, COLS, pieces);
    BlockSumBound(b, POSITIVE_DIAGONAL, ROWS, pieces);
    BlockSumBound(b, NEGATIVE_DIAGONAL, ROWS - 3, pieces);
  }

  /** Open threes: windows with three pieces of one colour and one empty cell, yellow minus red. */
  function ThreeInRowScore(b: Grid): int
    requires WellFormed(b)
  {
    PatternCount(b, 3)
  }

  /** Open twos: windows with two pieces of one colour and two empty cells, yellow minus red. */
  function TwoInRowScore(b: Grid): int
    requires WellFormed(b)
  {
    PatternCount(b, 2)
  }

  /** +1 for a yellow piece, -1 for a red piece, 0 for an empty cell. */
  function PieceSign(c: Cell): int {
    if c == YELLOW_NUM then 1 else if c == RED_NUM then -1 else 0
  }

  /** The signed piece count of the top n cells of column col. */
  function ColumnBalance(b: Grid, col: int, n: int): int
    requires WellFormed(b) && 0 <= col < COLS && 0 <= n <= ROWS
  {
    if n == 0 then 0 else ColumnBalance(b, col, n - 1) + PieceSign(b[n - 1][col])
  }

  lemma {:induction false} ColumnBalanceBound(b: Grid, col: int, n: int)
    requires WellFormed(b) && 0 <= col < COLS && 0 <= n <= ROWS
    ensures -n <= ColumnBalance(b, col, n) <= n
  {
    if n > 0 {
      ColumnBalanceBound(b, col, n - 1);
    }
  }

  /** Yellow pieces minus red pieces in the centre column. */
  function CenterScore(b: Grid): int
    requires WellFormed(b)
  {
    ColumnBalance(b, CENTER_COL, ROWS)
  }

  /**
   * The depth-0 evaluation of a non-terminal board. It never reaches a win
   * score: |h| <= 100*69 + 10*69 + 6 = 7596.
   */
  function Heuristic(b: Grid): (h: int)
    requires WellFormed(b)
    ensures -7596 <= h <= 7596
    ensures -WIN_SCORE < h < WIN_SCORE
  {
    PatternCountBound(b, 3);
    PatternCountBound(b, 2);
    ColumnBalanceBound(b, CENTER_COL, ROWS);
    THREE_IN_ROW_MULT * ThreeInRowScore(b) + TWO_IN_ROW_MULT * TwoInRowScore(b) + CENTER_MULT * CenterScore(b)
  }

  // ------------------------------------------------------ legality and drop

  /** is_legal_action: the column's top cell is empty, so it has a cell to fill. */
  predicate IsLegalAction(b: Grid, a: int): (r: bool)
    requires WellFormed(b) && 0 <= a < COLS
    ensures r ==> LowestGap(b, a, ROWS - 1) >= 0
  {
    b[0][a] == EMPTY
  }

  /** The legal columns below c, in increasing order. */
  function LegalBelow(b: Grid, c: int): (r: seq<int>)
    requires WellFormed(b) && 0 <= c <= COLS
    ensures forall a :: a in r <==> 0 <= a < c && b[0][a] == EMPTY
    ensures forall i, j :: 0 <= i < j < |r| ==> r[i] < r[j]
  {
    if c == 0 then []
    else
      var init := LegalBelow(b, c - 1);
      assert forall k :: 0 <= k < |init| ==> init[k] < c - 1 by {
        forall k | 0 <= k < |init| ensures init[k] < c - 1 {
          assert init[k] in init;
        }
      }
      init + (if b[0][c - 1] == EMPTY then [c - 1] else [])
  }

  /** The columns whose top cell is empty, in increasing order. */
  function LegalActions(b: Grid): (r: seq<int>)
    requires WellFormed(b)
    ensures forall a :: a in r <==> 0 <= a < COLS && IsLegalAction(b, a)
    ensures forall i :: 0 <= i < |r| ==> 0 <= r[i] < COLS && IsLegalAction(b, r[i])
    ensures forall i, j :: 0 <= i < j < |r| ==> r[i] < r[j]
  {
    var r := LegalBelow(b, COLS);
    assert forall i :: 0 <= i < |r| ==> r[i] in r;
    r
  }

  /**
   * The lowest empty cell of column c at or above row i, scanning upwards
   * from row i; -1 when there is none.
   */
  function LowestGap(b: Grid, c: int, i: int): (r: int)
    requires WellFormed(b) && 0 <= c < COLS && -1 <= i < ROWS
    ensures -1 <= r <= i
    ensures r >= 0 ==> b[r][c] == EMPTY
    ensures forall k :: r < k <= i ==> b[k][c] != EMPTY
    decreases i
  {
    if i < 0 then -1 else if b[i][c] == EMPTY then i else LowestGap(b, c, i - 1)
  }

  /** The row a piece dropped into the (legal) column c lands in. */
  function LowestEmptyRow(b: Grid, c: int): (r: int)
    requires WellFormed(b) && 0 <= c < COLS && IsLegalAction(b, c)
    ensures 0 <= r < ROWS && b[r][c] == EMPTY
    ensures forall k :: r < k < ROWS ==> b[k][c] != EMPTY
  {
    LowestGap(b, c, ROWS - 1)
  }

  /**
   * The board after player p's piece is written into the lowest empty cell
   * of column c, whatever the cells above it hold; unchanged when column c
   * has no empty cell.
   */
  function FillLowestGap(b: Grid, c: int, p: Player): (nb: Grid)
    requires WellFormed(b) && 0 <= c < COLS
    ensures WellFormed(nb)
    ensures LowestGap(b, c, ROWS - 1) < 0 ==> nb == b
    ensures LowestGap(b, c, ROWS - 1) >= 0 ==>
      var r := LowestGap(b, c, ROWS - 1);
      && nb[r][c] == p
      && forall i, j :: 0 <= i < ROWS && 0 <= j < COLS && (i != r || j != c) ==> nb[i][j] == b[i][j]
  {
    var r := LowestGap(b, c, ROWS - 1);
    if r < 0 then b
    else
      var cell: Cell := p;
      var row: seq<Cell> := b[r][c := cell];
      b[r := row]
  }

  /** The board after player p drops a piece into column c: gravity places it on the lowest empty row. */
  function Drop(b: Grid, c: int, p: Player): (nb: Grid)
    requires WellFormed(b) && 0 <= c < COLS
    ensures WellFormed(nb)
    ensures !IsLegalAction(b, c) ==> nb == b
    ensures IsLegalAction(b, c) ==>
      var r := LowestEmptyRow(b, c);
      && nb[r][c] == p
      && forall i, j :: 0 <= i < ROWS && 0 <= j < COLS && (i != r || j != c) ==> nb[i][j] == b[i][j]
  {
    if IsLegalAction(b, c) then FillLowestGap(b, c, p) else b
  }

  /**
   * Without a legality test, filling the lowest gap is the same as a drop on
   * a legal column, and on every column of a board without floating pieces.
   */
  lemma FillIsDrop(b: Grid, c: int, p: Player)
    requires WellFormed(b) && 0 <= c < COLS
    requires IsLegalAction(b, c) || Gravity(b)
    ensures FillLowestGap(b, c, p) == Drop(b, c, p)
  {

  }

  /** Dropping a piece keeps every column free of gaps. */
  lemma DropPreservesGravity(b: Grid, c: int, p: Player)
    requires WellFormed(b) && 0 <= c < COLS && Gravity(b)
    ensures Gravity(Drop(b, c, p))
  {
    var nb := Drop(b, c, p);
    if IsLegalAction(b, c) {
      var r := LowestEmptyRow(b, c);
      forall i, k, j | 0 <= i <= k < ROWS && 0 <= j < COLS && nb[i][j] != EMPTY
        ensures nb[k][j] != EMPTY
      {
        if j == c && k == r {
          assert nb[r][c] == p;
        } else if j == c && i == r {
          assert r < k && b[k][j] != EMPTY;
        } else {
          assert b[i][j] != EMPTY;
        }
      }
    }
  }

  /** A legal drop fills exactly one empty cell: the number of empty cells falls by one. */
  lemma DropFillsOneCell(b: Grid, c: int, p: Player)
    requires WellFormed(b) && 0 <= c < COLS && IsLegalAction(b, c)
    ensures EmptyCells(Drop(b, c, p)) == EmptyCells(b) - {(LowestEmptyRow(b, c), c)}
    ensures (LowestEmptyRow(b, c), c) in EmptyCells(b)
  {
    var nb := Drop(b, c, p);
    var r := LowestEmptyRow(b, c);
    forall cell | cell in EmptyCells(b) - {(r, c)} ensures cell in EmptyCells(nb) {
      assert nb[cell.0][cell.1] == b[cell.0][cell.1];
    }
  }

  ghost function EmptyCells(b: Grid): set<(int, int)>
    requires WellFormed(b)
  {
    set i, j | 0 <= i < ROWS && 0 <= j < COLS && b[i][j] == EMPTY :: (i, j)
  }

  /** Under gravity a board is full exactly when no column is legal. */
  lemma TieIffNoLegalActions(b: Grid)
    requires WellFormed(b) && Gravity(b)
    ensures IsTie(b) <==> LegalActions(b) == []
  {
    if LegalActions(b) == [] {
      forall i, j | 0 <= i < ROWS && 0 <= j < COLS ensures b[i][j] != EMPTY {
        assert j !in LegalActions(b);
      }
    } else {
      assert LegalActions(b)[0] in LegalActions(b);
    }
  }
}
