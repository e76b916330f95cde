/**
 * The minimax search (ai/minimax.py) with get_legal_actions and
 * get_evaluation (state.py), which call it and are called by it.
 *
 * MinimaxValue is the unpruned game-tree value the search stands for; the
 * fail-soft alpha-beta method Minimax is proved against it.
 */
module Search {
  import opened Constants
  import opened Board
  import opened State
  import opened Sorting

  // ----------------------------------------------------- the reference value

  /**
   * The value of s searched to the given depth: a yellow four-in-a-row
   * first, then a red one, then a full board, then the heuristic at depth 0;
   * otherwise the best child for the player to move, yellow maximising.
   */
  ghost function MinimaxValue(s: GameState, depth: nat): (v: int)
    requires WellFormed(s.board)
    ensures -INFINITY <= v <= INFINITY
    decreases depth, 1
  {
    if HasFour(s.board, YELLOW_NUM) then WIN_SCORE
    else if HasFour(s.board, RED_NUM) then -WIN_SCORE
    else if IsTie(s.board) then 0
    else if depth == 0 then Heuristic(s.board)
    else if s.turn == YELLOW_NUM then MaxOver(s, LegalActions(s.board), depth - 1)
    else MinOver(s, LegalActions(s.board), depth - 1)
  }

  predicate AllColumns(acts: seq<int>) {
    forall i :: 0 <= i < |acts| ==> 0 <= acts[i] < COLS
  }

  /** The value of the child reached by playing column a. */
  ghost function ChildValue(s: GameState, a: int, depth: nat): (v: int)
    requires WellFormed(s.board) && 0 <= a < COLS
    ensures -INFINITY <= v <= INFINITY
    decreases depth, 2
  {
    MinimaxValue(NextState(s, a), depth)
  }

  /** The largest child value over acts; -infinity when acts is empty. */
  ghost function MaxOver(s: GameState, acts: seq<int>, depth: nat): (v: int)
    requires WellFormed(s.board) && AllColumns(acts)
    ensures -INFINITY <= v <= INFINITY
    decreases depth + 1, 0, |acts|
  {
    if acts == [] then -INFINITY
    else Max(MaxOver(s, acts[..|acts| - 1], depth), ChildValue(s, acts[|acts| - 1], depth))
  }

  /** The smallest child value over acts; +infinity when acts is empty. */
  ghost function MinOver(s: GameState, acts: seq<int>, depth: nat): (v: int)
    requires WellFormed(s.board) && AllColumns(acts)
    ensures -INFINITY <= v <= INFINITY
    decreases depth + 1, 0, |acts|
  {
    if acts == [] then INFINITY
    else Min(MinOver(s, acts[..|acts| - 1], depth), ChildValue(s, acts[|acts| - 1], depth))
  }

  /** MaxOver is the largest child value: above every child and equal to one of them (or -infinity). */
  lemma {:induction false} MaxOverIsLargest(s: GameState, acts: seq<int>, depth: nat)
    requires WellFormed(s.board) && AllColumns(acts)
    ensures forall i :: 0 <= i < |acts| ==> ChildValue(s, acts[i], depth) <= MaxOver(s, acts, depth)
    ensures MaxOver(s, acts, depth) == -INFINITY
      || exists i :: 0 <= i < |acts| && MaxOver(s, acts, depth) == ChildValue(s, acts[i], depth)
    decreases |acts|
  {
    if acts != [] {
      var init := acts[..|acts| - 1];
      MaxOverIsLargest(s, init, depth);
      forall i | 0 <= i < |acts| ensures ChildValue(s, acts[i], depth) <= MaxOver(s, acts, depth) {
        if i < |acts| - 1 {
          assert acts[i] == init[i];
        }
      }
      if MaxOver(s, acts, depth) != ChildValue(s, acts[|acts| - 1], depth) && MaxOver(s, init, depth) != -INFINITY {
        var i :| 0 <= i < |init| && MaxOver(s, init, depth) == ChildValue(s, init[i], depth);
        assert init[i] == acts[i];
      }
    }
  }

  /** MinOver is the smallest child value: below every child and equal to one of them (or +infinity). */
  lemma {:induction false} MinOverIsSmallest(s: GameState, acts: seq<int>, depth: nat)
    requires WellFormed(s.board) && AllColumns(acts)
    ensures forall i :: 0 <= i < |acts| ==> MinOver(s, acts, depth) <= ChildValue(s, acts[i], depth)
    ensures MinOver(s, acts, depth) == INFINITY
      || exists i :: 0 <= i < |acts| && MinOver(s, acts, depth) == ChildValue(s, acts[i], depth)
    decreases |acts|
  {
    if acts != [] {
      var init := acts[..|acts| - 1];
      MinOverIsSmallest(s, init, depth);
      forall i | 0 <= i < |acts| ensures MinOver(s, acts, depth) <= ChildValue(s, acts[i], depth) {
        if i < |acts| - 1 {
          assert acts[i] == init[i];
        }
      }
      if MinOver(s, acts, depth) != ChildValue(s, acts[|acts| - 1], depth) && MinOver(s, init, depth) != INFINITY {
        var i :| 0 <= i < |init| && MinOver(s, init, depth) == ChildValue(s, init[i], depth);
        assert init[i] == acts[i];
      }
    }
  }

  /** The order in which the children are listed does not change the maximum. */
  lemma MaxOverPermutation(s: GameState, xs: seq<int>, ys: seq<int>, depth: nat)
    requires WellFormed(s.board) && AllColumns(xs) && multiset(xs) == multiset(ys)
    ensures AllColumns(ys)
    ensures MaxOver(s, xs, depth) == MaxOver(s, ys, depth)
  {
    ColumnsOfPermutation(xs, ys);
    MaxOverBelowAll(s, xs, ys, depth);
    MaxOverBelowAll(s, ys, xs, depth);
  }

  /** A reordering of a list of columns is a list of columns. */
  lemma ColumnsOfPermutation(xs: seq<int>, ys: seq<int>)
    requires AllColumns(xs) && multiset(xs) == multiset(ys)
    ensures AllColumns(ys)
    ensures forall a :: a in xs <==> a in ys
  {
    assert forall a :: a in xs <==> a in ys by {
      forall a ensures a in xs <==> a in ys {
        assert a in xs <==> a in multiset(xs);
        assert a in ys <==> a in multiset(ys);
      }
    }
    ColumnsOfSubset(xs, ys);
  }

  /** A list whose elements all occur in a list of columns is a list of columns. */
  lemma ColumnsOfSubset(xs: seq<int>, ys: seq<int>)
    requires AllColumns(xs) && forall a :: a in ys ==> a in xs
    ensures AllColumns(ys)
  {
    forall i | 0 <= i < |ys| ensures 0 <= ys[i] < COLS {
      assert ys[i] in ys;
      var j :| 0 <= j < |xs| && xs[j] == ys[i];
    }
  }

  lemma MaxOverBelowAll(s: GameState, xs: seq<int>, ys: seq<int>, depth: nat)
    requires WellFormed(s.board) && AllColumns(xs) && AllColumns(ys)
    requires forall a :: a in ys ==> a in xs
    ensures MaxOver(s, ys, depth) <= MaxOver(s, xs, depth)
  {
    MaxOverIsLargest(s, xs, depth);
    MaxOverIsLargest(s, ys, depth);
    if MaxOver(s, ys, depth) != -INFINITY {
      var j :| 0 <= j < |ys| && MaxOver(s, ys, depth) == ChildValue(s, ys[j], depth);
      assert ys[j] in xs;
      var i :| 0 <= i < |xs| && xs[i] == ys[j];
    }
  }

  /** The order in which the children are listed does not change the minimum. */
  lemma MinOverPermutation(s: GameState, xs: seq<int>, ys: seq<int>, depth: nat)
    requires WellFormed(s.board) && AllColumns(xs) && multiset(xs) == multiset(ys)
    ensures AllColumns(ys)
    ensures MinOver(s, xs, depth) == MinOver(s, ys, depth)
  {
    ColumnsOfPermutation(xs, ys);
    MinOverAboveAll(s, xs, ys, depth);
    MinOverAboveAll(s, ys, xs, depth);
  }

  lemma MinOverAboveAll(s: GameState, xs: seq<int>, ys: seq<int>, depth: nat)
    requires WellFormed(s.board) && AllColumns(xs) && AllColumns(ys)
    requires forall a :: a in ys ==> a in xs
    ensures MinOver(s, xs, depth) <= MinOver(s, ys, depth)
  {
    MinOverIsSmallest(s, xs, depth);
    MinOverIsSmallest(s, ys, depth);
    if MinOver(s, ys, depth) != INFINITY {
      var j :| 0 <= j < |ys| && MinOver(s, ys, depth) == ChildValue(s, ys[j], depth);
      assert ys[j] in xs;
      var i :| 0 <= i < |xs| && xs[i] == ys[j];
    }
  }

  /** Below a node that is not terminal, with yellow to move, the value is the best child for yellow. */
  lemma YellowNode(s: GameState, d: nat)
    requires WellFormed(s.board) && s.turn == YELLOW_NUM
    requires !HasFour(s.board, YELLOW_NUM) && !HasFour(s.board, RED_NUM) && !IsTie(s.board)
    ensures MinimaxValue(s, d + 1) == MaxOver(s, LegalActions(s.board), d)
  {
  }

  /** Below a node that is not terminal, with red to move, the value is the best child for red. */
  lemma RedNode(s: GameState, d: nat)
    requires WellFormed(s.board) && s.turn == RED_NUM
    requires !HasFour(s.board, YELLOW_NUM) && !HasFour(s.board, RED_NUM) && !IsTie(s.board)
    ensures MinimaxValue(s, d + 1) == MinOver(s, LegalActions(s.board), d)
  {
  }

  /**
   * Yellow maximises: below a node that is not terminal, the value is at
   * least every legal child's value and, when there is a legal move, equal
   * to one of them.
   */
  lemma YellowMaximises(s: GameState, d: nat)
    requires WellFormed(s.board) && s.turn == YELLOW_NUM
    requires !HasFour(s.board, YELLOW_NUM) && !HasFour(s.board, RED_NUM) && !IsTie(s.board)
    ensures forall a :: 0 <= a < COLS && IsLegalAction(s.board, a) ==> ChildValue(s, a, d) <= MinimaxValue(s, d + 1)
    ensures LegalActions(s.board) != [] ==>
      exists a :: 0 <= a < COLS && IsLegalAction(s.board, a) && MinimaxValue(s, d + 1) == ChildValue(s, a, d)
  {
    var acts := LegalActions(s.board);
    YellowNode(s, d);
    MaxOverIsLargest(s, acts, d);
    forall a | 0 <= a < COLS && IsLegalAction(s.board, a) ensures ChildValue(s, a, d) <= MinimaxValue(s, d + 1) {
      assert a in acts;
      var i :| 0 <= i < |acts| && acts[i] == a;
    }
    if acts != [] && MaxOver(s, acts, d) == -INFINITY {
      assert ChildValue(s, acts[0], d) == MaxOver(s, acts, d);
    }
  }

  /**
   * Red minimises: below a node that is not terminal, the value is at most
   * every legal child's value and, when there is a legal move, equal to one
   * of them.
   */
  lemma RedMinimises(s: GameState, d: nat)
    requires WellFormed(s.board) && s.turn == RED_NUM
    requires !HasFour(s.board, YELLOW_NUM) && !HasFour(s.board, RED_NUM) && !IsTie(s.board)
    ensures forall a :: 0 <= a < COLS && IsLegalAction(s.board, a) ==> MinimaxValue(s, d + 1) <= ChildValue(s, a, d)
    ensures LegalActions(s.board) != [] ==>
      exists a :: 0 <= a < COLS && IsLegalAction(s.board, a) && MinimaxValue(s, d + 1) == ChildValue(s, a, d)
  {
    var acts := LegalActions(s.board);
    RedNode(s, d);
    MinOverIsSmallest(s, acts, d);
    forall a | 0 <= a < COLS && IsLegalAction(s.board, a) ensures MinimaxValue(s, d + 1) <= ChildValue(s, a, d) {
      assert a in acts;
      var i :| 0 <= i < |acts| && acts[i] == a;
    }
    if acts != [] && MinOver(s, acts, d) == INFINITY {
      assert ChildValue(s, acts[0], d) == MinOver(s, acts, d);
    }
  }

  /**
   * On a board where pieces rest on one another, a node that is not
   * terminal always has a legal move, so the infinities never surface: every
   * value lies within [-WIN_SCORE, WIN_SCORE].
   */
  lemma {:induction false} ValueWithinWinScores(s: GameState, depth: nat)
    requires WellFormed(s.board) && Gravity(s.board)
    ensures -WIN_SCORE <= MinimaxValue(s, depth) <= WIN_SCORE
    decreases depth, 1
  {
    if HasFour(s.board, YELLOW_NUM) || HasFour(s.board, RED_NUM) || IsTie(s.board) {
    } else if depth == 0 {
    } else {
      InnerValueWithinWinScores(s, depth);
    }
  }

  /** The inductive step of ValueWithinWinScores: the value is that of a legal child. */
  lemma {:induction false} InnerValueWithinWinScores(s: GameState, depth: nat)
    requires WellFormed(s.board) && Gravity(s.board) && depth > 0
    requires !HasFour(s.board, YELLOW_NUM) && !HasFour(s.board, RED_NUM) && !IsTie(s.board)
    ensures -WIN_SCORE <= MinimaxValue(s, depth) <= WIN_SCORE
    decreases depth, 0
  {
    var d: nat := depth - 1;
    TieIffNoLegalActions(s.board);
    var a: int;
    if s.turn == YELLOW_NUM {
      YellowMaximises(s, d);
      a :| 0 <= a < COLS && IsLegalAction(s.board, a) && MinimaxValue(s, d + 1) == ChildValue(s, a, d);
    } else {
      RedMinimises(s, d);
      a :| 0 <= a < COLS && IsLegalAction(s.board, a) && MinimaxValue(s, d + 1) == ChildValue(s, a, d);
    }
    NextStatePreservesGravity(s, a);
    ValueWithinWinScores(NextState(s, a), d);
  }

  // ------------------------------------------------------------- the search

  /** The order get_legal_actions(sort=True) promises: by depth-0 value, then by column. */
  ghost predicate OrderedByDepthZero(s: GameState, acts: seq<int>)
    requires WellFormed(s.board) && AllColumns(acts)
  {
    forall i, j :: 0 <= i < j < |acts| ==>
      ChildValue(s, acts[i], 0) < ChildValue(s, acts[j], 0)
      || (ChildValue(s, acts[i], 0) == ChildValue(s, acts[j], 0) && acts[i] <= acts[j])
  }

  /**
   * minimax: fail-soft alpha-beta. A result strictly inside the window is
   * the exact value; one at or below alpha is an upper bound on it; one at
   * or above beta is a lower bound on it.
   */
  method Minimax(s: GameState, alpha: int, beta: int, depth: nat) returns (v: int)
    requires WellFormed(s.board) && -INFINITY <= alpha < beta <= INFINITY
    ensures alpha < v < beta ==> v == MinimaxValue(s, depth)
    ensures v <= alpha ==> MinimaxValue(s, depth) <= v
    ensures beta <= v ==> v <= MinimaxValue(s, depth)
    ensures HasFour(s.board, YELLOW_NUM) ==> v == WIN_SCORE
    ensures !HasFour(s.board, YELLOW_NUM) && HasFour(s.board, RED_NUM) ==> v == -WIN_SCORE
    ensures !HasFour(s.board, YELLOW_NUM) && !HasFour(s.board, RED_NUM) && IsTie(s.board) ==> v == 0
    ensures depth == 0 ==> v == MinimaxValue(s, 0)
    decreases depth, 3
  {
    var yellowWins := IsWinning(s.board, YELLOW_NUM);
    if yellowWins {
      return WIN_SCORE;
    }
    var redWins := IsWinning(s.board, RED_NUM);
    if redWins {
      return -WIN_SCORE;
    }
    if IsTie(s.board) {
      return 0;
    }
    if depth == 0 {
      var three := CountThreeInRow(s.board);
      var two := CountTwoInRow(s.board);
      var center := CountCenter(s.board);
      return THREE_IN_ROW_MULT * three + TWO_IN_ROW_MULT * two + CENTER_MULT * center;
    }
    v := SearchChildren(s, alpha, beta, depth);
  }

  /** The rest of minimax below a node that is not terminal: the sorted moves, then the player's loop. */
  method SearchChildren(s: GameState, alpha: int, beta: int, depth: nat) returns (v: int)
    requires WellFormed(s.board) && -INFINITY <= alpha < beta <= INFINITY && depth > 0
    requires !HasFour(s.board, YELLOW_NUM) && !HasFour(s.board, RED_NUM) && !IsTie(s.board)
    ensures alpha < v < beta ==> v == MinimaxValue(s, depth)
    ensures v <= alpha ==> MinimaxValue(s, depth) <= v
    ensures beta <= v ==> v <= MinimaxValue(s, depth)
    decreases depth, 2
  {
    var legal := GetLegalActions(s, true);
    var d: nat := depth - 1;
    if s.turn == YELLOW_NUM {
      v := MaxChildren(s, legal, alpha, beta, d);
      MaxOverPermutation(s, LegalActions(s.board), legal, d);
      YellowNode(s, d);
    } else {
      v := MinChildren(s, legal, alpha, beta, d);
      MinOverPermutation(s, LegalActions(s.board), legal, d);
      RedNode(s, d);
    }
  }

  /** One iteration's search: minimax of the child reached by column a, with the current window. */
  method SearchChild(s: GameState, a: int, alpha: int, beta: int, depth: nat) returns (v: int)
    requires WellFormed(s.board) && 0 <= a < COLS && -INFINITY <= alpha < beta <= INFINITY
    ensures alpha < v < beta ==> v == ChildValue(s, a, depth)
    ensures v <= alpha ==> ChildValue(s, a, depth) <= v
    ensures beta <= v ==> v <= ChildValue(s, a, depth)
    decreases depth + 1, 0
  {
    var child := GetNewState(s, a);
    v := Minimax(child, alpha, beta, depth);
  }

  /** Yellow's loop: raises alpha with each child and stops once beta <= alpha. */
  method MaxChildren(s: GameState, acts: seq<int>, alpha: int, beta: int, depth: nat) returns (maxEval: int)
    requires WellFormed(s.board) && AllColumns(acts) && -INFINITY <= alpha < beta <= INFINITY
    ensures alpha < maxEval < beta ==> maxEval == MaxOver(s, acts, depth)
    ensures maxEval <= alpha ==> MaxOver(s, acts, depth) <= maxEval
    ensures beta <= maxEval ==> maxEval <= MaxOver(s, acts, depth)
    decreases depth + 1, 1
  {
    maxEval := -INFINITY;
    var a := alpha;
    var i := 0;
    while i < |acts|
      invariant 0 <= i <= |acts|
      invariant a == Max(alpha, maxEval) && maxEval < beta
      invariant MaxOver(s, acts[..i], depth) <= maxEval
      invariant alpha < maxEval ==> MaxOver(s, acts[..i], depth) == maxEval
    {
      var evaluation := SearchChild(s, acts[i], a, beta, depth);
      assert acts[..i + 1][..i] == acts[..i];
      maxEval := Max(maxEval, evaluation);
      a := Max(evaluation, a);
      if beta <= a {
        MaxOverIsLargest(s, acts, depth);
        return;
      }
      i := i + 1;
    }
    assert acts[..i] == acts;
  }

  /** Red's loop: lowers beta with each child and stops once beta <= alpha. */
  method MinChildren(s: GameState, acts: seq<int>, alpha: int, beta: int, depth: nat) returns (minEval: int)
    requires WellFormed(s.board) && AllColumns(acts) && -INFINITY <= alpha < beta <= INFINITY
    ensures alpha < minEval < beta ==> minEval == MinOver(s, acts, depth)
    ensures minEval <= alpha ==> MinOver(s, acts, depth) <= minEval
    ensures beta <= minEval ==> minEval <= MinOver(s, acts, depth)
    decreases depth + 1, 1
  {
    minEval := INFINITY;
    var b := beta;
    var i := 0;
    while i < |acts|
      invariant 0 <= i <= |acts|
      invariant b == Min(beta, minEval) && alpha < minEval
      invariant minEval <= MinOver(s, acts[..i], depth)
      invariant minEval < beta ==> MinOver(s, acts[..i], depth) == minEval
    {
      var evaluation := SearchChild(s, acts[i], alpha, b, depth);
      assert acts[..i + 1][..i] == acts[..i];
      minEval := Min(minEval, evaluation);
      b := Min(evaluation, b);
      if b <= alpha {
        MinOverIsSmallest(s, acts, depth);
        return;
      }
      i := i + 1;
    }
    assert acts[..i] == acts;
  }

  /**
   * get_legal_actions: the columns whose top cell is empty, in increasing
   * order; with sort, reordered by each child's depth-0 value (a stable sort).
   */
  method GetLegalActions(s: GameState, sort: bool) returns (acts: seq<int>)
    requires WellFormed(s.board)
    ensures multiset(acts) == multiset(LegalActions(s.board))
    ensures AllColumns(acts)
    ensures !sort ==> acts == LegalActions(s.board)
    ensures sort ==> OrderedByDepthZero(s, acts)
    decreases 0, 6
  {
    var legal := CollectLegalActions(s.board);
    if !sort {
      return legal;
    }
    var keys := DepthZeroKeys(s, legal);
    acts := SortByKey(keys, legal);
    SortByKeySorted(keys, legal);
    ColumnsOfPermutation(legal, acts);
    KeysGiveOrder(s, keys, acts);
  }

  /** The sort key of each legal column: minimax of the child at depth 0, computed once per column. */
  method DepthZeroKeys(s: GameState, legal: seq<int>) returns (keys: map<int, int>)
    requires WellFormed(s.board) && AllColumns(legal)
    ensures forall a :: a in keys <==> a in legal
    ensures forall a :: a in keys ==> 0 <= a < COLS && keys[a] == ChildValue(s, a, 0)
    decreases 0, 5
  {
    keys := map[];
    var k := 0;
    while k < |legal|
      invariant 0 <= k <= |legal|
      invariant forall a :: a in keys <==> a in legal[..k]
      invariant forall a :: a in keys ==> 0 <= a < COLS && keys[a] == ChildValue(s, a, 0)
    {
      var key := SortKey(s, legal[k]);
      assert legal[..k + 1] == legal[..k] + [legal[k]];
      keys := keys[legal[k] := key];
      k := k + 1;
    }
    assert legal[..k] == legal;
  }

  /** The sort key, minimax of the child at depth 0: exact, since the window is the widest. */
  method SortKey(s: GameState, a: int) returns (key: int)
    requires WellFormed(s.board) && 0 <= a < COLS
    ensures key == ChildValue(s, a, 0)
    decreases 0, 4
  {
    var child := GetNewState(s, a);
    key := Minimax(child, -INFINITY, INFINITY, 0);
  }

  /** A list sorted by the depth-0 keys is ordered by the children's depth-0 values. */
  lemma KeysGiveOrder(s: GameState, keys: map<int, int>, acts: seq<int>)
    requires WellFormed(s.board) && AllColumns(acts) && AllKeyed(keys, acts)
    requires forall a :: a in keys ==> 0 <= a < COLS && keys[a] == ChildValue(s, a, 0)
    requires SortedBy(keys, acts)
    ensures OrderedByDepthZero(s, acts)
  {
    forall i, j | 0 <= i < j < |acts|
      ensures ChildValue(s, acts[i], 0) < ChildValue(s, acts[j], 0)
        || (ChildValue(s, acts[i], 0) == ChildValue(s, acts[j], 0) && acts[i] <= acts[j])
    {
      assert acts[i] in acts && acts[j] in acts;
      assert Precedes(keys, acts[i], acts[j]);
    }
  }

  /** get_evaluation: the search over the whole window, which is exact. */
  method GetEvaluation(s: GameState, depth: nat) returns (v: int)
    requires WellFormed(s.board)
    ensures v == MinimaxValue(s, depth)
  {
    v := Minimax(s, -INFINITY, INFINITY, depth);
  }
}
