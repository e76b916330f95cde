/**
 * The bot (ai/agent.py): an Agent holds an algorithm name and an optional
 * search depth, and get_move picks a column for the player to move.
 */
module AI {
  import opened Constants
  import opened Board
  import opened State
  import opened Search

  /**
   * What get_move returns: a column, None, or the IndexError that
   * random.choice raises on an empty list.
   */
  datatype Move = Column(col: int) | NoMove | EmptyChoice

  /** The score no evaluation can reach, which the minimax loop starts from: beyond the other player's win. */
  function Sentinel(p: Player): (v: int)
    ensures p == YELLOW_NUM ==> v < -WIN_SCORE
    ensures p == RED_NUM ==> v > WIN_SCORE
  {
    if p == RED_NUM then WIN_SCORE + 1 else -WIN_SCORE - 1
  }

  /** x is strictly better than y for player p: larger for yellow, smaller for red. */
  predicate Better(p: Player, x: int, y: int) {
    if p == YELLOW_NUM then x > y else x < y
  }

  /**
   * Column c is the move minimax mode chooses: a legal column whose child
   * value beats the sentinel and that no legal column beats, with every legal
   * column to its left strictly worse (the leftmost of the best).
   */
  ghost predicate BestColumn(s: GameState, depth: nat, c: int)
    requires WellFormed(s.board)
  {
    0 <= c < COLS && IsLegalAction(s.board, c)
    && Better(s.turn, ChildValue(s, c, depth), Sentinel(s.turn))
    && (forall a :: 0 <= a < COLS && IsLegalAction(s.board, a) ==> !Better(s.turn, ChildValue(s, a, depth), ChildValue(s, c, depth)))
    && (forall a :: 0 <= a < c && IsLegalAction(s.board, a) ==> Better(s.turn, ChildValue(s, c, depth), ChildValue(s, a, depth)))
  }

  /** No legal column beats the sentinel, so minimax mode returns None. */
  ghost predicate NothingBeatsSentinel(s: GameState, depth: nat)
    requires WellFormed(s.board)
  {
    forall a :: 0 <= a < COLS && IsLegalAction(s.board, a) ==> !Better(s.turn, ChildValue(s, a, depth), Sentinel(s.turn))
  }

  class Agent {
    const algorithm: string
    const depth: Option<nat>

    constructor (algorithm: string, depth: Option<nat>)
      ensures this.algorithm == algorithm && this.depth == depth
    {
      this.algorithm := algorithm;
      this.depth := depth;
    }

    /**
     * get_move: in "random" mode any legal column (an error when there is
     * none); in "minimax" mode the leftmost legal column whose child
     * evaluation is best for the player to move, None without a depth; None
     * for any other algorithm.
     */
    method GetMove(s: GameState) returns (m: Move)
      requires WellFormed(s.board)
      ensures algorithm == "random" && LegalActions(s.board) == [] ==> m == EmptyChoice
      ensures algorithm == "random" && LegalActions(s.board) != [] ==>
        m.Column? && 0 <= m.col < COLS && IsLegalAction(s.board, m.col)
      ensures algorithm == "minimax" && depth == None ==> m == NoMove
      ensures algorithm == "minimax" && depth.Some? ==> (m.Column? || m == NoMove)
      ensures algorithm == "minimax" && depth.Some? && m.Column? ==> BestColumn(s, depth.value, m.col)
      ensures algorithm == "minimax" && depth.Some? && m == NoMove ==> NothingBeatsSentinel(s, depth.value)
      ensures algorithm == "minimax" && depth.Some? && Gravity(s.board) ==> (m == NoMove <==> LegalActions(s.board) == [])
      ensures algorithm != "random" && algorithm != "minimax" ==> m == NoMove
    {
      if algorithm == "random" {
        var legal := GetLegalActions(s, false);
        if legal == [] {
          return EmptyChoice;
        }
        var c :| c in legal;
        return Column(c);
      } else if algorithm == "minimax" {
        if depth == None {
          return NoMove;
        }
        m := BestMove(s, depth.value);
        return;
      }
      return NoMove;
    }
  }

  /** The child evaluations of the columns in acts, in order. */
  ghost function Evaluations(s: GameState, acts: seq<int>, depth: nat): (r: seq<int>)
    requires WellFormed(s.board) && AllColumns(acts)
    ensures |r| == |acts|
  {
    if acts == [] then [] else Evaluations(s, acts[..|acts| - 1], depth) + [ChildValue(s, acts[|acts| - 1], depth)]
  }

  lemma {:induction false} EvaluationsAt(s: GameState, acts: seq<int>, depth: nat, k: int)
    requires WellFormed(s.board) && AllColumns(acts) && 0 <= k < |acts|
    ensures Evaluations(s, acts, depth)[k] == ChildValue(s, acts[k], depth)
    decreases |acts|
  {
    if k < |acts| - 1 {
      EvaluationsAt(s, acts[..|acts| - 1], depth, k);
    }
  }

  /** The index the minimax loop settles on: it beats the sentinel, nothing beats it, and it beats every earlier entry. */
  predicate ChosenIndex(p: Player, evals: seq<int>, j: int) {
    0 <= j < |evals| && Better(p, evals[j], Sentinel(p))
    && (forall k :: 0 <= k < |evals| ==> !Better(p, evals[k], evals[j]))
    && (forall k :: 0 <= k < j ==> Better(p, evals[j], evals[k]))
  }

  /** No entry beats the sentinel. */
  predicate NoneBeats(p: Player, evals: seq<int>) {
    forall k :: 0 <= k < |evals| ==> !Better(p, evals[k], Sentinel(p))
  }

  lemma EvaluationsSnoc(s: GameState, acts: seq<int>, depth: nat, i: int)
    requires WellFormed(s.board) && AllColumns(acts) && 0 <= i < |acts|
    ensures Evaluations(s, acts[..i + 1], depth) == Evaluations(s, acts[..i], depth) + [ChildValue(s, acts[i], depth)]
  {
    assert acts[..i + 1][..i] == acts[..i];
  }

  /** What the loop has selected so far: nothing (-1) while no entry beats the sentinel, else the chosen index. */
  predicate Selected(p: Player, evals: seq<int>, j: int) {
    if j == -1 then NoneBeats(p, evals) else ChosenIndex(p, evals, j)
  }

  /** The evaluation the loop compares against: the sentinel, or the chosen entry. */
  function BestSoFar(p: Player, evals: seq<int>, j: int): int
    requires j == -1 || 0 <= j < |evals|
  {
    if j == -1 then Sentinel(p) else evals[j]
  }

  /** One step of the loop: an entry strictly better than the best so far is selected, otherwise the selection stays. */
  lemma SelectionStep(p: Player, evals: seq<int>, j: int, e: int)
    requires -1 <= j < |evals| && Selected(p, evals, j)
    ensures Better(p, e, BestSoFar(p, evals, j)) ==> Selected(p, evals + [e], |evals|)
    ensures !Better(p, e, BestSoFar(p, evals, j)) ==> Selected(p, evals + [e], j)
  {
  }

  /** get_move in minimax mode: the loop over the legal columns, then the column it kept, if any. */
  method BestMove(s: GameState, depth: nat) returns (m: Move)
    requires WellFormed(s.board)
    ensures m.Column? || m == NoMove
    ensures m.Column? ==> BestColumn(s, depth, m.col)
    ensures m == NoMove ==> NothingBeatsSentinel(s, depth)
    ensures Gravity(s.board) ==> (m == NoMove <==> LegalActions(s.board) == [])
  {
    var legal := GetLegalActions(s, false);
    var bestAction, bestIndex := ScanColumns(s, legal, depth);
    if bestAction == None {
      NoneChosen(s, depth, legal);
      if Gravity(s.board) {
        SomeColumnBeatsSentinel(s, depth);
      }
      return NoMove;
    }
    IndexChosen(s, depth, legal, bestIndex);
    return Column(bestAction.value);
  }

  /**
   * The loop of get_move: evaluates each column's child in turn and keeps
   * it when it is strictly better than the best so far.
   */
  method ScanColumns(s: GameState, legal: seq<int>, depth: nat) returns (bestAction: Option<int>, ghost bestIndex: int)
    requires WellFormed(s.board) && AllColumns(legal)
    ensures -1 <= bestIndex < |legal| && Selected(s.turn, Evaluations(s, legal, depth), bestIndex)
    ensures bestAction == if bestIndex == -1 then None else Some(legal[bestIndex])
  {
    bestAction := None;
    var bestEvaluation := Sentinel(s.turn);
    ghost var evals: seq<int> := [];
    bestIndex := -1;
    var i := 0;
    while i < |legal|
      invariant 0 <= i <= |legal| && evals == Evaluations(s, legal[..i], depth)
      invariant -1 <= bestIndex < i && Selected(s.turn, evals, bestIndex)
      invariant bestEvaluation == BestSoFar(s.turn, evals, bestIndex)
      invariant bestAction == if bestIndex == -1 then None else Some(legal[bestIndex])
    {
      var action := legal[i];
      var newState := GetNewState(s, action);
      var evaluation := GetEvaluation(newState, depth);
      EvaluationsSnoc(s, legal, depth, i);
      SelectionStep(s.turn, evals, bestIndex, evaluation);
      evals := evals + [evaluation];
      if Better(s.turn, evaluation, bestEvaluation) {
        bestEvaluation := evaluation;
        bestAction := Some(action);
        bestIndex := i;
      }
      i := i + 1;
    }
    assert legal[..i] == legal;
  }

  /** The loop's choice by index is the best column by value. */
  lemma IndexChosen(s: GameState, depth: nat, legal: seq<int>, j: int)
    requires WellFormed(s.board) && legal == LegalActions(s.board)
    requires ChosenIndex(s.turn, Evaluations(s, legal, depth), j)
    ensures BestColumn(s, depth, legal[j])
  {
    EvaluationsAt(s, legal, depth, j);
    ChosenUnbeaten(s, depth, legal, j);
    ChosenLeftmost(s, depth, legal, j);
  }

  lemma ChosenUnbeaten(s: GameState, depth: nat, legal: seq<int>, j: int)
    requires WellFormed(s.board) && legal == LegalActions(s.board)
    requires ChosenIndex(s.turn, Evaluations(s, legal, depth), j)
    ensures forall a :: 0 <= a < COLS && IsLegalAction(s.board, a) ==>
      !Better(s.turn, ChildValue(s, a, depth), ChildValue(s, legal[j], depth))
  {
    var evals := Evaluations(s, legal, depth);
    EvaluationsAt(s, legal, depth, j);
    forall a | 0 <= a < COLS && IsLegalAction(s.board, a)
      ensures !Better(s.turn, ChildValue(s, a, depth), ChildValue(s, legal[j], depth))
    {
      var k := IndexOf(legal, a);
      EvaluationsAt(s, legal, depth, k);
      assert !Better(s.turn, evals[k], evals[j]);
    }
  }

  lemma ChosenLeftmost(s: GameState, depth: nat, legal: seq<int>, j: int)
    requires WellFormed(s.board) && legal == LegalActions(s.board)
    requires ChosenIndex(s.turn, Evaluations(s, legal, depth), j)
    ensures forall a :: 0 <= a < legal[j] && IsLegalAction(s.board, a) ==>
      Better(s.turn, ChildValue(s, legal[j], depth), ChildValue(s, a, depth))
  {
    var evals := Evaluations(s, legal, depth);
    EvaluationsAt(s, legal, depth, j);
    forall a | 0 <= a < legal[j] && IsLegalAction(s.board, a)
      ensures Better(s.turn, ChildValue(s, legal[j], depth), ChildValue(s, a, depth))
    {
      assert a in legal;
      var k := IndexLeftOf(legal, j, a);
      EvaluationsAt(s, legal, depth, k);
      assert Better(s.turn, evals[j], evals[k]);
    }
  }

  /** In an increasing list, a value below the j-th entry occurs before index j. */
  lemma IndexLeftOf(xs: seq<int>, j: int, a: int) returns (k: int)
    requires forall i, i' :: 0 <= i < i' < |xs| ==> xs[i] < xs[i']
    requires 0 <= j < |xs| && a in xs && a < xs[j]
    ensures 0 <= k < j && xs[k] == a
  {
    k :| 0 <= k < |xs| && xs[k] == a;
  }

  /** Where a column occurs in a list that holds it. */
  lemma IndexOf(xs: seq<int>, a: int) returns (k: int)
    requires a in xs
    ensures 0 <= k < |xs| && xs[k] == a
  {
    k :| 0 <= k < |xs| && xs[k] == a;
  }

  /** When the loop chooses nothing, no legal column beats the sentinel. */
  lemma NoneChosen(s: GameState, depth: nat, legal: seq<int>)
    requires WellFormed(s.board) && legal == LegalActions(s.board)
    requires NoneBeats(s.turn, Evaluations(s, legal, depth))
    ensures NothingBeatsSentinel(s, depth)
  {
    forall a | 0 <= a < COLS && IsLegalAction(s.board, a)
      ensures !Better(s.turn, ChildValue(s, a, depth), Sentinel(s.turn))
    {
      var k := IndexOf(legal, a);
      EvaluationsAt(s, legal, depth, k);
    }
  }

  /**
   * On a board where pieces rest on one another every evaluation lies within
   * the win scores, so any legal column beats the sentinel.
   */
  lemma SomeColumnBeatsSentinel(s: GameState, depth: nat)
    requires WellFormed(s.board) && Gravity(s.board)
    ensures forall a :: 0 <= a < COLS && IsLegalAction(s.board, a) ==> Better(s.turn, ChildValue(s, a, depth), Sentinel(s.turn))
    ensures LegalActions(s.board) != [] ==> !NothingBeatsSentinel(s, depth)
  {
    forall a | 0 <= a < COLS && IsLegalAction(s.board, a)
      ensures Better(s.turn, ChildValue(s, a, depth), Sentinel(s.turn))
    {
      NextStatePreservesGravity(s, a);
      ValueWithinWinScores(NextState(s, a), depth);
    }
    if LegalActions(s.board) != [] {
      var a := LegalActions(s.board)[0];
      assert a in LegalActions(s.board);
    }
  }
}
