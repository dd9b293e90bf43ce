/**
 * Depth-limited alpha-beta search. `Minimax` and `Backup` are the reference
 * definition (plain depth-limited minimax, no pruning); the methods `Alpha`
 * (max node) and `Beta` (min node) are the pruning search, proved to return
 * the fail-soft approximation of the reference value for their window, and
 * `AlphaBeta` is the root, proved to return the first move of maximal
 * minimax value.
 */
module Search {
  import opened Wrappers
  import opened Values
  import opened Game
  import Heuristic

  /**
   * The depth-limited minimax value of `t` for player `p`: the exact utility
   * at a terminal position, the heuristic at the depth limit, otherwise the
   * best child value for the side to move (`maximizing` is true where `p`
   * moves).
   */
  function Minimax(t: Tree, depth: int, maximizing: bool, p: PlayerId): Value
    decreases depth, 0
  {
    if t.terminal then Utility(t, p)
    else if depth <= 0 then Fin(Heuristic.Score(t, p))
    else Backup(t.moves, depth - 1, maximizing, p)
  }

  /**
   * The running max (or min) over the minimax values of the positions the
   * moves `ms` lead to, folded from the first move to the last and starting
   * from -inf (or +inf), as the search loops do.
   */
  function Backup(ms: seq<Move>, depth: int, maximizing: bool, p: PlayerId): Value
    decreases depth, |ms| + 1
  {
    if ms == [] then (if maximizing then NegInf else PosInf)
    else
      var w := Backup(ms[..|ms| - 1], depth, maximizing, p);
      var v := Minimax(ms[|ms| - 1].result, depth, !maximizing, p);
      if maximizing then Max(w, v) else Min(w, v)
  }

  /**
   * `v` is a fail-soft alpha-beta result for the true value `m` and the
   * window (alpha, beta): exact inside the window, an upper bound of `m`
   * when it fails low, a lower bound of `m` when it fails high.
   */
  predicate FailSoft(v: Value, m: Value, alpha: Value, beta: Value)
  {
    && (Lt(alpha, v) && Lt(v, beta) ==> v == m)
    && (Le(v, alpha) ==> Le(m, v))
    && (Le(beta, v) ==> Le(v, m))
  }

  /** What a fail-soft result tells a caller about the true value. */
  lemma FailSoftWindow(v: Value, m: Value, alpha: Value, beta: Value)
    requires Lt(alpha, beta) && FailSoft(v, m, alpha, beta)
    ensures Lt(alpha, m) && Lt(m, beta) ==> v == m
    ensures Le(m, alpha) ==> Le(v, alpha)
    ensures Le(beta, m) ==> Le(beta, v)
    ensures alpha == NegInf && beta == PosInf ==> v == m
  {
  }

  /** Folding one more move into a running max (min) only raises (lowers) it. */
  lemma {:induction false} BackupPrefix(ms: seq<Move>, i: nat, depth: int, maximizing: bool, p: PlayerId)
    requires i <= |ms|
    ensures maximizing ==> Le(Backup(ms[..i], depth, maximizing, p), Backup(ms, depth, maximizing, p))
    ensures !maximizing ==> Le(Backup(ms, depth, maximizing, p), Backup(ms[..i], depth, maximizing, p))
    decreases |ms|
  {
    if i == |ms| {
      assert ms[..i] == ms;
      LeTotalOrder(Backup(ms, depth, maximizing, p), NegInf, NegInf);
    } else {
      var init := ms[..|ms| - 1];
      BackupPrefix(init, i, depth, maximizing, p);
      assert init[..i] == ms[..i];
      LeTotalOrder(Backup(ms[..i], depth, maximizing, p), Backup(init, depth, maximizing, p), Backup(ms, depth, maximizing, p));
      LeTotalOrder(Backup(ms, depth, maximizing, p), Backup(init, depth, maximizing, p), Backup(ms[..i], depth, maximizing, p));
    }
  }

  /** One step of the fold: the running value after move `i` from the one before it. */
  lemma BackupStep(ms: seq<Move>, i: nat, depth: int, maximizing: bool, p: PlayerId)
    requires i < |ms|
    ensures var w := Backup(ms[..i], depth, maximizing, p);
            var v := Minimax(ms[i].result, depth, !maximizing, p);
            Backup(ms[..i + 1], depth, maximizing, p) == if maximizing then Max(w, v) else Min(w, v)
  {
    assert ms[..i + 1][..i] == ms[..i];
  }

  /**
   * One iteration of the max node's loop, on values alone: `value` is the
   * running maximum, `before` the true maximum over the same moves, `r` the
   * fail-soft result for the next child whose true value is `child`,
   * searched with the window (max(alpha, value), beta).
   */
  lemma MaxNodeStep(alpha: Value, beta: Value, value: Value, before: Value, r: Value, child: Value)
    requires Lt(alpha, beta) && Lt(value, beta)
    requires Lt(alpha, value) ==> value == before
    requires Le(value, alpha) ==> Le(before, value)
    requires FailSoft(r, child, Max(alpha, value), beta)
    ensures Le(beta, Max(value, r)) ==> Le(Max(value, r), child)
    ensures Lt(Max(value, r), beta) ==>
      && Max(Max(alpha, value), Max(value, r)) == Max(alpha, Max(value, r))
      && (Lt(alpha, Max(value, r)) ==> Max(value, r) == Max(before, child))
      && (Le(Max(value, r), alpha) ==> Le(Max(before, child), Max(value, r)))
  {
  }

  /** The mirror image of `MaxNodeStep` for the min node's loop. */
  lemma MinNodeStep(alpha: Value, beta: Value, value: Value, before: Value, r: Value, child: Value)
    requires Lt(alpha, beta) && Lt(alpha, value)
    requires Lt(value, beta) ==> value == before
    requires Le(beta, value) ==> Le(value, before)
    requires FailSoft(r, child, alpha, Min(beta, value))
    ensures Le(Min(value, r), alpha) ==> Le(child, Min(value, r))
    ensures Lt(alpha, Min(value, r)) ==>
      && Min(Min(beta, value), Min(value, r)) == Min(beta, Min(value, r))
      && (Lt(Min(value, r), beta) ==> Min(value, r) == Min(before, child))
      && (Le(beta, Min(value, r)) ==> Le(Min(value, r), Min(before, child)))
  {
  }

  /**
   * `alpha(state, depth, alpha, beta)`: the max node of the search. Loops
   * over the moves in order, keeping the running maximum and raising the
   * lower bound of the window, and returns as soon as the running maximum
   * reaches the upper bound.
   */
  method Alpha(t: Tree, depth: int, alpha: Value, beta: Value, p: PlayerId) returns (value: Value)
    requires Lt(alpha, beta)
    ensures t.terminal ==> value == Utility(t, p)
    ensures !t.terminal && depth <= 0 ==> value == Fin(Heuristic.Score(t, p))
    ensures FailSoft(value, Minimax(t, depth, true, p), alpha, beta)
    decreases depth
  {
    if t.terminal {
      return Utility(t, p);
    }
    if depth <= 0 {
      return Fin(Heuristic.Score(t, p));
    }
    value := NegInf;
    var lo := alpha;
    var i := 0;
    while i < |t.moves|
      invariant 0 <= i <= |t.moves|
      invariant Lt(value, beta)
      invariant lo == Max(alpha, value)
      invariant Lt(alpha, value) ==> value == Backup(t.moves[..i], depth - 1, true, p)
      invariant Le(value, alpha) ==> Le(Backup(t.moves[..i], depth - 1, true, p), value)
    {
      ghost var before := Backup(t.moves[..i], depth - 1, true, p);
      ghost var child := Minimax(t.moves[i].result, depth - 1, false, p);
      var r := Beta(t.moves[i].result, depth - 1, lo, beta, p);
      BackupStep(t.moves, i, depth - 1, true, p);
      MaxNodeStep(alpha, beta, value, before, r, child);
      value := Max(value, r);
      if Le(beta, value) {
        BackupPrefix(t.moves, i + 1, depth - 1, true, p);
        LeTotalOrder(value, child, Backup(t.moves[..i + 1], depth - 1, true, p));
        LeTotalOrder(value, Backup(t.moves[..i + 1], depth - 1, true, p), Minimax(t, depth, true, p));
        return value;
      }
      lo := Max(lo, value);
      i := i + 1;
    }
    assert t.moves[..i] == t.moves;
  }

  /**
   * `beta(state, depth, alpha, beta)`: the min node, the mirror image of
   * `Alpha`: keeps the running minimum, lowers the upper bound, and returns
   * as soon as the running minimum reaches the lower bound.
   */
  method Beta(t: Tree, depth: int, alpha: Value, beta: Value, p: PlayerId) returns (value: Value)
    requires Lt(alpha, beta)
    ensures t.terminal ==> value == Utility(t, p)
    ensures !t.terminal && depth <= 0 ==> value == Fin(Heuristic.Score(t, p))
    ensures FailSoft(value, Minimax(t, depth, false, p), alpha, beta)
    decreases depth
  {
    if t.terminal {
      return Utility(t, p);
    }
    if depth <= 0 {
      return Fin(Heuristic.Score(t, p));
    }
    value := PosInf;
    var hi := beta;
    var i := 0;
    while i < |t.moves|
      invariant 0 <= i <= |t.moves|
      invariant Lt(alpha, value)
      invariant hi == Min(beta, value)
      invariant Lt(value, beta) ==> value == Backup(t.moves[..i], depth - 1, false, p)
      invariant Le(beta, value) ==> Le(value, Backup(t.moves[..i], depth - 1, false, p))
    {
      ghost var before := Backup(t.moves[..i], depth - 1, false, p);
      ghost var child := Minimax(t.moves[i].result, depth - 1, true, p);
      var r := Alpha(t.moves[i].result, depth - 1, alpha, hi, p);
      BackupStep(t.moves, i, depth - 1, false, p);
      MinNodeStep(alpha, beta, value, before, r, child);
      value := Min(value, r);
      if Le(value, alpha) {
        BackupPrefix(t.moves, i + 1, depth - 1, false, p);
        LeTotalOrder(Backup(t.moves[..i + 1], depth - 1, false, p), child, value);
        LeTotalOrder(Minimax(t, depth, false, p), Backup(t.moves[..i + 1], depth - 1, false, p), value);
        return value;
      }
      hi := Min(hi, value);
      i := i + 1;
    }
    assert t.moves[..i] == t.moves;
  }

  /** The minimax value of the position a root move leads to (a min node). */
  function ChildValue(m: Move, depth: int, p: PlayerId): Value
  {
    Minimax(m.result, depth, false, p)
  }

  /**
   * The index Python's `max(actions, key=...)` picks: scanning in order, a
   * later move replaces the current best only when its value is strictly
   * greater.
   */
  function BestIndex(ms: seq<Move>, depth: int, p: PlayerId): (k: nat)
    requires |ms| > 0
    ensures k < |ms|
    decreases |ms|
  {
    if |ms| == 1 then 0
    else
      var k := BestIndex(ms[..|ms| - 1], depth, p);
      if Lt(ChildValue(ms[k], depth, p), ChildValue(ms[|ms| - 1], depth, p)) then |ms| - 1 else k
  }

  /** `BestIndex` is the first move of maximal child value. */
  lemma {:induction false} BestIndexIsFirstMaximum(ms: seq<Move>, depth: int, p: PlayerId)
    requires |ms| > 0
    ensures forall j :: 0 <= j < |ms| ==>
      Le(ChildValue(ms[j], depth, p), ChildValue(ms[BestIndex(ms, depth, p)], depth, p))
    ensures forall j :: 0 <= j < BestIndex(ms, depth, p) ==>
      Lt(ChildValue(ms[j], depth, p), ChildValue(ms[BestIndex(ms, depth, p)], depth, p))
    decreases |ms|
  {
    if |ms| > 1 {
      var init := ms[..|ms| - 1];
      BestIndexIsFirstMaximum(init, depth, p);
      var k := BestIndex(init, depth, p);
      var last := ChildValue(ms[|ms| - 1], depth, p);
      forall j | 0 <= j < |ms|
        ensures Le(ChildValue(ms[j], depth, p), ChildValue(ms[BestIndex(ms, depth, p)], depth, p))
      {
        if j < |ms| - 1 {
          assert ms[j] == init[j];
          LeTotalOrder(ChildValue(ms[j], depth, p), ChildValue(init[k], depth, p), last);
        }
        LeTotalOrder(last, ChildValue(init[k], depth, p), last);
      }
      forall j | 0 <= j < BestIndex(ms, depth, p)
        ensures Lt(ChildValue(ms[j], depth, p), ChildValue(ms[BestIndex(ms, depth, p)], depth, p))
      {
        assert ms[j] == init[j];
        LeTotalOrder(ChildValue(ms[j], depth, p), ChildValue(init[k], depth, p), last);
      }
    }
  }

  /** The max fold is the largest child value and is attained by some child. */
  lemma {:induction false} BackupIsMaximum(ms: seq<Move>, depth: int, p: PlayerId)
    ensures forall j :: 0 <= j < |ms| ==> Le(ChildValue(ms[j], depth, p), Backup(ms, depth, true, p))
    ensures |ms| > 0 ==> exists j :: 0 <= j < |ms| && Backup(ms, depth, true, p) == ChildValue(ms[j], depth, p)
    decreases |ms|
  {
    if |ms| > 0 {
      var init := ms[..|ms| - 1];
      BackupIsMaximum(init, depth, p);
      var w := Backup(init, depth, true, p);
      forall j | 0 <= j < |ms|
        ensures Le(ChildValue(ms[j], depth, p), Backup(ms, depth, true, p))
      {
        if j < |ms| - 1 {
          assert ms[j] == init[j];
          LeTotalOrder(ChildValue(ms[j], depth, p), w, Backup(ms, depth, true, p));
        }
      }
      if Backup(ms, depth, true, p) == w && |init| > 0 {
        var j :| 0 <= j < |init| && w == ChildValue(init[j], depth, p);
        assert ms[j] == init[j];
      } else {
        assert Backup(ms, depth, true, p) == ChildValue(ms[|ms| - 1], depth, p);
      }
    }
  }

  /** `alpha_beta(state, depth)`: the move it returns, or None when there is no move (`max` raises). */
  function BestMove(t: Tree, depth: int, p: PlayerId): Option<Action>
  {
    if |t.moves| == 0 then None
    else Some(t.moves[BestIndex(t.moves, depth - 1, p)].action)
  }

  /**
   * The root's choice is legal, and it is a move of maximal value: the value
   * of its child is the depth-limited minimax value of the root.
   */
  lemma BestMoveIsMinimax(t: Tree, depth: int, p: PlayerId)
    ensures BestMove(t, depth, p).None? <==> |t.moves| == 0
    ensures BestMove(t, depth, p).Some? ==> IsLegal(t, BestMove(t, depth, p).value)
    ensures !t.terminal && depth > 0 && |t.moves| > 0 ==>
      ChildValue(t.moves[BestIndex(t.moves, depth - 1, p)], depth - 1, p) == Minimax(t, depth, true, p)
  {
    if |t.moves| > 0 {
      var k := BestIndex(t.moves, depth - 1, p);
      BestIndexIsFirstMaximum(t.moves, depth - 1, p);
      BackupIsMaximum(t.moves, depth - 1, p);
      var m := Backup(t.moves, depth - 1, true, p);
      var j :| 0 <= j < |t.moves| && m == ChildValue(t.moves[j], depth - 1, p);
      LeTotalOrder(m, ChildValue(t.moves[k], depth - 1, p), m);
    }
  }

  /**
   * `alpha_beta(state, depth)`: searches every child with the full window
   * (-inf, +inf) and keeps the first move of maximal value.
   */
  method AlphaBeta(t: Tree, depth: int, p: PlayerId) returns (best: Option<Action>)
    ensures best == BestMove(t, depth, p)
  {
    var ms := t.moves;
    if |ms| == 0 {
      return None;
    }
    var k := 0;
    var bestValue := Beta(ms[0].result, depth - 1, NegInf, PosInf, p);
    var i := 1;
    while i < |ms|
      invariant 1 <= i <= |ms|
      invariant k == BestIndex(ms[..i], depth - 1, p)
      invariant bestValue == ChildValue(ms[k], depth - 1, p)
    {
      var v := Beta(ms[i].result, depth - 1, NegInf, PosInf, p);
      assert ms[..i + 1][..i] == ms[..i];
      if Lt(bestValue, v) {
        k, bestValue := i, v;
      }
      i := i + 1;
    }
    assert ms[..i] == ms;
    best := Some(ms[k].action);
  }
}
