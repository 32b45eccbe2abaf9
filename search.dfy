/**
 * Negamax-shaped minimax and alpha-beta search over any tree given by a
 * `children` function, with an integer heuristic at the leaves. A layer is
 * maximising or minimising; values are compared through the layer's sign, so
 * a maximising layer keeps the first child of strictly greatest value and a
 * minimising one the first of strictly least value. The infinite starting
 * values and the alpha-beta window are extended integers.
 */
module Search {
  import opened Options

  // ---------------------------------------------------------------------
  // Extended integers

  datatype ExtInt = NegInf | Finite(n: int) | PosInf

  predicate Lt(a: ExtInt, b: ExtInt) {
    match a
    case NegInf => b != NegInf
    case Finite(x) => b == PosInf || (b.Finite? && x < b.n)
    case PosInf => false
  }

  predicate Le(a: ExtInt, b: ExtInt) {
    !Lt(b, a)
  }

  function Max(a: ExtInt, b: ExtInt): (m: ExtInt)
    ensures Le(a, m) && Le(b, m) && (m == a || m == b)
  {
    if Lt(a, b) then b else a
  }

  function Min(a: ExtInt, b: ExtInt): (m: ExtInt)
    ensures Le(m, a) && Le(m, b) && (m == a || m == b)
  {
    if Lt(b, a) then b else a
  }

  /** The value a layer starts from: minus infinity when maximising, plus infinity when minimising. */
  function Worst(maxPlayer: bool): ExtInt {
    if maxPlayer then NegInf else PosInf
  }

  /** `v` beats `best` for the layer: strictly greater when maximising, strictly less when minimising. */
  predicate Improves(v: ExtInt, best: ExtInt, maxPlayer: bool) {
    if maxPlayer then Lt(best, v) else Lt(v, best)
  }

  /** The most promising child (None at a leaf or at depth 0) and its value. */
  datatype Result<N> = Result(node: Option<N>, value: ExtInt)

  // ---------------------------------------------------------------------
  // The searches as functions

  /** Plain minimax: the value of `node` searched `depth` plies deep. */
  function MinimaxResult<N>(children: N -> seq<N>, h: N -> int, node: N, depth: nat, maxPlayer: bool): Result<N>
    decreases depth, 1, 0
  {
    var cs := children(node);
    if depth == 0 || |cs| == 0 then Result(None, Finite(h(node)))
    else MinimaxLoop(children, h, cs, depth, maxPlayer, 0, None, Worst(maxPlayer))
  }

  /** The loop over the children of a minimax layer, from child i on, with the best so far. */
  function MinimaxLoop<N>(children: N -> seq<N>, h: N -> int, cs: seq<N>, depth: nat, maxPlayer: bool,
                          i: nat, bestNode: Option<N>, bestValue: ExtInt): Result<N>
    requires 1 <= depth && i <= |cs|
    decreases depth, 0, |cs| - i
  {
    if i == |cs| then Result(bestNode, bestValue)
    else
      var v := MinimaxResult(children, h, cs[i], depth - 1, !maxPlayer).value;
      if Improves(v, bestValue, maxPlayer)
      then MinimaxLoop(children, h, cs, depth, maxPlayer, i + 1, Some(cs[i]), v)
      else MinimaxLoop(children, h, cs, depth, maxPlayer, i + 1, bestNode, bestValue)
  }

  /** Alpha-beta search of `node` with the window (alpha, beta). */
  function AlphaBetaResult<N>(children: N -> seq<N>, h: N -> int, node: N, depth: nat,
                              alpha: ExtInt, beta: ExtInt, maxPlayer: bool): Result<N>
    decreases depth, 1, 0
  {
    var cs := children(node);
    if depth == 0 || |cs| == 0 then Result(None, Finite(h(node)))
    else AlphaBetaLoop(children, h, cs, depth, maxPlayer, 0, alpha, beta, None, Worst(maxPlayer))
  }

  /** The bounds and the best-so-far pair of an alpha-beta loop. */
  datatype Frame<N> = Frame(alpha: ExtInt, beta: ExtInt, bestNode: Option<N>, bestValue: ExtInt)

  /**
   * One round of an alpha-beta loop: search child i with the current window,
   * keep it if it strictly improves on the best so far, then move the bound of
   * the layer's side to the best value.
   */
  function AlphaBetaStep<N>(children: N -> seq<N>, h: N -> int, cs: seq<N>, depth: nat, maxPlayer: bool,
                            i: nat, alpha: ExtInt, beta: ExtInt, bestNode: Option<N>, bestValue: ExtInt): Frame<N>
    requires 1 <= depth && i < |cs|
    decreases depth, 0, 0
  {
    var v := AlphaBetaResult(children, h, cs[i], depth - 1, alpha, beta, !maxPlayer).value;
    var better := Improves(v, bestValue, maxPlayer);
    var node' := if better then Some(cs[i]) else bestNode;
    var value' := if better then v else bestValue;
    Frame(if maxPlayer then Max(alpha, value') else alpha, if maxPlayer then beta else Min(beta, value'), node', value')
  }

  /**
   * The loop over the children of an alpha-beta layer, from child i on. It
   * stops as soon as a round leaves beta <= alpha.
   */
  function AlphaBetaLoop<N>(children: N -> seq<N>, h: N -> int, cs: seq<N>, depth: nat, maxPlayer: bool,
                            i: nat, alpha: ExtInt, beta: ExtInt, bestNode: Option<N>, bestValue: ExtInt): Result<N>
    requires 1 <= depth && i <= |cs|
    decreases depth, 0, |cs| - i + 1
  {
    if i == |cs| then Result(bestNode, bestValue)
    else
      var f := AlphaBetaStep(children, h, cs, depth, maxPlayer, i, alpha, beta, bestNode, bestValue);
      if Le(f.beta, f.alpha) then Result(f.bestNode, f.bestValue)
      else AlphaBetaLoop(children, h, cs, depth, maxPlayer, i + 1, f.alpha, f.beta, f.bestNode, f.bestValue)
  }

  /** The child after which an alpha-beta loop from child i stops early, or None when it runs to the end. */
  function CutAt<N>(children: N -> seq<N>, h: N -> int, cs: seq<N>, depth: nat, maxPlayer: bool,
                    i: nat, alpha: ExtInt, beta: ExtInt, bestNode: Option<N>, bestValue: ExtInt): (cut: Option<nat>)
    requires 1 <= depth && i <= |cs|
    ensures cut.Some? ==> i <= cut.value < |cs|
    decreases |cs| - i
  {
    if i == |cs| then None
    else
      var f := AlphaBetaStep(children, h, cs, depth, maxPlayer, i, alpha, beta, bestNode, bestValue);
      if Le(f.beta, f.alpha) then Some(i)
      else CutAt(children, h, cs, depth, maxPlayer, i + 1, f.alpha, f.beta, f.bestNode, f.bestValue)
  }

  // ---------------------------------------------------------------------
  // The searches as methods

  /** Plain minimax search, without pruning. */
  method Minimax<N>(children: N -> seq<N>, h: N -> int, node: N, depth: nat, maxPlayer: bool) returns (r: Result<N>)
    ensures r == MinimaxResult(children, h, node, depth, maxPlayer)
    ensures depth == 0 || |children(node)| == 0 ==> r == Result(None, Finite(h(node)))
    decreases depth
  {
    var cs := children(node);
    if depth == 0 || |cs| == 0 {
      return Result(None, Finite(h(node)));
    }
    var bestValue := Worst(maxPlayer);
    var bestNode := None;
    for i := 0 to |cs|
      invariant MinimaxResult(children, h, node, depth, maxPlayer)
        == MinimaxLoop(children, h, cs, depth, maxPlayer, i, bestNode, bestValue)
    {
      var childResult := Minimax(children, h, cs[i], depth - 1, !maxPlayer);
      if Improves(childResult.value, bestValue, maxPlayer) {
        bestNode := Some(cs[i]);
        bestValue := childResult.value;
      }
    }
    return Result(bestNode, bestValue);
  }

  /** Alpha-beta search with the window (alpha, beta). */
  method AlphaBeta<N>(children: N -> seq<N>, h: N -> int, node: N, depth: nat,
                      alpha: ExtInt, beta: ExtInt, maxPlayer: bool) returns (r: Result<N>)
    ensures r == AlphaBetaResult(children, h, node, depth, alpha, beta, maxPlayer)
    ensures depth == 0 || |children(node)| == 0 ==> r == Result(None, Finite(h(node)))
    decreases depth
  {
    var cs := children(node);
    if depth == 0 || |cs| == 0 {
      return Result(None, Finite(h(node)));
    }
    var a, b := alpha, beta;
    var bestValue := Worst(maxPlayer);
    var bestNode := None;
    var i := 0;
    while i < |cs|
      invariant 0 <= i <= |cs|
      invariant AlphaBetaResult(children, h, node, depth, alpha, beta, maxPlayer)
        == AlphaBetaLoop(children, h, cs, depth, maxPlayer, i, a, b, bestNode, bestValue)
    {
      var childResult := AlphaBeta(children, h, cs[i], depth - 1, a, b, !maxPlayer);
      if Improves(childResult.value, bestValue, maxPlayer) {
        bestNode := Some(cs[i]);
        bestValue := childResult.value;
      }
      if maxPlayer {
        a := Max(a, bestValue);
      } else {
        b := Min(b, bestValue);
      }
      if Le(b, a) {
        return Result(bestNode, bestValue);
      }
      i := i + 1;
    }
    return Result(bestNode, bestValue);
  }

  // ---------------------------------------------------------------------
  // Properties of minimax

  /** The value of child j of a minimax layer. */
  function ChildValue<N>(children: N -> seq<N>, h: N -> int, cs: seq<N>, j: nat, depth: nat, maxPlayer: bool): ExtInt
    requires 1 <= depth && j < |cs|
  {
    MinimaxResult(children, h, cs[j], depth - 1, !maxPlayer).value
  }

  /** Whether a best-so-far pair of a minimax loop is the starting one or a real child with a finite value. */
  predicate Started<N>(maxPlayer: bool, i: nat, n: nat, bestNode: Option<N>, bestValue: ExtInt) {
    if bestNode.None? then bestValue == Worst(maxPlayer) && i < n else bestValue.Finite?
  }

  /** Every minimax value is finite, and the best node is missing exactly at depth 0 and at a leaf. */
  lemma {:induction false} MinimaxShape<N>(children: N -> seq<N>, h: N -> int, node: N, depth: nat, maxPlayer: bool)
    ensures MinimaxResult(children, h, node, depth, maxPlayer).value.Finite?
    ensures MinimaxResult(children, h, node, depth, maxPlayer).node.None? <==> depth == 0 || |children(node)| == 0
    decreases depth, 1, 0
  {
    var cs := children(node);
    if depth > 0 && |cs| > 0 {
      MinimaxLoopShape(children, h, cs, depth, maxPlayer, 0, None, Worst(maxPlayer));
    }
  }

  lemma {:induction false} MinimaxLoopShape<N>(children: N -> seq<N>, h: N -> int, cs: seq<N>, depth: nat, maxPlayer: bool,
                                               i: nat, bestNode: Option<N>, bestValue: ExtInt)
    requires 1 <= depth && i <= |cs|
    requires Started(maxPlayer, i, |cs|, bestNode, bestValue)
    ensures MinimaxLoop(children, h, cs, depth, maxPlayer, i, bestNode, bestValue).value.Finite?
    ensures MinimaxLoop(children, h, cs, depth, maxPlayer, i, bestNode, bestValue).node.Some?
    decreases depth, 0, |cs| - i
  {
    if i < |cs| {
      MinimaxShape(children, h, cs[i], depth - 1, !maxPlayer);
      var v := ChildValue(children, h, cs, i, depth, maxPlayer);
      if Improves(v, bestValue, maxPlayer) {
        MinimaxLoopShape(children, h, cs, depth, maxPlayer, i + 1, Some(cs[i]), v);
      } else {
        MinimaxLoopShape(children, h, cs, depth, maxPlayer, i + 1, bestNode, bestValue);
      }
    }
  }

  /** The rest of a minimax loop never ends worse, for the layer, than the best value it starts from. */
  lemma {:induction false} MinimaxLoopMono<N>(children: N -> seq<N>, h: N -> int, cs: seq<N>, depth: nat, maxPlayer: bool,
                                              i: nat, bestNode: Option<N>, bestValue: ExtInt)
    requires 1 <= depth && i <= |cs|
    ensures var r := MinimaxLoop(children, h, cs, depth, maxPlayer, i, bestNode, bestValue);
      if maxPlayer then Le(bestValue, r.value) else Le(r.value, bestValue)
    decreases |cs| - i
  {
    if i < |cs| {
      var v := ChildValue(children, h, cs, i, depth, maxPlayer);
      if Improves(v, bestValue, maxPlayer) {
        MinimaxLoopMono(children, h, cs, depth, maxPlayer, i + 1, Some(cs[i]), v);
      } else {
        MinimaxLoopMono(children, h, cs, depth, maxPlayer, i + 1, bestNode, bestValue);
      }
    }
  }

  /**
   * A minimax loop from child i on, started from child k < i (or from nothing
   * when i == 0), ends on some child k' whose value no child beats and which
   * strictly beats every child before it.
   */
  lemma {:induction false} MinimaxLoopBest<N>(children: N -> seq<N>, h: N -> int, cs: seq<N>, depth: nat, maxPlayer: bool,
                                              i: nat, k: nat, bestNode: Option<N>, bestValue: ExtInt) returns (k': nat)
    requires 1 <= depth && 0 < i <= |cs| && k < i
    requires bestNode == Some(cs[k]) && bestValue == ChildValue(children, h, cs, k, depth, maxPlayer)
    requires forall j :: 0 <= j < i ==> !Improves(ChildValue(children, h, cs, j, depth, maxPlayer), bestValue, maxPlayer)
    requires forall j :: 0 <= j < k ==> Improves(bestValue, ChildValue(children, h, cs, j, depth, maxPlayer), maxPlayer)
    ensures k' < |cs|
    ensures var r := MinimaxLoop(children, h, cs, depth, maxPlayer, i, bestNode, bestValue);
      r.node == Some(cs[k']) && r.value == ChildValue(children, h, cs, k', depth, maxPlayer)
    ensures forall j :: 0 <= j < |cs| ==>
      !Improves(ChildValue(children, h, cs, j, depth, maxPlayer), ChildValue(children, h, cs, k', depth, maxPlayer), maxPlayer)
    ensures forall j :: 0 <= j < k' ==>
      Improves(ChildValue(children, h, cs, k', depth, maxPlayer), ChildValue(children, h, cs, j, depth, maxPlayer), maxPlayer)
    decreases |cs| - i
  {
    if i == |cs| {
      k' := k;
    } else {
      var v := ChildValue(children, h, cs, i, depth, maxPlayer);
      if Improves(v, bestValue, maxPlayer) {
        k' := MinimaxLoopBest(children, h, cs, depth, maxPlayer, i + 1, i, Some(cs[i]), v);
      } else {
        k' := MinimaxLoopBest(children, h, cs, depth, maxPlayer, i + 1, k, bestNode, bestValue);
      }
    }
  }

  /**
   * Below the root, minimax picks the first child of best value: the result
   * is some child k with its own value, no child has a strictly better value
   * and every earlier child a strictly worse one.
   */
  lemma MinimaxIsFirstBest<N>(children: N -> seq<N>, h: N -> int, node: N, depth: nat, maxPlayer: bool)
    requires depth > 0 && |children(node)| > 0
    ensures var cs := children(node); var r := MinimaxResult(children, h, node, depth, maxPlayer);
      exists k :: 0 <= k < |cs| && r.node == Some(cs[k]) && r.value == ChildValue(children, h, cs, k, depth, maxPlayer)
        && (forall j :: 0 <= j < |cs| ==>
              !Improves(ChildValue(children, h, cs, j, depth, maxPlayer), r.value, maxPlayer))
        && (forall j :: 0 <= j < k ==>
              Improves(r.value, ChildValue(children, h, cs, j, depth, maxPlayer), maxPlayer))
  {
    var cs := children(node);
    MinimaxShape(children, h, cs[0], depth - 1, !maxPlayer);
    var v := ChildValue(children, h, cs, 0, depth, maxPlayer);
    assert Improves(v, Worst(maxPlayer), maxPlayer);
    var k := MinimaxLoopBest(children, h, cs, depth, maxPlayer, 1, 0, Some(cs[0]), v);
  }

  /**
   * Alpha-beta examines the children in order and none after the one at which
   * the window closes: any list of children that agrees with `cs` up to that
   * one gives the same result and closes at the same child.
   */
  lemma {:induction false} AlphaBetaExaminesPrefix<N>(children: N -> seq<N>, h: N -> int, cs: seq<N>, cs': seq<N>,
                                                      depth: nat, maxPlayer: bool, i: nat, alpha: ExtInt, beta: ExtInt,
                                                      bestNode: Option<N>, bestValue: ExtInt)
    requires 1 <= depth && i <= |cs| && i <= |cs'|
    requires CutAt(children, h, cs, depth, maxPlayer, i, alpha, beta, bestNode, bestValue).Some?
    requires var j := CutAt(children, h, cs, depth, maxPlayer, i, alpha, beta, bestNode, bestValue).value;
      j < |cs'| && cs'[..j + 1] == cs[..j + 1]
    ensures AlphaBetaLoop(children, h, cs', depth, maxPlayer, i, alpha, beta, bestNode, bestValue)
         == AlphaBetaLoop(children, h, cs, depth, maxPlayer, i, alpha, beta, bestNode, bestValue)
    ensures CutAt(children, h, cs', depth, maxPlayer, i, alpha, beta, bestNode, bestValue)
         == CutAt(children, h, cs, depth, maxPlayer, i, alpha, beta, bestNode, bestValue)
    decreases |cs| - i
  {
    var j := CutAt(children, h, cs, depth, maxPlayer, i, alpha, beta, bestNode, bestValue).value;
    assert cs'[i] == cs'[..j + 1][i] == cs[..j + 1][i] == cs[i];
    var f := AlphaBetaStep(children, h, cs, depth, maxPlayer, i, alpha, beta, bestNode, bestValue);
    if !Le(f.beta, f.alpha) {
      AlphaBetaExaminesPrefix(children, h, cs, cs', depth, maxPlayer, i + 1, f.alpha, f.beta, f.bestNode, f.bestValue);
    }
  }

  // ---------------------------------------------------------------------
  // Alpha-beta against minimax

  /**
   * The fail-soft relation between an alpha-beta result and the minimax
   * result of the same node: when minimax fails low (at most alpha) alpha-beta
   * returns a value between the two; when it fails high (at least beta)
   * alpha-beta returns a value between beta and it; strictly inside the
   * window both return the same node and value.
   */
  ghost predicate FailSoft<N>(ab: Result<N>, mm: Result<N>, alpha: ExtInt, beta: ExtInt) {
    && (Le(mm.value, alpha) ==> Le(mm.value, ab.value) && Le(ab.value, alpha))
    && (Le(beta, mm.value) ==> Le(beta, ab.value) && Le(ab.value, mm.value))
    && (Lt(alpha, mm.value) && Lt(mm.value, beta) ==> ab == mm)
  }

  /**
   * How the best-so-far pairs of an alpha-beta loop (bnA, bvA) and a minimax
   * loop (bnM, bvM) over the same children relate while no cut has happened:
   * either every child so far failed on the layer's bad side of the original
   * window (a0, b0), or the two pairs are equal and strictly inside it.
   */
  ghost predicate LoopState<N>(maxPlayer: bool, a0: ExtInt, b0: ExtInt,
                         bnA: Option<N>, bvA: ExtInt, bnM: Option<N>, bvM: ExtInt) {
    || (if maxPlayer then Le(bvM, bvA) && Le(bvA, a0) else Le(b0, bvA) && Le(bvA, bvM))
    || (Lt(a0, bvM) && Lt(bvM, b0) && bnA == bnM && bvA == bvM)
  }

  /** Alpha-beta is fail-soft with respect to minimax on every node and every non-empty window. */
  lemma {:induction false} AlphaBetaSoft<N>(children: N -> seq<N>, h: N -> int, node: N, depth: nat,
                                            alpha: ExtInt, beta: ExtInt, maxPlayer: bool)
    requires Lt(alpha, beta)
    ensures FailSoft(AlphaBetaResult(children, h, node, depth, alpha, beta, maxPlayer),
                     MinimaxResult(children, h, node, depth, maxPlayer), alpha, beta)
    decreases depth, 1, 0
  {
    var cs := children(node);
    if depth > 0 && |cs| > 0 {
      var w := Worst(maxPlayer);
      AlphaBetaLoopSoft(children, h, cs, depth, maxPlayer, 0, alpha, beta, alpha, beta, None, w, None, w);
    }
  }

  lemma {:induction false} AlphaBetaLoopSoft<N>(children: N -> seq<N>, h: N -> int, cs: seq<N>, depth: nat, maxPlayer: bool,
                                                i: nat, a0: ExtInt, b0: ExtInt, alpha: ExtInt, beta: ExtInt,
                                                bnA: Option<N>, bvA: ExtInt, bnM: Option<N>, bvM: ExtInt)
    requires 1 <= depth && i <= |cs| && Lt(a0, b0) && Lt(alpha, beta)
    requires maxPlayer ==> alpha == Max(a0, bvA) && beta == b0
    requires !maxPlayer ==> alpha == a0 && beta == Min(b0, bvA)
    requires LoopState(maxPlayer, a0, b0, bnA, bvA, bnM, bvM)
    ensures FailSoft(AlphaBetaLoop(children, h, cs, depth, maxPlayer, i, alpha, beta, bnA, bvA),
                     MinimaxLoop(children, h, cs, depth, maxPlayer, i, bnM, bvM), a0, b0)
    decreases depth, 0, |cs| - i
  {
    if i < |cs| {
      AlphaBetaSoft(children, h, cs[i], depth - 1, alpha, beta, !maxPlayer);
      var r := AlphaBetaResult(children, h, cs[i], depth - 1, alpha, beta, !maxPlayer).value;
      var v := MinimaxResult(children, h, cs[i], depth - 1, !maxPlayer).value;
      var bnA' := if Improves(r, bvA, maxPlayer) then Some(cs[i]) else bnA;
      var bvA' := if Improves(r, bvA, maxPlayer) then r else bvA;
      var bnM' := if Improves(v, bvM, maxPlayer) then Some(cs[i]) else bnM;
      var bvM' := if Improves(v, bvM, maxPlayer) then v else bvM;
      var alpha' := if maxPlayer then Max(alpha, bvA') else alpha;
      var beta' := if maxPlayer then beta else Min(beta, bvA');
      MinimaxLoopMono(children, h, cs, depth, maxPlayer, i + 1, bnM', bvM');
      if !Le(beta', alpha') {
        AlphaBetaLoopSoft(children, h, cs, depth, maxPlayer, i + 1, a0, b0, alpha', beta', bnA', bvA', bnM', bvM');
      }
    }
  }

  /**
   * With the infinite window the search starts from, alpha-beta returns
   * exactly the node and value plain minimax returns.
   */
  lemma AlphaBetaIsMinimax<N>(children: N -> seq<N>, h: N -> int, node: N, depth: nat, maxPlayer: bool)
    ensures AlphaBetaResult(children, h, node, depth, NegInf, PosInf, maxPlayer)
         == MinimaxResult(children, h, node, depth, maxPlayer)
  {
    AlphaBetaSoft(children, h, node, depth, NegInf, PosInf, maxPlayer);
    MinimaxShape(children, h, node, depth, maxPlayer);
  }
}
