/**
 * The step of the optimality proof of Huffman coding: merging the two lightest weights
 * carries lower bounds on the cost of all feasible length assignments back.
 */
module GreedyMerge {
  import opened Costs
  import opened Kraft
  import opened Powers

  /**
   * The step of the optimality proof. From any feasible lengths in which wa <= wb are
   * the two smallest weights, there are feasible lengths after replacing both by one item of
   * weight wa + wb that cost at least wa + wb less.
   */
  lemma {:induction false} MergeLengths(wa: nat, wb: nat, la: nat, lb: nat, rw: seq<nat>, rl: seq<nat>, cap: nat)
    returns (m: nat, rl': seq<nat>, cap': nat)
    requires |rw| == |rl| && wa <= wb && forall k :: 0 <= k < |rw| ==> wb <= rw[k]
    requires la <= cap && lb <= cap && Fits(rl, cap)
    requires Pow2(cap - la) + Pow2(cap - lb) + KraftSum(rl, cap) <= Pow2(cap)
    ensures |rl'| == |rw| && m <= cap' && Fits(rl', cap')
    ensures Pow2(cap' - m) + KraftSum(rl', cap') <= Pow2(cap')
    ensures Cost(rw, rl') + Times(wa + wb, m + 1) <= Times(wa, la) + Times(wb, lb) + Cost(rw, rl)
    decreases cap, (if la < cap then 1 else 0) + (if lb < cap then 1 else 0)
  {
    assert cap > 0;
    hide Cost, KraftSum, Times;
    if la == cap && lb == cap {
      m, rl', cap' := cap - 1, rl, cap;
      assert Pow2(1) == 2 * Pow2(0);
      Distribute(wa, wb, cap);
    } else if k :| 0 <= k < |rl| && rl[k] == cap {
      if la < cap {
        ReplaceLength(rl, cap, k, la);
        SwapLengths(rw, rl, k, wa, la);
        m, rl', cap' := MergeLengths(wa, wb, cap, lb, rw, rl[k := la], cap);
      } else {
        ReplaceLength(rl, cap, k, lb);
        SwapLengths(rw, rl, k, wb, lb);
        m, rl', cap' := MergeLengths(wa, wb, la, cap, rw, rl[k := lb], cap);
      }
    } else {
      var la', lb' := LowerCap(la, lb, rl, cap);
      Shorter(wa, la', la);
      Shorter(wb, lb', lb);
      m, rl', cap' := MergeLengths(wa, wb, la', lb', rw, rl, cap - 1);
    }
  }

  /** Where at most one length equals the cap, parity leaves room to shorten it by one. */
  lemma LowerCap(la: nat, lb: nat, rl: seq<nat>, cap: nat) returns (la': nat, lb': nat)
    requires la <= cap && lb <= cap && !(la == cap && lb == cap) && cap > 0
    requires Fits(rl, cap) && forall k :: 0 <= k < |rl| ==> rl[k] != cap
    requires Pow2(cap - la) + Pow2(cap - lb) + KraftSum(rl, cap) <= Pow2(cap)
    ensures la' <= la && lb' <= lb && la' < cap && lb' < cap && Fits(rl, cap - 1)
    ensures Pow2(cap - 1 - la') + Pow2(cap - 1 - lb') + KraftSum(rl, cap - 1) <= Pow2(cap - 1)
  {
    HalveCap(rl, cap);
    la' := if la == cap then cap - 1 else la;
    lb' := if lb == cap then cap - 1 else lb;
    assert Pow2(0) == 1;
    assert la < cap ==> Pow2(cap - la) == 2 * Pow2(cap - 1 - la);
    assert lb < cap ==> Pow2(cap - lb) == 2 * Pow2(cap - 1 - lb);
  }

  /** No feasible assignment of lengths to the weights costs less than b. */
  ghost predicate LowerBound(ws: seq<nat>, b: int) {
    forall ls: seq<nat>, cap: nat :: |ls| == |ws| && Feasible(ls, cap) ==> b <= Cost(ws, ls)
  }

  /** Undoing one greedy merge adds the merged weight to a lower bound. */
  lemma MergeLowerBound(ws: seq<nat>, i: nat, j: nat, b: int)
    requires i < |ws| && j < |ws| - 1
    requires forall k :: 0 <= k < |ws| ==> ws[i] <= ws[k]
    requires forall k :: 0 <= k < |ws| - 1 ==> Without(ws, i)[j] <= Without(ws, i)[k]
    requires LowerBound(Without(Without(ws, i), j) + [ws[i] + Without(ws, i)[j]], b)
    ensures LowerBound(ws, b + ws[i] + Without(ws, i)[j])
  {
    var ws1 := Without(ws, i);
    var rw, wa, wb := Without(ws1, j), ws[i], ws1[j];
    WithoutKeepsMin(ws, i, wa);
    WithoutKeepsMin(ws1, j, wb);
    forall ls: seq<nat>, cap: nat | |ls| == |ws| && Feasible(ls, cap)
      ensures b + wa + wb <= Cost(ws, ls)
    {
      var m, rl, cap' := MergeAt(ws, i, j, ls, cap);
      AppendLength(rl, cap', m);
      AppendCost(rw, rl, wa + wb, m);
      assert Feasible(rl + [m], cap');
      TimesSucc(wa + wb, m);
    }
  }

  lemma WithoutKeepsMin(ws: seq<nat>, i: nat, w: nat)
    requires i < |ws| && forall k :: 0 <= k < |ws| ==> w <= ws[k]
    ensures forall k :: 0 <= k < |ws| - 1 ==> w <= Without(ws, i)[k]
  {
  }

  /** MergeLengths for the weights at two positions of a sequence. */
  lemma MergeAt(ws: seq<nat>, i: nat, j: nat, ls: seq<nat>, cap: nat) returns (m: nat, rl: seq<nat>, cap': nat)
    requires i < |ws| && j < |ws| - 1 && |ls| == |ws| && Feasible(ls, cap)
    requires var ws1 := Without(ws, i);
      ws[i] <= ws1[j] && forall k :: 0 <= k < |ws| - 2 ==> ws1[j] <= Without(ws1, j)[k]
    ensures |rl| == |ws| - 2 && m <= cap' && Fits(rl, cap')
    ensures Pow2(cap' - m) + KraftSum(rl, cap') <= Pow2(cap')
    ensures var ws1 := Without(ws, i);
      Cost(Without(ws1, j), rl) + Times(ws[i] + ws1[j], m + 1) <= Cost(ws, ls)
  {
    var ws1, ls1 := Without(ws, i), Without(ls, i);
    KraftWithout(ls, cap, i);
    CostWithout(ws, ls, i);
    KraftWithout(ls1, cap, j);
    CostWithout(ws1, ls1, j);
    m, rl, cap' := MergeLengths(ws[i], ws1[j], ls[i], ls1[j], Without(ws1, j), Without(ls1, j), cap);
  }
}
