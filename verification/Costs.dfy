/**
 * The cost of code lengths under symbol weights: the encoded length that Huffman coding
 * minimises.
 */
module Costs {
  import opened Kraft

  /** A named product, so that proofs about costs stay linear. */
  function Times(w: nat, l: nat): nat {
    w * l
  }

  function Cost(ws: seq<nat>, ls: seq<nat>): nat
    requires |ws| == |ls|
  {
    if ws == [] then 0 else Times(ws[0], ls[0]) + Cost(ws[1..], ls[1..])
  }

  lemma {:induction false} CostWithout(ws: seq<nat>, ls: seq<nat>, i: nat)
    requires |ws| == |ls| && i < |ls|
    ensures Cost(ws, ls) == Times(ws[i], ls[i]) + Cost(Without(ws, i), Without(ls, i))
  {
    hide Times;
    if i == 0 {
      assert Without(ls, 0) == ls[1..] && Without(ws, 0) == ws[1..];
    } else {
      CostWithout(ws[1..], ls[1..], i - 1);
      WithoutTail(ls, i);
      WithoutTail(ws, i);
    }
  }

  /** Replacing one length changes the cost only by that entry. */
  lemma ReplaceCost(ws: seq<nat>, ls: seq<nat>, i: nat, l: nat)
    requires |ws| == |ls| && i < |ls|
    ensures Cost(ws, ls[i := l]) == Cost(ws, ls) - Times(ws[i], ls[i]) + Times(ws[i], l)
  {
    hide Times;
    assert Without(ls[i := l], i) == Without(ls, i);
    CostWithout(ws, ls, i);
    CostWithout(ws, ls[i := l], i);
  }

  lemma AppendCost(ws: seq<nat>, ls: seq<nat>, w: nat, l: nat)
    requires |ws| == |ls|
    ensures Cost(ws + [w], ls + [l]) == Cost(ws, ls) + Times(w, l)
  {
    hide Times;
    assert Without(ls + [l], |ls|) == ls;
    assert Without(ws + [w], |ws|) == ws;
    CostWithout(ws + [w], ls + [l], |ls|);
  }

  /** Moving the larger length onto the smaller weight never raises the cost. */
  lemma Exchange(w: nat, v: nat, l: nat, m: nat)
    requires w <= v && l <= m
    ensures Times(w, m) + Times(v, l) <= Times(w, l) + Times(v, m)
  {
    assert 0 <= (v - w) * (m - l);
  }

  /** Giving a lighter weight the length at position k, and that position a smaller length, saves cost. */
  lemma SwapLengths(ws: seq<nat>, ls: seq<nat>, k: nat, w: nat, l: nat)
    requires |ws| == |ls| && k < |ls| && w <= ws[k] && l <= ls[k]
    ensures Cost(ws, ls[k := l]) + Times(w, ls[k]) <= Cost(ws, ls) + Times(w, l)
  {
    hide Times, Cost;
    ReplaceCost(ws, ls, k, l);
    Exchange(w, ws[k], l, ls[k]);
  }

  lemma Shorter(w: nat, l: nat, m: nat)
    requires l <= m
    ensures Times(w, l) <= Times(w, m)
  {
    Exchange(0, w, l, m);
  }

  lemma TimesSucc(w: nat, m: nat)
    ensures Times(w, m + 1) == Times(w, m) + w
  {
  }

  lemma Distribute(wa: nat, wb: nat, l: nat)
    ensures Times(wa + wb, l) == Times(wa, l) + Times(wb, l)
  {
  }
}
