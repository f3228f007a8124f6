/**
 * Huffman trees of scripts/lambda_codebook.py: greedy construction over a heap and
 * extraction of the codewords into a dictionary.
 */
module HuffmanTree {
  import opened Costs
  import opened GreedyMerge
  import opened Kraft
  import opened Powers

  /** Characters and words are both keys of the codebooks, hence strings. */
  type Symbol = string
  type Item = (Symbol, nat)
  type Codes = map<Symbol, Bits>

  /** HuffNode: a node has a symbol exactly if it is a leaf. Nodes are never updated. */
  datatype Node =
    | Leaf(weight: nat, symbol: Symbol)
    | Inner(weight: nat, left: Node, right: Node)

  /** Weights add up, and the node that was popped first, which is no heavier, is on the left. */
  ghost predicate WellFormed(t: Node) {
    t.Inner? ==>
      && t.weight == t.left.weight + t.right.weight && t.left.weight <= t.right.weight
      && WellFormed(t.left) && WellFormed(t.right)
  }

  function Items(t: Node): seq<Item> {
    match t
    case Leaf(w, s) => [(s, w)]
    case Inner(_, l, r) => Items(l) + Items(r)
  }

  /** The sum of the inner weights, which is the weighted length of the extracted code. */
  ghost function MergeCost(t: Node): nat {
    match t
    case Leaf(_, _) => 0
    case Inner(w, l, r) => w + MergeCost(l) + MergeCost(r)
  }

  // ----- Dictionaries as item lists -----

  /** A dictionary in iteration order: its keys are distinct. */
  predicate IsDict<V>(items: seq<(Symbol, V)>) {
    forall i, j :: 0 <= i < j < |items| ==> items[i].0 != items[j].0
  }

  /** The entries that survive the filter w > 0. */
  function Positive(freq: seq<(Symbol, int)>): seq<Item> {
    if freq == [] then []
    else if freq[0].1 > 0 then [(freq[0].0, freq[0].1)] + Positive(freq[1..])
    else Positive(freq[1..])
  }

  lemma {:induction false} PositiveMembers(freq: seq<(Symbol, int)>)
    ensures forall s, w :: (s, w) in Positive(freq) <==> (s, w) in freq && w > 0
    ensures IsDict(freq) ==> IsDict(Positive(freq))
  {
    if freq == [] {
    } else {
      PositiveMembers(freq[1..]);
      assert freq == [freq[0]] + freq[1..];
    }
  }

  function Weights(items: seq<Item>): (ws: seq<nat>)
    ensures |ws| == |items| && forall i :: 0 <= i < |ws| ==> ws[i] == items[i].1
  {
    seq(|items|, i requires 0 <= i < |items| => items[i].1)
  }

  // ----- Construction -----

  ghost function ForestItems(heap: seq<Node>): seq<Item> {
    if heap == [] then [] else Items(heap[0]) + ForestItems(heap[1..])
  }

  ghost function ForestCost(heap: seq<Node>): nat {
    if heap == [] then 0 else MergeCost(heap[0]) + ForestCost(heap[1..])
  }

  function RootWeights(heap: seq<Node>): (ws: seq<nat>)
    ensures |ws| == |heap| && forall i :: 0 <= i < |ws| ==> ws[i] == heap[i].weight
  {
    seq(|heap|, i requires 0 <= i < |heap| => heap[i].weight)
  }

  lemma {:induction false} ForestConcat(a: seq<Node>, b: seq<Node>)
    ensures ForestItems(a + b) == ForestItems(a) + ForestItems(b)
    ensures ForestCost(a + b) == ForestCost(a) + ForestCost(b)
  {
    if a == [] {
      assert a + b == b;
    } else {
      assert a + b == [a[0]] + (a[1..] + b);
      ForestConcat(a[1..], b);
    }
  }

  lemma ForestSnoc(heap: seq<Node>, t: Node)
    ensures ForestItems(heap + [t]) == ForestItems(heap) + Items(t)
    ensures ForestCost(heap + [t]) == ForestCost(heap) + MergeCost(t)
    ensures RootWeights(heap + [t]) == RootWeights(heap) + [t.weight]
  {
    ForestConcat(heap, [t]);
    assert [t][1..] == [];
  }

  lemma {:induction false} ForestWithout(heap: seq<Node>, i: nat)
    requires i < |heap|
    ensures multiset(ForestItems(heap)) == multiset(Items(heap[i])) + multiset(ForestItems(Without(heap, i)))
    ensures ForestCost(heap) == MergeCost(heap[i]) + ForestCost(Without(heap, i))
  {
    if i == 0 {
      assert Without(heap, 0) == heap[1..];
    } else {
      ForestWithout(heap[1..], i - 1);
      WithoutTail(heap, i);
      var rest := Without(heap[1..], i - 1);
      assert ([heap[0]] + rest)[1..] == rest;
    }
  }

  lemma RootWeightsWithout(heap: seq<Node>, i: nat)
    requires i < |heap|
    ensures RootWeights(Without(heap, i)) == Without(RootWeights(heap), i)
  {
  }

  lemma {:induction false} LightestExists(heap: seq<Node>) returns (i: nat)
    requires heap != []
    ensures i < |heap| && forall j :: 0 <= j < |heap| ==> heap[i].weight <= heap[j].weight
  {
    if |heap| == 1 {
      i := 0;
    } else {
      var k := LightestExists(heap[1..]);
      i := if heap[0].weight <= heap[k + 1].weight then 0 else k + 1;
      forall j | 0 < j < |heap| ensures heap[k + 1].weight <= heap[j].weight {
        assert heap[j] == heap[1..][j - 1];
      }
    }
  }

  /**
   * heapq.heappop by its contract: it removes one lightest node. Which of several
   * lightest nodes is removed is left open, so results hold for every tie-break.
   */
  method HeapPop(heap: seq<Node>) returns (top: Node, rest: seq<Node>, ghost i: nat)
    requires heap != []
    ensures i < |heap| && top == heap[i] && rest == Without(heap, i)
    ensures forall j :: 0 <= j < |heap| ==> top.weight <= heap[j].weight
  {
    ghost var lightest := LightestExists(heap);
    var k :| 0 <= k < |heap| && forall j :: 0 <= j < |heap| ==> heap[k].weight <= heap[j].weight;
    top, rest, i := heap[k], heap[..k] + heap[k + 1..], k;
  }

  method InitialHeap(freq: seq<(Symbol, int)>) returns (heap: seq<Node>)
    ensures ForestItems(heap) == Positive(freq) && ForestCost(heap) == 0
    ensures RootWeights(heap) == Weights(Positive(freq))
    ensures forall t :: t in heap ==> WellFormed(t)
  {
    heap := [];
    for k := 0 to |freq|
      invariant ForestItems(heap) == Positive(freq[..k]) && ForestCost(heap) == 0
      invariant RootWeights(heap) == Weights(Positive(freq[..k]))
      invariant forall t :: t in heap ==> WellFormed(t)
    {
      assert freq[..k] + [freq[k]] == freq[..k + 1];
      PositiveSnoc(freq[..k], freq[k]);
      if freq[k].1 > 0 {
        ghost var before := heap;
        heap := heap + [Leaf(freq[k].1, freq[k].0)];
        ForestSnoc(before, Leaf(freq[k].1, freq[k].0));
      }
    }
    assert freq[..|freq|] == freq;
  }

  lemma {:induction false} PositiveSnoc(freq: seq<(Symbol, int)>, e: (Symbol, int))
    ensures Positive(freq + [e]) == Positive(freq) + if e.1 > 0 then [(e.0, e.1)] else []
  {
    if freq == [] {
    } else {
      PositiveSnoc(freq[1..], e);
      assert (freq + [e])[1..] == freq[1..] + [e];
    }
  }

  /**
   * build_huffman_tree. The tree has the positive entries as leaves, and its cost is a
   * lower bound for every assignment of lengths that satisfies Kraft's inequality.
   */
  method BuildHuffmanTree(freq: seq<(Symbol, int)>) returns (tree: Node)
    ensures WellFormed(tree)
    ensures Positive(freq) == [] ==> tree == Leaf(1, "\0")
    ensures Positive(freq) != [] ==>
      && multiset(Items(tree)) == multiset(Positive(freq))
      && LowerBound(Weights(Positive(freq)), MergeCost(tree))
  {
    var heap := InitialHeap(freq);
    ghost var ws := RootWeights(heap);
    while |heap| > 1
      invariant heap == [] <==> Positive(freq) == []
      invariant forall t :: t in heap ==> WellFormed(t)
      invariant multiset(ForestItems(heap)) == multiset(Positive(freq))
      invariant BoundCarries(heap, ws, ForestCost(heap))
      decreases |heap|
    {
      hide LowerBound, ForestItems, ForestCost, Positive;
      heap := MergeLightest(heap);
    }
    if heap == [] {
      return Leaf(1, "\0");
    }
    tree := heap[0];
    ForestSnoc([], tree);
    assert [] + [tree] == heap;
    assert LowerBound(RootWeights(heap), 0);
  }

  /** Lower bounds for the heap, raised by c, are lower bounds for the weights ws. */
  ghost predicate BoundCarries(heap: seq<Node>, ws: seq<nat>, c: int) {
    forall b: int {:trigger LowerBound(RootWeights(heap), b)} ::
      LowerBound(RootWeights(heap), b) ==> LowerBound(ws, b + c)
  }

  /** One turn of the loop: the two lightest nodes become the children of a new node. */
  method MergeLightest(heap: seq<Node>) returns (merged: seq<Node>)
    requires |heap| > 1 && forall t :: t in heap ==> WellFormed(t)
    ensures |merged| == |heap| - 1 && forall t :: t in merged ==> WellFormed(t)
    ensures multiset(ForestItems(merged)) == multiset(ForestItems(heap))
    ensures BoundCarries(merged, RootWeights(heap), ForestCost(merged) - ForestCost(heap))
  {
    var a, rest, i := HeapPop(heap);
    var b, rest', j := HeapPop(rest);
    var parent := Inner(a.weight + b.weight, a, b);
    merged := rest' + [parent];
    WithoutKeepsWellFormed(heap, i);
    WithoutKeepsWellFormed(rest, j);
    assert b in rest && exists k :: 0 <= k < |heap| && heap[k] == b;
    MergeKeepsForest(heap, i, j, parent);
    MergeKeepsBound(heap, i, j, parent);
  }

  lemma MergeKeepsForest(heap: seq<Node>, i: nat, j: nat, parent: Node)
    requires i < |heap| && j < |heap| - 1
    requires parent == Inner(heap[i].weight + Without(heap, i)[j].weight, heap[i], Without(heap, i)[j])
    ensures var merged := Without(Without(heap, i), j) + [parent];
      && multiset(ForestItems(merged)) == multiset(ForestItems(heap))
      && ForestCost(merged) == ForestCost(heap) + parent.weight
  {
    var rest := Without(heap, i);
    var rest' := Without(rest, j);
    ForestWithout(heap, i);
    ForestWithout(rest, j);
    ForestSnoc(rest', parent);
    var a, b, r := Items(heap[i]), Items(rest[j]), ForestItems(rest');
    assert multiset(r + (a + b)) == multiset(a) + (multiset(b) + multiset(r));
  }

  lemma WithoutKeepsWellFormed(heap: seq<Node>, i: nat)
    requires i < |heap| && forall t :: t in heap ==> WellFormed(t)
    ensures forall t :: t in Without(heap, i) ==> WellFormed(t)
  {
  }

  lemma MergeKeepsBound(heap: seq<Node>, i: nat, j: nat, parent: Node)
    requires i < |heap| && j < |heap| - 1
    requires forall k :: 0 <= k < |heap| ==> heap[i].weight <= heap[k].weight
    requires forall k :: 0 <= k < |heap| - 1 ==> Without(heap, i)[j].weight <= Without(heap, i)[k].weight
    requires parent.weight == heap[i].weight + Without(heap, i)[j].weight
    ensures BoundCarries(Without(Without(heap, i), j) + [parent], RootWeights(heap), parent.weight)
  {
    var ws, rest := RootWeights(heap), Without(heap, i);
    RootWeightsWithout(heap, i);
    RootWeightsWithout(rest, j);
    var merged := RootWeights(Without(rest, j) + [parent]);
    assert merged == RootWeights(Without(rest, j)) + [parent.weight];
    forall b: int | LowerBound(merged, b) ensures LowerBound(ws, b + parent.weight) {
      MergeLowerBound(ws, i, j, b);
    }
  }

  // ----- Extraction of the codewords -----

  /** The path from the root to each leaf, with the special case of a tree that is one leaf. */
  function CodesOf(t: Node, prefix: Bits): Codes {
    match t
    case Leaf(_, s) => map[s := if prefix == [] then [false] else prefix]
    case Inner(_, l, r) => CodesOf(l, prefix + [false]) + CodesOf(r, prefix + [true])
  }

  /** The dictionary filled by _extract_codes. */
  class CodeTable {
    var codes: Codes

    constructor ()
      ensures codes == map[]
    {
      codes := map[];
    }

    method ExtractCodes(node: Node, prefix: Bits)
      modifies this
      ensures codes == old(codes) + CodesOf(node, prefix)
      decreases node
    {
      match node
      case Leaf(_, symbol) =>
        codes := codes[symbol := if prefix == [] then [false] else prefix];
      case Inner(_, left, right) =>
        ghost var before, l, r := codes, CodesOf(left, prefix + [false]), CodesOf(right, prefix + [true]);
        ExtractCodes(left, prefix + [false]);
        ExtractCodes(right, prefix + [true]);
        assert before + l + r == before + (l + r);
    }
  }
}
