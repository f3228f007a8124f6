/**
 * Properties of the code that huffman_codes (scripts/lambda_codebook.py) returns:
 * it is prefix free, it fills the Kraft sum, and no prefix code is shorter.
 */
module HuffmanCode {
  import opened Costs
  import opened GreedyMerge
  import opened HuffmanTree
  import opened Kraft
  import opened Powers

  ghost predicate PrefixFree(codes: Codes) {
    forall s, t :: s in codes && t in codes && s != t ==> !Comparable(codes[s], codes[t])
  }

  function CodeLength(codes: Codes, s: Symbol): nat {
    if s in codes then |codes[s]| else 0
  }

  /** The encoded length of a text with these symbol frequencies. */
  function TotalBits(items: seq<Item>, codes: Codes): nat {
    if items == [] then 0 else items[0].1 * CodeLength(codes, items[0].0) + TotalBits(items[1..], codes)
  }

  ghost predicate Covers(codes: Codes, items: seq<Item>) {
    forall i :: 0 <= i < |items| ==> items[i].0 in codes
  }

  /** No prefix code for the symbols of the table gives a shorter encoding. */
  ghost predicate Optimal(items: seq<Item>, codes: Codes) {
    forall other: Codes :: PrefixFree(other) && Covers(other, items) ==> TotalBits(items, codes) <= TotalBits(items, other)
  }

  /** The same, against the prefix codes without an empty codeword. */
  ghost predicate OptimalNonEmpty(items: seq<Item>, codes: Codes) {
    forall other: Codes :: PrefixFree(other) && Covers(other, items) && [] !in other.Values ==>
      TotalBits(items, codes) <= TotalBits(items, other)
  }

  function SymbolLengths(items: seq<Item>, codes: Codes): (ls: seq<nat>)
    ensures |ls| == |items| && forall i :: 0 <= i < |ls| ==> ls[i] == CodeLength(codes, items[i].0)
  {
    seq(|items|, i requires 0 <= i < |items| => CodeLength(codes, items[i].0))
  }

  /** The Kraft sum over the table's symbols is exactly one. */
  ghost predicate KraftExact(items: seq<Item>, codes: Codes) {
    forall cap: nat :: Fits(SymbolLengths(items, codes), cap) ==> KraftSum(SymbolLengths(items, codes), cap) == Pow2(cap)
  }

  // ----- Distinct symbols -----

  function Symbols(t: Node): set<Symbol> {
    match t
    case Leaf(_, s) => {s}
    case Inner(_, l, r) => Symbols(l) + Symbols(r)
  }

  ghost predicate Distinct(t: Node) {
    t.Inner? ==> Symbols(t.left) !! Symbols(t.right) && Distinct(t.left) && Distinct(t.right)
  }

  lemma {:induction false} SymbolsAreKeys(t: Node)
    ensures forall s :: s in Symbols(t) <==> exists w :: (s, w) in Items(t)
  {
    match t
    case Leaf(w, s) => assert (s, w) in Items(t);
    case Inner(_, l, r) =>
      SymbolsAreKeys(l);
      SymbolsAreKeys(r);
      assert forall s, w :: (s, w) in Items(t) <==> (s, w) in Items(l) || (s, w) in Items(r);
  }

  lemma {:induction false} DictTreeDistinct(t: Node)
    requires IsDict(Items(t))
    ensures Distinct(t)
  {
    if t.Inner? {
      var a, b := Items(t.left), Items(t.right);
      assert forall i :: 0 <= i < |a| ==> a[i] == Items(t)[i];
      assert forall i :: 0 <= i < |b| ==> b[i] == Items(t)[|a| + i];
      DictTreeDistinct(t.left);
      DictTreeDistinct(t.right);
      SymbolsAreKeys(t.left);
      SymbolsAreKeys(t.right);
    }
  }

  lemma {:induction false} DictCounts(items: seq<Item>, e: Item)
    requires IsDict(items)
    ensures multiset(items)[e] <= 1
  {
    if items == [] {
    } else {
      DictCounts(items[1..], e);
      assert items == [items[0]] + items[1..];
      assert items[0] in items[1..] ==> false;
    }
  }

  lemma DictPermutation(a: seq<Item>, b: seq<Item>)
    requires IsDict(a) && multiset(a) == multiset(b)
    ensures IsDict(b)
  {
    forall i, j | 0 <= i < j < |b| ensures b[i].0 != b[j].0 {
      assert b[i] in multiset(a) && b[j] in multiset(a);
      if b[i] == b[j] {
        assert b == b[..i] + [b[i]] + b[i + 1..j] + [b[j]] + b[j + 1..];
        DictCounts(a, b[i]);
        assert false;
      }
    }
  }

  // ----- Sums over permuted tables -----

  lemma {:induction false} TotalBitsConcat(a: seq<Item>, b: seq<Item>, codes: Codes)
    ensures TotalBits(a + b, codes) == TotalBits(a, codes) + TotalBits(b, codes)
  {
    if a == [] {
      assert a + b == b;
    } else {
      assert (a + b)[1..] == a[1..] + b;
      TotalBitsConcat(a[1..], b, codes);
    }
  }

  lemma {:induction false} KraftConcat(a: seq<nat>, b: seq<nat>, cap: nat)
    requires Fits(a + b, cap)
    ensures Fits(a, cap) && Fits(b, cap) && KraftSum(a + b, cap) == KraftSum(a, cap) + KraftSum(b, cap)
  {
    assert forall i :: 0 <= i < |a| ==> a[i] == (a + b)[i];
    assert forall i :: 0 <= i < |b| ==> b[i] == (a + b)[|a| + i];
    if a == [] {
      assert a + b == b;
    } else {
      assert (a + b)[1..] == a[1..] + b;
      KraftConcat(a[1..], b, cap);
    }
  }

  lemma WithoutMultiset(b: seq<Item>, k: nat)
    requires k < |b|
    ensures multiset(b) == multiset{b[k]} + multiset(Without(b, k))
  {
    assert b == b[..k] + ([b[k]] + b[k + 1..]);
  }

  lemma {:induction false} TotalBitsWithout(b: seq<Item>, codes: Codes, k: nat)
    requires k < |b|
    ensures TotalBits(b, codes) == b[k].1 * CodeLength(codes, b[k].0) + TotalBits(Without(b, k), codes)
  {
    if k == 0 {
      assert Without(b, 0) == b[1..];
    } else {
      TotalBitsWithout(b[1..], codes, k - 1);
      WithoutTail(b, k);
      assert ([b[0]] + Without(b[1..], k - 1))[1..] == Without(b[1..], k - 1);
    }
  }

  lemma LengthsWithout(b: seq<Item>, codes: Codes, k: nat)
    requires k < |b|
    ensures SymbolLengths(Without(b, k), codes) == Without(SymbolLengths(b, codes), k)
  {
  }

  /** The head of a permuted table occurs in the other table; removing both keeps a permutation. */
  lemma MatchHead(a: seq<Item>, b: seq<Item>) returns (k: nat)
    requires a != [] && multiset(a) == multiset(b)
    ensures k < |b| && b[k] == a[0] && multiset(a[1..]) == multiset(Without(b, k))
  {
    assert a[0] in multiset(b);
    k :| 0 <= k < |b| && b[k] == a[0];
    WithoutMultiset(b, k);
    assert a == [a[0]] + a[1..];
    assert multiset(a[1..]) == multiset(a) - multiset{a[0]};
  }

  /** Totals do not depend on the order of the table. */
  lemma {:induction false} TotalOrderIrrelevant(a: seq<Item>, b: seq<Item>, codes: Codes)
    requires multiset(a) == multiset(b)
    ensures TotalBits(a, codes) == TotalBits(b, codes)
  {
    if a == [] {
      assert |multiset(b)| == 0;
      assert b == [];
    } else {
      var k := MatchHead(a, b);
      TotalBitsWithout(b, codes, k);
      TotalOrderIrrelevant(a[1..], Without(b, k), codes);
    }
  }

  /** Neither do Kraft sums. */
  lemma {:induction false} KraftOrderIrrelevant(a: seq<Item>, b: seq<Item>, codes: Codes, cap: nat)
    requires multiset(a) == multiset(b) && Fits(SymbolLengths(b, codes), cap)
    ensures Fits(SymbolLengths(a, codes), cap)
    ensures KraftSum(SymbolLengths(a, codes), cap) == KraftSum(SymbolLengths(b, codes), cap)
  {
    if a == [] {
      assert |multiset(b)| == 0;
      assert b == [];
    } else {
      var k := MatchHead(a, b);
      LengthsWithout(b, codes, k);
      KraftWithout(SymbolLengths(b, codes), cap, k);
      KraftOrderIrrelevant(a[1..], Without(b, k), codes, cap);
      assert SymbolLengths(a, codes) == [CodeLength(codes, a[0].0)] + SymbolLengths(a[1..], codes);
      KraftCons(CodeLength(codes, a[0].0), SymbolLengths(a[1..], codes), cap);
    }
  }

  // ----- The extracted code -----

  lemma {:induction false} ExtractedKeys(t: Node, p: Bits)
    ensures CodesOf(t, p).Keys == Symbols(t)
  {
    match t
    case Leaf(_, _) =>
    case Inner(_, l, r) =>
      ExtractedKeys(l, p + [false]);
      ExtractedKeys(r, p + [true]);
  }

  /** Codewords extend the path that leads to their subtree. */
  lemma {:induction false} ExtractedBelow(t: Node, p: Bits)
    requires t.Inner? || p != []
    ensures forall s :: s in CodesOf(t, p) ==> p <= CodesOf(t, p)[s]
  {
    match t
    case Leaf(_, _) =>
    case Inner(_, l, r) =>
      ExtractedBelow(l, p + [false]);
      ExtractedBelow(r, p + [true]);
      forall s | s in CodesOf(t, p) ensures p <= CodesOf(t, p)[s] {
        assert p <= p + [false] && p <= p + [true];
      }
  }

  lemma Diverge(p: Bits, c: Bits, d: Bits)
    requires p + [false] <= c && p + [true] <= d
    ensures !Comparable(c, d)
  {
    assert c[|p|] == (p + [false])[|p|] && d[|p|] == (p + [true])[|p|];
  }

  /** No extracted codeword extends another. */
  lemma {:induction false} ExtractedPrefixFree(t: Node, p: Bits)
    requires Distinct(t) && (t.Inner? || p != [])
    ensures PrefixFree(CodesOf(t, p))
  {
    match t
    case Leaf(_, _) =>
    case Inner(_, l, r) =>
      var cl, cr := CodesOf(l, p + [false]), CodesOf(r, p + [true]);
      ExtractedPrefixFree(l, p + [false]);
      ExtractedPrefixFree(r, p + [true]);
      ExtractedBelow(l, p + [false]);
      ExtractedBelow(r, p + [true]);
      forall s, u | s in cl && u in cr ensures !Comparable(cl[s], cr[u]) {
        Diverge(p, cl[s], cr[u]);
      }
      UnionPrefixFree(cl, cr);
  }

  lemma UnionPrefixFree(a: Codes, b: Codes)
    requires PrefixFree(a) && PrefixFree(b)
    requires forall s, u :: s in a && u in b ==> !Comparable(a[s], b[u])
    ensures PrefixFree(a + b)
  {
    hide Comparable;
    assert forall c: Bits, d: Bits :: Comparable(c, d) <==> Comparable(d, c) by { ComparableSymmetric(); }
  }

  lemma ComparableSymmetric()
    ensures forall c: Bits, d: Bits :: Comparable(c, d) <==> Comparable(d, c)
  {
  }

  /** The dictionary holds the codewords extracted below a node. */
  ghost predicate Holds(codes: Codes, t: Node, p: Bits) {
    forall s :: s in CodesOf(t, p) ==> s in codes && codes[s] == CodesOf(t, p)[s]
  }

  lemma HoldsBelow(codes: Codes, t: Node, p: Bits)
    requires t.Inner? && Distinct(t) && Holds(codes, t, p)
    ensures Holds(codes, t.left, p + [false]) && Holds(codes, t.right, p + [true])
  {
    ExtractedKeys(t.left, p + [false]);
    ExtractedKeys(t.right, p + [true]);
    var l, r := CodesOf(t.left, p + [false]), CodesOf(t.right, p + [true]);
    assert CodesOf(t, p) == l + r;
    forall s | s in l ensures s in codes && codes[s] == l[s] {
      assert s in CodesOf(t, p);
    }
  }

  /** The weighted code length below a node is its merge cost plus its weight at its depth. */
  lemma {:induction false} ExtractedLength(t: Node, p: Bits, codes: Codes)
    requires WellFormed(t) && Distinct(t) && (t.Inner? || p != []) && Holds(codes, t, p)
    ensures TotalBits(Items(t), codes) == MergeCost(t) + t.weight * |p|
  {
    match t
    case Leaf(w, s) =>
      assert s in CodesOf(t, p);
      assert Items(t)[1..] == [];
      assert TotalBits(Items(t), codes) == w * |p|;
    case Inner(w, l, r) =>
      hide TotalBits, CodesOf;
      HoldsBelow(codes, t, p);
      ExtractedLength(l, p + [false], codes);
      ExtractedLength(r, p + [true], codes);
      TotalBitsConcat(Items(l), Items(r), codes);
      Distribute(l.weight, r.weight, |p| + 1);
      TimesSucc(w, |p|);
  }

  lemma {:induction false} ExtractedKraft(t: Node, p: Bits, codes: Codes, cap: nat)
    requires Distinct(t) && (t.Inner? || p != []) && Holds(codes, t, p)
    requires Fits(SymbolLengths(Items(t), codes), cap)
    ensures |p| <= cap && KraftSum(SymbolLengths(Items(t), codes), cap) == Pow2(cap - |p|)
  {
    var ls := SymbolLengths(Items(t), codes);
    match t
    case Leaf(w, s) =>
      assert s in CodesOf(t, p);
      assert ls == [|p|] && ls[1..] == [];
    case Inner(w, l, r) =>
      hide KraftSum, CodesOf;
      var ll, lr := SymbolLengths(Items(l), codes), SymbolLengths(Items(r), codes);
      assert ls == ll + lr;
      KraftConcat(ll, lr, cap);
      HoldsBelow(codes, t, p);
      ExtractedKraft(l, p + [false], codes, cap);
      ExtractedKraft(r, p + [true], codes, cap);
  }

  // ----- Optimality -----

  /** A lower bound for feasible lengths is a lower bound for prefix codes. */
  lemma BoundForCodes(items: seq<Item>, b: int, other: Codes)
    requires IsDict(items) && LowerBound(Weights(items), b)
    requires PrefixFree(other) && Covers(other, items)
    ensures b <= TotalBits(items, other)
  {
    var cs := seq(|items|, i requires 0 <= i < |items| => other[items[i].0]);
    assert PrefixFreeSeq(cs);
    var cap := HasCap(Lengths(cs));
    KraftInequality(cs, cap);
    assert b <= Cost(Weights(items), Lengths(cs));
    assert Lengths(cs) == SymbolLengths(items, other);
    TotalIsCost(items, other);
  }

  lemma {:induction false} TotalIsCost(items: seq<Item>, codes: Codes)
    ensures TotalBits(items, codes) == Cost(Weights(items), SymbolLengths(items, codes))
  {
    if items == [] {
    } else {
      TotalIsCost(items[1..], codes);
      assert Weights(items)[1..] == Weights(items[1..]);
      assert SymbolLengths(items, codes)[1..] == SymbolLengths(items[1..], codes);
    }
  }

  lemma TreeSymbols(items: seq<Item>, tree: Node)
    requires IsDict(items) && multiset(Items(tree)) == multiset(items)
    ensures Distinct(tree) && (|items| >= 2 ==> tree.Inner?) && |Items(tree)| == |items|
  {
    DictPermutation(items, Items(tree));
    DictTreeDistinct(tree);
    assert |multiset(items)| == |items| && |multiset(Items(tree))| == |Items(tree)|;
  }

  lemma TreeFillsKraft(items: seq<Item>, tree: Node, codes: Codes)
    requires Distinct(tree) && tree.Inner? && Holds(codes, tree, [])
    requires multiset(Items(tree)) == multiset(items)
    ensures KraftExact(items, codes)
  {
    forall cap: nat | Fits(SymbolLengths(items, codes), cap)
      ensures KraftSum(SymbolLengths(items, codes), cap) == Pow2(cap)
    {
      KraftOrderIrrelevant(Items(tree), items, codes, cap);
      ExtractedKraft(tree, [], codes, cap);
    }
  }

  lemma OptimalTree(items: seq<Item>, tree: Node, codes: Codes)
    requires IsDict(items) && Distinct(tree) && tree.Inner? && WellFormed(tree)
    requires multiset(Items(tree)) == multiset(items) && Holds(codes, tree, [])
    requires LowerBound(Weights(items), MergeCost(tree))
    ensures Optimal(items, codes)
  {
    ExtractedLength(tree, [], codes);
    TotalOrderIrrelevant(Items(tree), items, codes);
    forall other: Codes | PrefixFree(other) && Covers(other, items)
      ensures TotalBits(items, codes) <= TotalBits(items, other)
    {
      BoundForCodes(items, MergeCost(tree), other);
    }
  }

  /** With a single symbol the codeword 0 is longer than the empty codeword. */
  lemma SingleNotOptimal(e: Item, codes: Codes)
    requires e.1 > 0 && codes == map[e.0 := [false]]
    ensures !Optimal([e], codes) && OptimalNonEmpty([e], codes)
  {
    var empty: Codes := map[e.0 := []];
    assert [e][1..] == [];
    assert PrefixFree(empty) && Covers(empty, [e]);
    assert TotalBits([e], empty) == e.1 * 0;
    assert TotalBits([e], codes) == e.1 * 1;
    forall other: Codes | PrefixFree(other) && Covers(other, [e]) && [] !in other.Values
      ensures TotalBits([e], codes) <= TotalBits([e], other)
    {
      assert [e][0].0 in other && other[e.0] in other.Values;
      Exchange(0, e.1, 1, |other[e.0]|);
      assert TotalBits([e], other) == e.1 * |other[e.0]|;
    }
  }

  /** huffman_codes: build the tree, then fill an empty dictionary from it. */
  method HuffmanCodes(freq: seq<(Symbol, int)>) returns (codes: Codes, ghost tree: Node)
    requires IsDict(freq)
    ensures WellFormed(tree) && Distinct(tree) && codes == CodesOf(tree, [])
    ensures var items := Positive(freq);
      && codes.Keys == (if items == [] then {"\0"} else set i | 0 <= i < |items| :: items[i].0)
      && PrefixFree(codes)
      && OptimalNonEmpty(items, codes)
      && (Optimal(items, codes) <==> |items| != 1)
      && (|items| >= 2 ==> KraftExact(items, codes))
  {
    var node := BuildHuffmanTree(freq);
    tree := node;
    var table := new CodeTable();
    table.ExtractCodes(node, []);
    codes := table.codes;
    assert codes == CodesOf(tree, []);
    ghost var items := Positive(freq);
    PositiveMembers(freq);
    if items != [] {
      TreeSymbols(items, tree);
    }
    if |items| >= 2 {
      ExtractedPrefixFree(tree, []);
      TreeFillsKraft(items, tree, codes);
      OptimalTree(items, tree, codes);
    } else if |items| == 1 {
      ItemsNonEmpty(tree);
      assert tree.Leaf?;
      assert Items(tree)[0] in multiset(items);
      assert items == Items(tree);
      SingleNotOptimal(items[0], codes);
      assert items[0] in items;
    }
    KeysAreSymbols(items, tree);
  }

  lemma {:induction false} ItemsNonEmpty(t: Node)
    ensures |Items(t)| >= 1 && (t.Inner? ==> |Items(t)| >= 2)
  {
    if t.Inner? {
      ItemsNonEmpty(t.left);
      ItemsNonEmpty(t.right);
    }
  }

  lemma KeysAreSymbols(items: seq<Item>, tree: Node)
    requires items != [] ==> multiset(Items(tree)) == multiset(items)
    ensures items != [] ==> CodesOf(tree, []).Keys == set i | 0 <= i < |items| :: items[i].0
  {
    if items != [] {
      ExtractedKeys(tree, []);
      SymbolsAreKeys(tree);
      var keys := set i | 0 <= i < |items| :: items[i].0;
      forall s ensures s in Symbols(tree) <==> s in keys {
        if s in Symbols(tree) {
          var w :| (s, w) in Items(tree);
          assert (s, w) in multiset(items);
          var i :| 0 <= i < |items| && items[i] == (s, w);
        }
        if s in keys {
          var i :| 0 <= i < |items| && items[i].0 == s;
          assert items[i] in multiset(Items(tree));
          assert (s, items[i].1) in Items(tree);
        }
      }
    }
  }
}
