/**
 * The Walsh-Hadamard transform as a function on sequences over the reals: the
 * divide-and-conquer form, its agreement with multiplication by the Hadamard matrix,
 * its inverse and its effect on energy.
 */
module Hadamard {
  import opened Powers

  type Vec = seq<real>

  function Add(a: Vec, b: Vec): (c: Vec)
    requires |a| == |b|
    ensures |c| == |a| && forall i :: 0 <= i < |a| ==> c[i] == a[i] + b[i]
  {
    seq(|a|, i requires 0 <= i < |a| => a[i] + b[i])
  }

  function Sub(a: Vec, b: Vec): (c: Vec)
    requires |a| == |b|
    ensures |c| == |a| && forall i :: 0 <= i < |a| ==> c[i] == a[i] - b[i]
  {
    seq(|a|, i requires 0 <= i < |a| => a[i] - b[i])
  }

  /** A named product, so that the solver compares products by their factors. */
  function Times(c: real, v: real): real {
    c * v
  }

  function Scale(k: real, a: Vec): (c: Vec)
    ensures |c| == |a| && forall i :: 0 <= i < |a| ==> c[i] == Times(k, a[i])
  {
    seq(|a|, i requires 0 <= i < |a| => Times(k, a[i]))
  }

  /** The transform of 2^k values: sum and difference of the transforms of the halves. */
  function Wht(x: Vec, k: nat): (y: Vec)
    requires |x| == Pow2(k)
    ensures |y| == |x|
    decreases k
  {
    if k == 0 then x
    else
      var a, b := Wht(x[..Pow2(k - 1)], k - 1), Wht(x[Pow2(k - 1)..], k - 1);
      Add(a, b) + Sub(a, b)
  }

  /** The length 2^k as a real number. */
  ghost function Len(k: nat): (n: real)
    ensures n == Pow2(k) as real && n >= 1.0
  {
    if k == 0 then 1.0 else 2.0 * Len(k - 1)
  }

  // ----- The matrix -----

  /** Entry (i, j) of the Hadamard matrix of order 2^k: four copies of the smaller one, the last negated. */
  function Entry(k: nat, i: nat, j: nat): int
    requires i < Pow2(k) && j < Pow2(k)
  {
    if k == 0 then 1
    else
      var h := Pow2(k - 1);
      var e := Entry(k - 1, if i < h then i else i - h, if j < h then j else j - h);
      if i >= h && j >= h then -e else e
  }

  /** Row i of the matrix times the first n coordinates of x. */
  ghost function RowTimes(k: nat, i: nat, x: Vec, n: nat): real
    requires i < Pow2(k) && |x| == Pow2(k) && n <= |x|
  {
    if n == 0 then 0.0 else RowTimes(k, i, x, n - 1) + Times(Entry(k, i, n - 1) as real, x[n - 1])
  }

  lemma {:induction false} RowLeft(k: nat, i: nat, x: Vec, n: nat)
    requires k > 0 && i < Pow2(k) && |x| == Pow2(k) && n <= Pow2(k - 1)
    ensures var h := Pow2(k - 1);
      RowTimes(k, i, x, n) == RowTimes(k - 1, if i < h then i else i - h, x[..h], n)
  {
    if n == 0 {
    } else {
      RowLeft(k, i, x, n - 1);
    }
  }

  lemma {:induction false} RowRight(k: nat, i: nat, x: Vec, n: nat)
    requires k > 0 && i < Pow2(k) && |x| == Pow2(k) && n <= Pow2(k - 1)
    ensures var h := Pow2(k - 1);
      RowTimes(k, i, x, h + n) == RowTimes(k, i, x, h) +
        if i < h then RowTimes(k - 1, i, x[h..], n) else -RowTimes(k - 1, i - h, x[h..], n)
  {
    if n == 0 {
    } else {
      RowRight(k, i, x, n - 1);
      var h := Pow2(k - 1);
      assert x[h..][n - 1] == x[h + n - 1];
      RightEntry(k, i, n - 1, x[h + n - 1]);
      hide Entry, Times;
    }
  }

  /** The right half of a row repeats the smaller row, negated in the lower half of the matrix. */
  lemma RightEntry(k: nat, i: nat, j: nat, v: real)
    requires k > 0 && i < Pow2(k) && j < Pow2(k - 1)
    ensures var h := Pow2(k - 1);
      Times(Entry(k, i, h + j) as real, v) ==
        if i < h then Times(Entry(k - 1, i, j) as real, v) else -Times(Entry(k - 1, i - h, j) as real, v)
  {
  }

  /** The fast transform is multiplication by the matrix. */
  lemma {:induction false} WhtIsMatrixProduct(x: Vec, k: nat, i: nat)
    requires |x| == Pow2(k) && i < |x|
    ensures Wht(x, k)[i] == RowTimes(k, i, x, Pow2(k))
    decreases k
  {
    hide Wht, RowTimes, Times, Entry;
    if k == 0 {
      MatrixOfOne(x);
    } else {
      var h := Pow2(k - 1);
      var i' := if i < h then i else i - h;
      WhtIsMatrixProduct(x[..h], k - 1, i');
      WhtIsMatrixProduct(x[h..], k - 1, i');
      RowBySplit(k, i, x);
      WhtAt(x, k, i);
    }
  }

  lemma MatrixOfOne(x: Vec)
    requires |x| == 1
    ensures Wht(x, 0)[0] == RowTimes(0, 0, x, 1)
  {
    assert RowTimes(0, 0, x, 1) == RowTimes(0, 0, x, 0) + Times(1.0, x[0]);
  }

  lemma RowBySplit(k: nat, i: nat, x: Vec)
    requires k > 0 && i < Pow2(k) && |x| == Pow2(k)
    ensures var h := Pow2(k - 1);
      RowTimes(k, i, x, Pow2(k)) ==
        if i < h then RowTimes(k - 1, i, x[..h], h) + RowTimes(k - 1, i, x[h..], h)
        else RowTimes(k - 1, i - h, x[..h], h) - RowTimes(k - 1, i - h, x[h..], h)
  {
    hide RowTimes;
    RowLeft(k, i, x, Pow2(k - 1));
    RowRight(k, i, x, Pow2(k - 1));
  }

  lemma WhtAt(x: Vec, k: nat, i: nat)
    requires k > 0 && |x| == Pow2(k) && i < |x|
    ensures var h := Pow2(k - 1);
      Wht(x, k)[i] == if i < h then Wht(x[..h], k - 1)[i] + Wht(x[h..], k - 1)[i]
                      else Wht(x[..h], k - 1)[i - h] - Wht(x[h..], k - 1)[i - h]
  {
    var a, b := Wht(x[..Pow2(k - 1)], k - 1), Wht(x[Pow2(k - 1)..], k - 1);
    assert Wht(x, k) == Add(a, b) + Sub(a, b);
  }

  // ----- Linearity and the inverse -----

  /** Sum and difference of two concatenations. */
  lemma AddConcat(a: Vec, b: Vec, c: Vec, d: Vec)
    requires |a| == |c| && |b| == |d|
    ensures Add(a + b, c + d) == Add(a, c) + Add(b, d)
    ensures Sub(a + b, c + d) == Sub(a, c) + Sub(b, d)
  {
  }

  lemma AddHalves(a: Vec, b: Vec, h: nat)
    requires |a| == |b| && h <= |a|
    ensures Add(a, b)[..h] == Add(a[..h], b[..h]) && Add(a, b)[h..] == Add(a[h..], b[h..])
    ensures Sub(a, b)[..h] == Sub(a[..h], b[..h]) && Sub(a, b)[h..] == Sub(a[h..], b[h..])
  {
  }

  lemma AddInterchange(a: Vec, b: Vec, c: Vec, d: Vec)
    requires |a| == |b| == |c| == |d|
    ensures Add(Add(a, c), Add(b, d)) == Add(Add(a, b), Add(c, d))
    ensures Sub(Add(a, c), Add(b, d)) == Add(Sub(a, b), Sub(c, d))
    ensures Add(Sub(a, c), Sub(b, d)) == Sub(Add(a, b), Add(c, d))
    ensures Sub(Sub(a, c), Sub(b, d)) == Sub(Sub(a, b), Sub(c, d))
  {
  }

  lemma {:induction false} WhtLinear(a: Vec, b: Vec, k: nat)
    requires |a| == |b| == Pow2(k)
    ensures Wht(Add(a, b), k) == Add(Wht(a, k), Wht(b, k))
    ensures Wht(Sub(a, b), k) == Sub(Wht(a, k), Wht(b, k))
    decreases k
  {
    if k == 0 {
    } else {
      var h := Pow2(k - 1);
      AddHalves(a, b, h);
      WhtLinear(a[..h], b[..h], k - 1);
      WhtLinear(a[h..], b[h..], k - 1);
      var p, q, r, s := Wht(a[..h], k - 1), Wht(a[h..], k - 1), Wht(b[..h], k - 1), Wht(b[h..], k - 1);
      AddInterchange(p, q, r, s);
      AddConcat(Add(p, q), Sub(p, q), Add(r, s), Sub(r, s));
    }
  }

  lemma ScaleParts(c: real, a: Vec, b: Vec)
    requires |a| == |b|
    ensures Scale(c, a + b) == Scale(c, a) + Scale(c, b)
    ensures Scale(c, Add(a, b)) == Add(Scale(c, a), Scale(c, b))
    ensures Scale(c, Sub(a, b)) == Sub(Scale(c, a), Scale(c, b))
  {
    forall i | 0 <= i < |a|
      ensures Times(c, a[i] + b[i]) == Times(c, a[i]) + Times(c, b[i])
      ensures Times(c, a[i] - b[i]) == Times(c, a[i]) - Times(c, b[i])
    {
    }
  }

  lemma {:induction false} WhtScale(c: real, a: Vec, k: nat)
    requires |a| == Pow2(k)
    ensures Wht(Scale(c, a), k) == Scale(c, Wht(a, k))
    decreases k
  {
    if k == 0 {
    } else {
      var h := Pow2(k - 1);
      assert Scale(c, a)[..h] == Scale(c, a[..h]) && Scale(c, a)[h..] == Scale(c, a[h..]);
      WhtScale(c, a[..h], k - 1);
      WhtScale(c, a[h..], k - 1);
      var p, q := Wht(a[..h], k - 1), Wht(a[h..], k - 1);
      ScaleParts(c, p, q);
      ScaleParts(c, Add(p, q), Sub(p, q));
    }
  }

  lemma SumAndDifference(a: Vec, b: Vec)
    requires |a| == |b|
    ensures Add(Add(a, b), Sub(a, b)) == Scale(2.0, a)
    ensures Sub(Add(a, b), Sub(a, b)) == Scale(2.0, b)
  {
  }

  lemma ScaleTwice(c: real, d: real, a: Vec)
    ensures Scale(c, Scale(d, a)) == Scale(c * d, a)
  {
    forall i | 0 <= i < |a| ensures Times(c, Times(d, a[i])) == Times(c * d, a[i]) {
    }
  }

  lemma WhtOfButterfly(a: Vec, b: Vec, k: nat)
    requires k > 0 && |a| == |b| == Pow2(k - 1)
    ensures Wht(Add(a, b) + Sub(a, b), k) == Scale(2.0, Wht(a, k - 1)) + Scale(2.0, Wht(b, k - 1))
  {
    var y := Add(a, b) + Sub(a, b);
    assert y[..Pow2(k - 1)] == Add(a, b) && y[Pow2(k - 1)..] == Sub(a, b);
    WhtLinear(a, b, k - 1);
    SumAndDifference(Wht(a, k - 1), Wht(b, k - 1));
  }

  lemma WhtTwiceStep(lo: Vec, hi: Vec, k: nat)
    requires k > 0 && |lo| == |hi| == Pow2(k - 1)
    requires Wht(Wht(lo, k - 1), k - 1) == Scale(Len(k - 1), lo)
    requires Wht(Wht(hi, k - 1), k - 1) == Scale(Len(k - 1), hi)
    ensures Wht(Wht(lo + hi, k), k) == Scale(Len(k), lo + hi)
  {
    var x, c := lo + hi, Len(k - 1);
    assert x[..Pow2(k - 1)] == lo && x[Pow2(k - 1)..] == hi;
    WhtOfButterfly(Wht(lo, k - 1), Wht(hi, k - 1), k);
    DoubleScale(c, lo, hi);
  }

  lemma DoubleScale(c: real, a: Vec, b: Vec)
    requires |a| == |b|
    ensures Scale(2.0, Scale(c, a)) + Scale(2.0, Scale(c, b)) == Scale(2.0 * c, a + b)
  {
    ScaleTwice(2.0, c, a);
    ScaleTwice(2.0, c, b);
    ScaleParts(2.0 * c, a, b);
  }

  /** Transforming twice multiplies by the length. */
  lemma {:induction false} WhtTwice(x: Vec, k: nat)
    requires |x| == Pow2(k)
    ensures Wht(Wht(x, k), k) == Scale(Len(k), x)
    decreases k
  {
    if k == 0 {
      assert Scale(1.0, x) == x by { ScaleOne(x); }
    } else {
      var h := Pow2(k - 1);
      WhtTwice(x[..h], k - 1);
      WhtTwice(x[h..], k - 1);
      WhtTwiceStep(x[..h], x[h..], k);
      assert x[..h] + x[h..] == x;
    }
  }

  lemma ScaleOne(x: Vec)
    ensures Scale(1.0, x) == x
  {
    forall i | 0 <= i < |x| ensures Times(1.0, x[i]) == x[i] {
    }
  }

  /** With a root of the length, the normalised transform is its own inverse. */
  lemma NormalisedSelfInverse(x: Vec, k: nat, root: real)
    requires |x| == Pow2(k) && root != 0.0 && root * root == Len(k)
    ensures Scale(1.0 / root, Wht(Scale(1.0 / root, Wht(x, k)), k)) == x
  {
    var c, n := 1.0 / root, Len(k);
    var d := c * n;
    RootCancels(root, n, c, d);
    var e := c * d;
    assert e == 1.0;
    calc {
      Scale(c, Wht(Scale(c, Wht(x, k)), k));
      { WhtScale(c, Wht(x, k), k); WhtTwice(x, k); }
      Scale(c, Scale(c, Scale(n, x)));
      { ScaleTwice(c, n, x); }
      Scale(c, Scale(d, x));
      { ScaleTwice(c, d, x); }
      Scale(e, x);
      { ScaleOne(x); }
      x;
    }
  }

  lemma RootCancels(root: real, n: real, c: real, d: real)
    requires root != 0.0 && root * root == n && c == 1.0 / root && d == c * n
    ensures c * d == 1.0
  {
    assert c * root == 1.0;
    assert d == (c * root) * root;
  }

  // ----- Energy -----

  ghost function SquareSum(x: Vec, n: nat): real
    requires n <= |x|
  {
    if n == 0 then 0.0 else SquareSum(x, n - 1) + Times(x[n - 1], x[n - 1])
  }

  ghost function Energy(x: Vec): real {
    SquareSum(x, |x|)
  }

  lemma {:induction false} SquareSumLeft(a: Vec, b: Vec, n: nat)
    requires n <= |a|
    ensures SquareSum(a + b, n) == SquareSum(a, n)
  {
    if n == 0 {
    } else {
      SquareSumLeft(a, b, n - 1);
    }
  }

  lemma {:induction false} SquareSumRight(a: Vec, b: Vec, n: nat)
    requires n <= |b|
    ensures SquareSum(a + b, |a| + n) == SquareSum(a, |a|) + SquareSum(b, n)
  {
    if n == 0 {
      SquareSumLeft(a, b, |a|);
    } else {
      SquareSumRight(a, b, n - 1);
      assert (a + b)[|a| + n - 1] == b[n - 1];
    }
  }

  lemma EnergyConcat(a: Vec, b: Vec)
    ensures Energy(a + b) == Energy(a) + Energy(b)
  {
    SquareSumRight(a, b, |b|);
  }

  lemma {:induction false} EnergyParallelogram(a: Vec, b: Vec, n: nat)
    requires |a| == |b| && n <= |a|
    ensures SquareSum(Add(a, b), n) + SquareSum(Sub(a, b), n) == 2.0 * (SquareSum(a, n) + SquareSum(b, n))
  {
    if n == 0 {
    } else {
      EnergyParallelogram(a, b, n - 1);
      Parallelogram(a[n - 1], b[n - 1]);
    }
  }

  lemma Parallelogram(p: real, q: real)
    ensures Times(p + q, p + q) + Times(p - q, p - q) == 2.0 * (Times(p, p) + Times(q, q))
  {
  }

  lemma {:induction false} SquareSumScale(c: real, a: Vec, n: nat)
    requires n <= |a|
    ensures SquareSum(Scale(c, a), n) == Times(c * c, SquareSum(a, n))
  {
    if n == 0 {
    } else {
      SquareSumScale(c, a, n - 1);
      ScaledSquare(c, SquareSum(a, n - 1), a[n - 1]);
    }
  }

  lemma EnergyScale(c: real, a: Vec)
    ensures Energy(Scale(c, a)) == Times(c * c, Energy(a))
  {
    SquareSumScale(c, a, |a|);
  }

  lemma ScaledSquare(c: real, e: real, v: real)
    ensures Times(c * c, e) + Times(Times(c, v), Times(c, v)) == Times(c * c, e + Times(v, v))
  {
    assert (c * v) * (c * v) == (c * c) * (v * v);
  }

  lemma EnergyButterfly(a: Vec, b: Vec)
    requires |a| == |b|
    ensures Energy(Add(a, b) + Sub(a, b)) == 2.0 * (Energy(a) + Energy(b))
  {
    EnergyConcat(Add(a, b), Sub(a, b));
    EnergyParallelogram(a, b, |a|);
  }

  /** The value e doubled k times. */
  ghost function Doubled(k: nat, e: real): real {
    if k == 0 then e else 2.0 * Doubled(k - 1, e)
  }

  lemma {:induction false} DoubledSum(k: nat, p: real, q: real)
    ensures Doubled(k, p + q) == Doubled(k, p) + Doubled(k, q)
  {
    if k == 0 {
    } else {
      DoubledSum(k - 1, p, q);
    }
  }

  lemma {:induction false} DoubledIsTimes(k: nat, e: real)
    ensures Doubled(k, e) == Times(Len(k), e)
  {
    if k == 0 {
    } else {
      DoubledIsTimes(k - 1, e);
    }
  }

  lemma {:induction false} WhtEnergyDoubled(x: Vec, k: nat)
    requires |x| == Pow2(k)
    ensures Energy(Wht(x, k)) == Doubled(k, Energy(x))
    decreases k
  {
    if k == 0 {
    } else {
      var lo, hi := x[..Pow2(k - 1)], x[Pow2(k - 1)..];
      var p, q := Wht(lo, k - 1), Wht(hi, k - 1);
      WhtEnergyDoubled(lo, k - 1);
      WhtEnergyDoubled(hi, k - 1);
      assert Energy(Add(p, q) + Sub(p, q)) == Doubled(k, Energy(x)) by {
        assert x == lo + hi;
        EnergyStep(k, lo, hi, p, q);
      }
      assert Wht(x, k) == Add(p, q) + Sub(p, q);
    }
  }

  lemma EnergyStep(k: nat, lo: Vec, hi: Vec, p: Vec, q: Vec)
    requires k > 0 && |p| == |q|
    requires Energy(p) == Doubled(k - 1, Energy(lo)) && Energy(q) == Doubled(k - 1, Energy(hi))
    ensures Energy(Add(p, q) + Sub(p, q)) == Doubled(k, Energy(lo + hi))
  {
    EnergyButterfly(p, q);
    EnergyConcat(lo, hi);
    DoubledSum(k - 1, Energy(lo), Energy(hi));
  }

  /** Parseval: the transform multiplies the energy by the length. */
  lemma WhtEnergy(x: Vec, k: nat)
    requires |x| == Pow2(k)
    ensures Energy(Wht(x, k)) == Times(Len(k), Energy(x))
  {
    WhtEnergyDoubled(x, k);
    DoubledIsTimes(k, Energy(x));
  }
}
