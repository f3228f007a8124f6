/**
 * The quantisation round trip of scripts/fpq_legal_bench.py over the reals: pad to blocks
 * of 256, flip signs, transform, quantise relative to a scale per block, transform back,
 * flip signs again and cut to the original length.
 */
module FpqRoundtrip {
  import opened Butterflies
  import opened Hadamard
  import opened Powers
  import opened Reals

  const LOG_BLOCK: nat := 8
  const BLOCK_DIM: nat := 256

  // ----- The transform of a padded tensor, block by block -----

  lemma {:induction false} ChunkLinear(a: Vec, b: Vec, k: nat)
    requires |a| == |b| && Tiles(|a|, Pow2(k))
    ensures ChunkWht(Sub(a, b), k) == Sub(ChunkWht(a, k), ChunkWht(b, k))
    decreases |a|
  {
    if a == [] {
    } else {
      hide ChunkWht, Wht;
      var n := Pow2(k);
      ChunkLinear(a[n..], b[n..], k);
      AddHalves(a, b, n);
      WhtLinear(a[..n], b[..n], k);
      ChunkAt(a, k);
      ChunkAt(b, k);
      ChunkAt(Sub(a, b), k);
      AddConcat(Wht(a[..n], k), ChunkWht(a[n..], k), Wht(b[..n], k), ChunkWht(b[n..], k));
    }
  }

  lemma ChunkAt(x: Vec, k: nat)
    requires |x| >= Pow2(k)
    ensures ChunkWht(x, k) == Wht(x[..Pow2(k)], k) + ChunkWht(x[Pow2(k)..], k)
  {
    hide Wht;
  }

  lemma {:induction false} ChunkTwice(x: Vec, k: nat)
    requires Tiles(|x|, Pow2(k))
    ensures ChunkWht(ChunkWht(x, k), k) == Scale(Len(k), x)
    decreases |x|
  {
    if x == [] {
    } else {
      hide ChunkWht, Wht;
      var a, b := x[..Pow2(k)], x[Pow2(k)..];
      ChunkTwice(b, k);
      ChunkAt(x, k);
      ChunkStep(Wht(a, k), ChunkWht(b, k), k);
      WhtTwice(a, k);
      assert x == a + b;
      ScaleConcat(Len(k), a, b);
    }
  }

  lemma ScaleConcat(c: real, a: Vec, b: Vec)
    ensures Scale(c, a + b) == Scale(c, a) + Scale(c, b)
  {
    hide Times;
  }

  lemma {:induction false} ChunkEnergy(x: Vec, k: nat)
    requires Tiles(|x|, Pow2(k))
    ensures Energy(ChunkWht(x, k)) == Times(Len(k), Energy(x))
    decreases |x|
  {
    if x == [] {
    } else {
      hide ChunkWht, Wht, Energy, Times, Len;
      var a, b := x[..Pow2(k)], x[Pow2(k)..];
      assert x == a + b;
      ChunkEnergy(b, k);
      ChunkAt(x, k);
      OneMoreChunk(a, b, k, ChunkWht(b, k));
    }
  }

  lemma OneMoreChunk(a: Vec, b: Vec, k: nat, rest: Vec)
    requires |a| == Pow2(k) && Energy(rest) == Times(Len(k), Energy(b))
    ensures Energy(Wht(a, k) + rest) == Times(Len(k), Energy(a + b))
  {
    hide *;
    WhtEnergy(a, k);
    EnergyConcat(Wht(a, k), rest);
    EnergyConcat(a, b);
    TimesSum(Len(k), Energy(a), Energy(b));
  }

  lemma TimesSum(c: real, p: real, q: real)
    ensures Times(c, p + q) == Times(c, p) + Times(c, q)
  {
  }

  // ----- Signs -----

  ghost predicate IsSigns(signs: Vec) {
    forall i :: 0 <= i < |signs| ==> signs[i] == 1.0 || signs[i] == -1.0
  }

  function Flip(signs: Vec, x: Vec): (y: Vec)
    requires |signs| == |x|
    ensures |y| == |x| && forall i :: 0 <= i < |x| ==> y[i] == Times(signs[i], x[i])
  {
    seq(|x|, i requires 0 <= i < |x| => Times(signs[i], x[i]))
  }

  lemma FlipTwice(signs: Vec, x: Vec)
    requires |signs| == |x| && IsSigns(signs)
    ensures Flip(signs, Flip(signs, x)) == x
  {
    forall i | 0 <= i < |x| ensures Times(signs[i], Times(signs[i], x[i])) == x[i] {
      assert signs[i] == 1.0 || signs[i] == -1.0;
    }
  }

  lemma FlipSub(signs: Vec, a: Vec, b: Vec)
    requires |signs| == |a| == |b|
    ensures Flip(signs, Sub(a, b)) == Sub(Flip(signs, a), Flip(signs, b))
  {
    forall i | 0 <= i < |a| ensures Times(signs[i], a[i] - b[i]) == Times(signs[i], a[i]) - Times(signs[i], b[i]) {
    }
  }

  lemma {:induction false} FlipEnergy(signs: Vec, x: Vec, n: nat)
    requires |signs| == |x| && IsSigns(signs) && n <= |x|
    ensures SquareSum(Flip(signs, x), n) == SquareSum(x, n)
  {
    if n == 0 {
    } else {
      FlipEnergy(signs, x, n - 1);
      assert signs[n - 1] == 1.0 || signs[n - 1] == -1.0;
    }
  }

  // ----- The pipeline as a function of its inputs -----

  function Zeros(n: nat): (z: Vec)
    ensures |z| == n && forall i :: 0 <= i < n ==> z[i] == 0.0
  {
    seq(n, _ => 0.0)
  }

  /** The number of blocks that hold n values. */
  function Blocks(n: nat): (b: nat)
    ensures BLOCK_DIM * b - BLOCK_DIM < n <= BLOCK_DIM * b
  {
    (n + BLOCK_DIM - 1) / BLOCK_DIM
  }

  function Padded(w: Vec): (x: Vec)
    ensures |x| == BLOCK_DIM * Blocks(|w|) && w <= x
  {
    w + Zeros(BLOCK_DIM * Blocks(|w|) - |w|)
  }

  /** The transform coefficients of the padded tensor. */
  ghost function Coefficients(w: Vec, signs: Vec): (c: Vec)
    requires |signs| == |Padded(w)|
    ensures |c| == |signs|
  {
    ChunkWht(Flip(signs, Padded(w)), LOG_BLOCK)
  }

  /** Each coefficient, divided by the scale of its block, quantised, and scaled back. */
  ghost function Dequantised(c: Vec, rms: Vec, q: real -> real): (y: Vec)
    requires |c| == BLOCK_DIM * |rms| && forall b :: 0 <= b < |rms| ==> rms[b] > 0.0
    ensures |y| == |c| && forall i :: 0 <= i < |c| ==> y[i] == q(c[i] / rms[i / BLOCK_DIM]) * rms[i / BLOCK_DIM]
  {
    seq(|c|, i requires 0 <= i < |c| => q(c[i] / rms[i / BLOCK_DIM]) * rms[i / BLOCK_DIM])
  }

  /** The quantiser is never off by more than e. */
  ghost predicate Within(q: real -> real, e: real) {
    forall v :: v - e <= q(v) <= v + e
  }

  ghost function Reconstructed(y: Vec, signs: Vec): (x: Vec)
    requires |signs| == |y|
    ensures |x| == |y|
  {
    Flip(signs, Scale(1.0 / 256.0, ChunkWht(y, LOG_BLOCK)))
  }

  lemma BlockFacts()
    ensures Pow2(LOG_BLOCK) == BLOCK_DIM && Len(LOG_BLOCK) == 256.0
  {
    Pow2Eight();
  }

  lemma {:induction false} WholeBlocks(b: nat)
    ensures Tiles(BLOCK_DIM * b, BLOCK_DIM)
  {
    if b == 0 {
    } else {
      WholeBlocks(b - 1);
      assert BLOCK_DIM * b - BLOCK_DIM == BLOCK_DIM * (b - 1);
    }
  }

  /** Undoing the transform of the coefficients gives back the padded tensor. */
  lemma ReconstructCoefficients(x: Vec, signs: Vec)
    requires |signs| == |x| && IsSigns(signs) && Tiles(|x|, BLOCK_DIM)
    ensures Reconstructed(ChunkWht(Flip(signs, x), LOG_BLOCK), signs) == x
  {
    hide ChunkWht;
    BlockFacts();
    var y := Flip(signs, x);
    ChunkTwice(y, LOG_BLOCK);
    assert Scale(1.0 / 256.0, Scale(256.0, y)) == y by {
      ScaleTwice(1.0 / 256.0, 256.0, y);
      ScaleOne(y);
    }
    FlipTwice(signs, x);
  }

  /**
   * Whatever the quantiser made of the coefficients, the squared error of the
   * reconstruction is the squared error in the transform domain divided by 256.
   */
  lemma ErrorIsScaled(x: Vec, signs: Vec, y: Vec)
    requires |signs| == |x| == |y| && IsSigns(signs) && Tiles(|x|, BLOCK_DIM)
    ensures var c := ChunkWht(Flip(signs, x), LOG_BLOCK);
      256.0 * Energy(Sub(Reconstructed(y, signs), x)) == Energy(Sub(y, c))
  {
    hide ChunkWht, Energy;
    var c := ChunkWht(Flip(signs, x), LOG_BLOCK);
    ErrorVector(x, signs, y);
    BlockFacts();
    var f, d := 1.0 / 256.0, ChunkWht(Sub(y, c), LOG_BLOCK);
    FlipKeepsEnergy(signs, Scale(f, d));
    EnergyScale(f, d);
    ChunkEnergy(Sub(y, c), LOG_BLOCK);
    assert Times(f * f, Times(256.0, Energy(Sub(y, c)))) == Energy(Sub(y, c)) / 256.0;
  }

  /** The reconstruction error is the transformed coefficient error, scaled and sign flipped. */
  lemma ErrorVector(x: Vec, signs: Vec, y: Vec)
    requires |signs| == |x| == |y| && IsSigns(signs) && Tiles(|x|, BLOCK_DIM)
    ensures var c := ChunkWht(Flip(signs, x), LOG_BLOCK);
      Sub(Reconstructed(y, signs), x) == Flip(signs, Scale(1.0 / 256.0, ChunkWht(Sub(y, c), LOG_BLOCK)))
  {
    hide ChunkWht, Sub, Flip, Scale, Times;
    var c := ChunkWht(Flip(signs, x), LOG_BLOCK);
    var f := 1.0 / 256.0;
    var ty, tc := ChunkWht(y, LOG_BLOCK), ChunkWht(c, LOG_BLOCK);
    BlockFacts();
    ReconstructCoefficients(x, signs);
    FlipSub(signs, Scale(f, ty), Scale(f, tc));
    ScaleParts(f, ty, tc);
    ChunkLinear(y, c, LOG_BLOCK);
  }

  lemma FlipKeepsEnergy(signs: Vec, x: Vec)
    requires |signs| == |x| && IsSigns(signs)
    ensures Energy(Flip(signs, x)) == Energy(x)
  {
    FlipEnergy(signs, x, |x|);
  }

  lemma {:induction false} SquareSumMonotone(x: Vec, m: nat, n: nat)
    requires m <= n <= |x|
    ensures 0.0 <= SquareSum(x, m) <= SquareSum(x, n)
    decreases n
  {
    if m < n {
      SquareSumMonotone(x, m, n - 1);
      assert Times(x[n - 1], x[n - 1]) >= 0.0;
    } else if m > 0 {
      SquareSumMonotone(x, m - 1, m - 1);
      assert Times(x[m - 1], x[m - 1]) >= 0.0;
    }
  }

  lemma {:induction false} SquareSumPrefix(x: Vec, y: Vec, n: nat)
    requires n <= |x| && n <= |y| && forall i :: 0 <= i < n ==> x[i] == y[i]
    ensures SquareSum(x, n) == SquareSum(y, n)
  {
    if n == 0 {
    } else {
      SquareSumPrefix(x, y, n - 1);
    }
  }

  /** Cutting off the padding does not raise the squared error. */
  lemma TruncationError(x: Vec, w: Vec, r: Vec)
    requires |r| == |x| && w <= x
    ensures Energy(Sub(r[..|w|], w)) <= Energy(Sub(r, x))
  {
    var e := Sub(r, x);
    SquareSumMonotone(e, |w|, |e|);
    SquareSumPrefix(Sub(r[..|w|], w), e, |w|);
  }

  // ----- fpq_roundtrip_tensor -----

  method FlipInPlace(blocks: array<real>, signs: Vec)
    requires blocks.Length == |signs|
    modifies blocks
    ensures blocks[..] == Flip(signs, old(blocks[..]))
  {
    ghost var before := blocks[..];
    for i := 0 to blocks.Length
      invariant forall j :: 0 <= j < i ==> blocks[j] == Times(signs[j], before[j])
      invariant forall j :: i <= j < blocks.Length ==> blocks[j] == before[j]
    {
      blocks[i] := blocks[i] * signs[i];
    }
  }

  method PadToBlocks(weights: Vec) returns (blocks: array<real>)
    ensures fresh(blocks) && blocks[..] == Padded(weights)
  {
    blocks := new real[BLOCK_DIM * Blocks(|weights|)](_ => 0.0);
    for i := 0 to |weights|
      invariant forall j :: 0 <= j < i ==> blocks[j] == weights[j]
      invariant forall j :: i <= j < blocks.Length ==> blocks[j] == 0.0
    {
      blocks[i] := weights[i];
    }
  }

  method Quantise(blocks: array<real>, rms: Vec, q: real -> real) returns (y: array<real>)
    requires blocks.Length == BLOCK_DIM * |rms| && forall b :: 0 <= b < |rms| ==> rms[b] > 0.0
    ensures fresh(y) && y[..] == Dequantised(blocks[..], rms, q)
  {
    ghost var target := Dequantised(blocks[..], rms, q);
    y := new real[blocks.Length](_ => 0.0);
    for i := 0 to blocks.Length
      invariant forall j :: 0 <= j < i ==> y[j] == target[j]
    {
      y[i] := q(blocks[i] / rms[i / BLOCK_DIM]) * rms[i / BLOCK_DIM];
    }
  }

  method DivideByBlockDim(blocks: array<real>)
    modifies blocks
    ensures blocks[..] == Scale(1.0 / 256.0, old(blocks[..]))
  {
    ghost var t := blocks[..];
    for i := 0 to blocks.Length
      invariant forall j :: 0 <= j < i ==> blocks[j] == Times(1.0 / 256.0, t[j])
      invariant forall j :: i <= j < blocks.Length ==> blocks[j] == t[j]
    {
      DivideIsTimes(blocks[i], 256.0);
      blocks[i] := blocks[i] / 256.0;
    }
  }

  /**
   * The quantiser q stands for the table lookup in LLOYD[bits], and rms for the floored
   * root mean square of each block; the statement holds for any quantiser and positive scales.
   */
  method Roundtrip(weights: Vec, signs: Vec, rms: Vec, q: real -> real) returns (decoded: Vec)
    requires |signs| == |Padded(weights)| && IsSigns(signs)
    requires |rms| == Blocks(|weights|) && forall b :: 0 <= b < |rms| ==> rms[b] > 0.0
    ensures |decoded| == |weights|
    ensures |weights| < BLOCK_DIM ==> decoded == weights
    ensures |weights| >= BLOCK_DIM ==>
      var c := Coefficients(weights, signs);
      var y := Dequantised(c, rms, q);
      && decoded == Reconstructed(y, signs)[..|weights|]
      && 256.0 * Energy(Sub(decoded, weights)) <= Energy(Sub(y, c))
    ensures forall e :: Within(q, e) ==> Energy(Sub(decoded, weights)) <= Energy(Scale(e, rms))
    ensures (forall v :: q(v) == v) ==> decoded == weights
  {
    forall e | Within(q, e) ensures Energy(Sub(weights, weights)) <= Energy(Scale(e, rms)) {
      NoError(weights, Scale(e, rms));
    }
    if |weights| < BLOCK_DIM {
      return weights;
    }
    hide ChunkWht, Energy, Sub, Flip, Scale, Dequantised, Reconstructed;
    BlockFacts();
    WholeBlocks(Blocks(|weights|));
    var blocks := PadToBlocks(weights);
    FlipInPlace(blocks, signs);
    FwhtBatch(blocks, LOG_BLOCK, BLOCK_DIM);
    var y := Quantise(blocks, rms, q);
    FwhtBatch(y, LOG_BLOCK, BLOCK_DIM);
    DivideByBlockDim(y);
    FlipInPlace(y, signs);
    decoded := y[..][..|weights|];
    RoundtripSpec(weights, signs, rms, q);
    forall e | Within(q, e) ensures Energy(Sub(decoded, weights)) <= Energy(Scale(e, rms)) {
      CoefficientError(Coefficients(weights, signs), rms, q, e);
    }
  }

  /** What the pipeline, as a function, guarantees about its result. */
  lemma RoundtripSpec(weights: Vec, signs: Vec, rms: Vec, q: real -> real)
    requires |signs| == |Padded(weights)| && IsSigns(signs)
    requires |rms| == Blocks(|weights|) && forall b :: 0 <= b < |rms| ==> rms[b] > 0.0
    ensures var c := Coefficients(weights, signs);
      var y := Dequantised(c, rms, q);
      && Reconstructed(y, signs) == Flip(signs, Scale(1.0 / 256.0, ChunkWht(y, LOG_BLOCK)))
      && c == ChunkWht(Flip(signs, Padded(weights)), LOG_BLOCK)
      && 256.0 * Energy(Sub(Reconstructed(y, signs)[..|weights|], weights)) <= Energy(Sub(y, c))
      && ((forall v :: q(v) == v) ==> Reconstructed(y, signs)[..|weights|] == weights)
  {
    hide ChunkWht, Energy, Sub;
    var x, c := Padded(weights), Coefficients(weights, signs);
    var y := Dequantised(c, rms, q);
    WholeBlocks(Blocks(|weights|));
    ErrorIsScaled(x, signs, y);
    TruncationError(x, weights, Reconstructed(y, signs));
    if forall v :: q(v) == v {
      IdentityQuantiser(c, rms, q);
      ReconstructCoefficients(x, signs);
    }
  }

  // ----- The error of the quantiser -----

  lemma NoError(x: Vec, y: Vec)
    ensures Energy(Sub(x, x)) <= Energy(y)
  {
    ZeroEnergy(Sub(x, x), |x|);
    SquareSumMonotone(y, 0, |y|);
  }

  lemma {:induction false} ZeroEnergy(z: Vec, n: nat)
    requires n <= |z| && forall i :: 0 <= i < |z| ==> z[i] == 0.0
    ensures SquareSum(z, n) == 0.0
  {
    if n > 0 {
      ZeroEnergy(z, n - 1);
    }
  }

  /** A quantiser within e is off by at most e times the scale of its block on every coefficient. */
  lemma CoefficientError(c: Vec, rms: Vec, q: real -> real, e: real)
    requires |c| == BLOCK_DIM * |rms| && forall b :: 0 <= b < |rms| ==> rms[b] > 0.0
    requires Within(q, e)
    ensures Energy(Sub(Dequantised(c, rms, q), c)) <= 256.0 * Energy(Scale(e, rms))
  {
    var d, bound := Sub(Dequantised(c, rms, q), c), Scale(e, rms);
    forall i | 0 <= i < |d| ensures Times(d[i], d[i]) <= Times(bound[i / BLOCK_DIM], bound[i / BLOCK_DIM]) {
      OffByScale(c[i], rms[i / BLOCK_DIM], q, e);
    }
    BlockwiseBound(d, bound, |rms|);
  }

  lemma OffByScale(c: real, s: real, q: real -> real, e: real)
    requires s > 0.0 && Within(q, e)
    ensures var d := q(c / s) * s - c;
      Times(d, d) <= Times(Times(e, s), Times(e, s))
  {
    var v := c / s;
    assert v * s == c;
    var d, b := q(v) * s - c, e * s;
    assert d == (q(v) - v) * s;
    ScaleOrder(q(v) - v, e, s);
    ScaleOrder(-e, q(v) - v, s);
    assert -b == -e * s;
    SquareBound(d, b);
  }

  lemma SquareBound(d: real, b: real)
    requires -b <= d <= b
    ensures d * d <= b * b
  {
    ProductNonNegative(b - d, b + d);
    assert (b - d) * (b + d) == b * b - d * d;
  }

  /** Squares bounded block by block add up to at most 256 times the bounds. */
  lemma {:induction false} BlockwiseBound(d: Vec, bound: Vec, blocks: nat)
    requires blocks <= |bound| && |d| == BLOCK_DIM * |bound|
    requires forall i :: 0 <= i < |d| ==> Times(d[i], d[i]) <= Times(bound[i / BLOCK_DIM], bound[i / BLOCK_DIM])
    ensures SquareSum(d, BLOCK_DIM * blocks) <= 256.0 * SquareSum(bound, blocks)
  {
    if blocks > 0 {
      BlockwiseBound(d, bound, blocks - 1);
      OneBlockBound(d, blocks - 1, BLOCK_DIM, Times(bound[blocks - 1], bound[blocks - 1]));
    }
  }

  lemma {:induction false} OneBlockBound(d: Vec, b: nat, t: nat, limit: real)
    requires t <= BLOCK_DIM && BLOCK_DIM * (b + 1) <= |d|
    requires forall i :: BLOCK_DIM * b <= i < BLOCK_DIM * (b + 1) ==> Times(d[i], d[i]) <= limit
    ensures SquareSum(d, BLOCK_DIM * b + t) <= SquareSum(d, BLOCK_DIM * b) + t as real * limit
  {
    if t > 0 {
      OneBlockBound(d, b, t - 1, limit);
      assert t as real * limit == (t - 1) as real * limit + limit;
    }
  }

  lemma IdentityQuantiser(c: Vec, rms: Vec, q: real -> real)
    requires |c| == BLOCK_DIM * |rms| && forall b :: 0 <= b < |rms| ==> rms[b] > 0.0
    requires forall v :: q(v) == v
    ensures Dequantised(c, rms, q) == c
  {
    forall i | 0 <= i < |c| ensures Dequantised(c, rms, q)[i] == c[i] {
      var s := rms[i / BLOCK_DIM];
      assert q(c[i] / s) == c[i] / s;
      assert c[i] / s * s == c[i];
    }
  }
}
