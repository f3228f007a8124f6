/**
 * The in-place butterfly loops of scripts/fpq_legal_bench.py (_fwht_batch) and
 * scripts/gen_bqfp_family.py (fwht), proved against the Walsh-Hadamard transform.
 */
module Butterflies {
  import opened Hadamard
  import opened Powers

  /** n is a multiple of h. */
  ghost predicate Tiles(n: nat, h: nat)
    decreases n
  {
    n == 0 || (0 < h <= n && Tiles(n - h, h))
  }

  lemma {:induction false} TilesApart(d: nat, e: nat, h: nat)
    requires Tiles(d, h) && Tiles(e, h) && d < e
    ensures d + h <= e && Tiles(e - d, h)
  {
    if d == 0 {
    } else {
      TilesApart(d - h, e - h, h);
    }
  }

  lemma {:induction false} TilesSum(d: nat, e: nat, h: nat)
    requires Tiles(d, h) && Tiles(e, h)
    ensures Tiles(d + e, h)
  {
    if e == 0 {
    } else {
      TilesSum(d, e - h, h);
    }
  }

  lemma {:induction false} TilesDouble(n: nat, h: nat)
    requires Tiles(n, 2 * h)
    ensures Tiles(n, h)
  {
    if n == 0 {
    } else {
      TilesDouble(n - 2 * h, h);
      assert Tiles(n - h, h);
    }
  }

  /** Every index lies in one tile. */
  lemma {:induction false} TileOf(i: nat, n: nat, h: nat) returns (e: nat)
    requires Tiles(n, h) && i < n
    ensures Tiles(e, h) && e <= i < e + h <= n && Tiles(n - e, h)
  {
    if i < h {
      e := 0;
    } else {
      e := TileOf(i - h, n - h, h);
      e := e + h;
    }
  }

  /** The transform of every aligned chunk of 2^k values. */
  ghost function ChunkWht(x: Vec, k: nat): (y: Vec)
    ensures |y| == |x|
    decreases |x|
  {
    if |x| < Pow2(k) then x else Wht(x[..Pow2(k)], k) + ChunkWht(x[Pow2(k)..], k)
  }

  ghost function Butterfly(x: Vec, h: nat): (y: Vec)
    requires |x| == 2 * h
    ensures |y| == 2 * h
  {
    Add(x[..h], x[h..]) + Sub(x[..h], x[h..])
  }

  /** One pass of the outer loop: a butterfly on every aligned chunk of 2h values. */
  ghost function Sweep(x: Vec, h: nat): (y: Vec)
    requires h > 0
    ensures |y| == |x|
    decreases |x|
  {
    if |x| < 2 * h then x else Butterfly(x[..2 * h], h) + Sweep(x[2 * h..], h)
  }

  lemma {:induction false} ChunkOfOne(x: Vec)
    ensures ChunkWht(x, 0) == x
  {
    if x == [] {
    } else {
      ChunkOfOne(x[1..]);
      assert x == x[..1] + x[1..];
    }
  }

  lemma ChunkWhole(x: Vec, k: nat)
    requires |x| == Pow2(k)
    ensures ChunkWht(x, k) == Wht(x, k)
  {
    assert x[..Pow2(k)] == x && x[Pow2(k)..] == [];
  }

  lemma TwoChunks(a: Vec, b: Vec, c: Vec, k: nat)
    requires |a| == |b| == Pow2(k)
    ensures ChunkWht(a + (b + c), k) == Wht(a, k) + (Wht(b, k) + ChunkWht(c, k))
  {
    hide *;
    ChunkStep(a, b + c, k);
    ChunkStep(b, c, k);
  }

  lemma ChunkStep(a: Vec, b: Vec, k: nat)
    requires |a| == Pow2(k)
    ensures ChunkWht(a + b, k) == Wht(a, k) + ChunkWht(b, k)
  {
    hide Wht;
    assert (a + b)[..|a|] == a && (a + b)[|a|..] == b;
  }

  lemma SweepStepOver(p: Vec, q: Vec, r: Vec, h: nat)
    requires h > 0 && |p| == |q| == h
    ensures Sweep(p + (q + r), h) == Add(p, q) + Sub(p, q) + Sweep(r, h)
  {
    var x := p + (q + r);
    assert x[..2 * h] == p + q && x[2 * h..] == r;
    ButterflyJoins(p, q);
  }

  /** A pass doubles the size of the transformed chunks. */
  lemma {:induction false} SweepDoubles(x: Vec, k: nat)
    requires Tiles(|x|, Pow2(k + 1))
    ensures Sweep(ChunkWht(x, k), Pow2(k)) == ChunkWht(x, k + 1)
    decreases |x|
  {
    if x == [] {
    } else {
      var h := Pow2(k);
      var a, b, c := x[..h], x[h..2 * h], x[2 * h..];
      assert x == a + (b + c) == (a + b) + c;
      SweepDoubles(c, k);
      DoublesStep(a, b, c, k);
    }
  }

  lemma DoublesStep(a: Vec, b: Vec, c: Vec, k: nat)
    requires |a| == |b| == Pow2(k)
    requires Sweep(ChunkWht(c, k), Pow2(k)) == ChunkWht(c, k + 1)
    ensures Sweep(ChunkWht(a + (b + c), k), Pow2(k)) == ChunkWht(a + b + c, k + 1)
  {
    hide Sweep, ChunkWht, Add, Sub;
    TwoChunks(a, b, c, k);
    SweepStepOver(Wht(a, k), Wht(b, k), ChunkWht(c, k), Pow2(k));
    ChunkStep(a + b, c, k + 1);
    assert (a + b)[..|a|] == a && (a + b)[|a|..] == b;
  }

  lemma ButterflyJoins(a: Vec, b: Vec)
    requires |a| == |b|
    ensures Butterfly(a + b, |a|) == Add(a, b) + Sub(a, b)
  {
    assert (a + b)[..|a|] == a && (a + b)[|a|..] == b;
  }

  lemma {:induction false} SweepSnoc(x: Vec, b: Vec, h: nat)
    requires h > 0 && Tiles(|x|, 2 * h) && |b| == 2 * h
    ensures Sweep(x + b, h) == Sweep(x, h) + Butterfly(b, h)
    decreases |x|
  {
    if x == [] {
      assert x + b == b && b[..2 * h] == b && b[2 * h..] == [];
    } else {
      assert (x + b)[..2 * h] == x[..2 * h] && (x + b)[2 * h..] == x[2 * h..] + b;
      SweepSnoc(x[2 * h..], b, h);
    }
  }

  /** What a pass does at each position. */
  lemma {:induction false} SweepAt(x: Vec, h: nat, e: nat, t: nat)
    requires h > 0 && Tiles(e, 2 * h) && e + 2 * h <= |x| && t < h
    ensures Sweep(x, h)[e + t] == x[e + t] + x[e + h + t]
    ensures Sweep(x, h)[e + h + t] == x[e + t] - x[e + h + t]
    decreases |x|
  {
    hide Sweep, Add, Sub;
    var p, q, r := x[..h], x[h..2 * h], x[2 * h..];
    assert x == p + (q + r);
    SweepStepOver(p, q, r, h);
    if e != 0 {
      SweepAt(r, h, e - 2 * h, t);
    }
  }

  // ----- gen_bqfp_family.fwht: chunk by chunk -----

  method SweepChunks(a: array<real>, h: nat)
    requires h > 0 && Tiles(a.Length, 2 * h)
    modifies a
    ensures a[..] == Sweep(old(a[..]), h)
  {
    ghost var before := a[..];
    var i := 0;
    assert before[..0] == [];
    while i < a.Length
      invariant i <= a.Length && Tiles(i, 2 * h) && Tiles(a.Length - i, 2 * h)
      invariant Swept(before, a[..], i, h)
    {
      ghost var now := a[..];
      SweepOneChunk(a, i, h);
      SweepStep(before, now, a[..], i, h);
      assert Tiles(i + 2 * h, 2 * h);
      i := i + 2 * h;
    }
    assert a[..i] == a[..] && before[..i] == before;
  }

  /** The values before position i have been swept, the others are untouched. */
  ghost predicate Swept(before: Vec, now: Vec, i: nat, h: nat)
    requires h > 0
  {
    i <= |now| == |before| && now[..i] == Sweep(before[..i], h) && now[i..] == before[i..]
  }

  lemma SweepStep(before: Vec, now: Vec, next: Vec, i: nat, h: nat)
    requires h > 0 && Tiles(i, 2 * h) && i + 2 * h <= |now| == |next| && Swept(before, now, i, h)
    requires next[..i] == now[..i] && next[i + 2 * h..] == now[i + 2 * h..]
    requires next[i..i + 2 * h] == Butterfly(now[i..i + 2 * h], h)
    ensures Swept(before, next, i + 2 * h, h)
  {
    hide Butterfly, Sweep, Tiles;
    SliceAt(before, i, 2 * h);
    SliceAt(now, i, 2 * h);
    SliceAt(next, i, 2 * h);
    SweepSnoc(before[..i], before[i..i + 2 * h], h);
  }

  lemma SliceAt(s: Vec, i: nat, m: nat)
    requires i + m <= |s|
    ensures s[..i + m] == s[..i] + s[i..i + m]
    ensures s[i..i + m] == s[i..][..m] && s[i + m..] == s[i..][m..]
  {
  }

  method SweepOneChunk(a: array<real>, i: nat, h: nat)
    requires h > 0 && i + 2 * h <= a.Length
    modifies a
    ensures a[..][i..i + 2 * h] == Butterfly(old(a[..])[i..i + 2 * h], h)
    ensures a[..][..i] == old(a[..])[..i] && a[..][i + 2 * h..] == old(a[..])[i + 2 * h..]
  {
    hide *;
    ghost var before := a[..];
    for j := i to i + h
      invariant |before| == a.Length
      invariant forall t {:trigger a[t]} :: 0 <= t < a.Length ==>
        a[t] ==
          if i <= t < j then before[t] + before[t + h]
          else if i + h <= t < j + h then before[t - h] - before[t]
          else before[t]
    {
      var x, y := a[j], a[j + h];
      a[j], a[j + h] := x + y, x - y;
    }
    ChunkIsButterfly(before[i..i + 2 * h], a[i..i + 2 * h], h);
  }

  lemma ChunkIsButterfly(before: Vec, now: Vec, h: nat)
    requires |before| == |now| == 2 * h
    requires forall t :: 0 <= t < h ==> now[t] == before[t] + before[t + h]
    requires forall t :: h <= t < 2 * h ==> now[t] == before[t - h] - before[t]
    ensures now == Butterfly(before, h)
  {
  }

  /** fwht: all passes, then division by the square root of the length. */
  method Fwht(a: array<real>, ghost k: nat, norm: real)
    requires a.Length == Pow2(k) && norm > 0.0 && norm * norm == Len(k)
    modifies a
    ensures a[..] == Scale(1.0 / norm, Wht(old(a[..]), k))
    ensures Scale(1.0 / norm, Wht(a[..], k)) == old(a[..])
    ensures Energy(a[..]) == Energy(old(a[..]))
  {
    ghost var before := a[..];
    var h := 1;
    ghost var m := 0;
    ChunkOfOne(before);
    while h < a.Length
      invariant m <= k && h == Pow2(m) && a[..] == ChunkWht(before, m)
      decreases k - m
    {
      SmallerPower(m, k);
      PowerTiles(m + 1, k);
      SweepChunks(a, h);
      SweepDoubles(before, m);
      h := h * 2;
      m := m + 1;
    }
    PowerInjective(m, k);
    ChunkWhole(before, k);
    ghost var transformed := a[..];
    for i := 0 to a.Length
      invariant forall t :: 0 <= t < i ==> a[t] == Times(1.0 / norm, transformed[t])
      invariant forall t :: i <= t < a.Length ==> a[t] == transformed[t]
    {
      DivideIsTimes(a[i], norm);
      a[i] := a[i] / norm;
    }
    assert a[..] == Scale(1.0 / norm, transformed);
    NormalisedSelfInverse(before, k, norm);
    NormalisedEnergy(before, k, norm);
  }

  lemma DivideIsTimes(v: real, n: real)
    requires n != 0.0
    ensures v / n == Times(1.0 / n, v)
  {
    assert (1.0 / n * v) * n == (1.0 / n * n) * v;
  }

  lemma NormalisedEnergy(x: Vec, k: nat, norm: real)
    requires |x| == Pow2(k) && norm != 0.0 && norm * norm == Len(k)
    ensures Energy(Scale(1.0 / norm, Wht(x, k))) == Energy(x)
  {
    hide Wht, Energy;
    var c, e := 1.0 / norm, Energy(x);
    EnergyScale(c, Wht(x, k));
    WhtEnergy(x, k);
    assert Energy(Scale(c, Wht(x, k))) == Times(c * c, Times(norm * norm, e));
    InverseSquareCancels(c, norm, e);
  }

  lemma InverseSquareCancels(c: real, norm: real, e: real)
    requires c * norm == 1.0
    ensures Times(c * c, Times(norm * norm, e)) == e
  {
    assert (c * c) * (norm * norm * e) == (c * norm) * (c * norm) * e;
  }

  lemma {:induction false} PowerInjective(m: nat, k: nat)
    requires m <= k && Pow2(m) >= Pow2(k)
    ensures m == k
  {
    if m < k {
      Pow2Monotone(m, k - 1);
    }
  }

  lemma SmallerPower(m: nat, k: nat)
    requires m <= k && Pow2(m) < Pow2(k)
    ensures m < k
  {
  }

  lemma {:induction false} PowerTiles(m: nat, k: nat)
    requires m <= k
    ensures Tiles(Pow2(k), Pow2(m))
    decreases k
  {
    if m == k {
      assert Tiles(0, Pow2(m));
    } else {
      PowerTiles(m, k - 1);
      TilesSum(Pow2(k - 1), Pow2(k - 1), Pow2(m));
    }
  }

  // ----- fpq_legal_bench._fwht_batch: column by column over all rows -----

  /**
   * One value of h in _fwht_batch. The rows are consecutive in one buffer, so a column
   * index taken in every row and every chunk is an offset from the multiples of 2h.
   */
  method SweepColumns(a: array<real>, h: nat)
    requires h > 0 && Tiles(a.Length, 2 * h)
    modifies a
    ensures a[..] == Sweep(old(a[..]), h)
  {
    ghost var before := a[..];
    for off := 0 to h
      invariant Progress(before, a[..], h, off, 0)
    {
      SweepColumn(a, h, off, before);
    }
    ColumnsAreSweep(before, a[..], h);
  }

  /** Offset t of the chunk at position e, in a buffer of n values. */
  ghost predicate InChunk(e: nat, t: nat, h: nat, n: nat) {
    Tiles(e, 2 * h) && e + 2 * h <= n && t < h
  }

  /** The pair at offset t of the chunk at e has been combined, or is untouched. */
  ghost predicate PairIs(before: Vec, now: Vec, h: nat, e: nat, t: nat, combined: bool)
    requires |before| == |now| && e + 2 * h <= |now| && t < h
  {
    if combined then
      now[e + t] == before[e + t] + before[e + h + t] && now[e + h + t] == before[e + t] - before[e + h + t]
    else
      now[e + t] == before[e + t] && now[e + h + t] == before[e + h + t]
  }

  /** Combined are all offsets below `off`, and offset `off` in the chunks before position `upto`. */
  ghost predicate Progress(before: Vec, now: Vec, h: nat, off: nat, upto: nat) {
    && |now| == |before|
    && forall e: nat, t: nat :: InChunk(e, t, h, |now|) ==> PairIs(before, now, h, e, t, t < off || (t == off && e < upto))
  }

  method SweepColumn(a: array<real>, h: nat, off: nat, ghost before: Vec)
    requires off < h && Tiles(a.Length, 2 * h) && Progress(before, a[..], h, off, 0)
    modifies a
    ensures Progress(before, a[..], h, off + 1, 0)
  {
    var e := 0;
    while e < a.Length
      invariant e <= a.Length && Tiles(e, 2 * h) && Tiles(a.Length - e, 2 * h)
      invariant Progress(before, a[..], h, off, e)
    {
      ghost var now := a[..];
      assert InChunk(e, off, h, |now|);
      var x, y := a[e + off], a[e + h + off];
      a[e + off] := x + y;
      a[e + h + off] := x - y;
      assert a[..] == now[e + off := x + y][e + h + off := x - y];
      PairStep(before, now, a[..], h, off, e);
      assert Tiles(e + 2 * h, 2 * h);
      e := e + 2 * h;
    }
    forall d: nat, t: nat | InChunk(d, t, h, a.Length) ensures PairIs(before, a[..], h, d, t, t < off + 1) {
    }
  }

  lemma PairStep(before: Vec, now: Vec, next: Vec, h: nat, off: nat, e: nat)
    requires off < h && InChunk(e, off, h, |now|) && Progress(before, now, h, off, e)
    requires next == now[e + off := now[e + off] + now[e + h + off]][e + h + off := now[e + off] - now[e + h + off]]
    ensures Progress(before, next, h, off, e + 2 * h)
  {
    assert PairIs(before, now, h, e, off, false);
    forall d: nat, t: nat | InChunk(d, t, h, |next|)
      ensures PairIs(before, next, h, d, t, t < off || (t == off && d < e + 2 * h))
    {
      assert PairIs(before, now, h, d, t, t < off || (t == off && d < e));
      if d < e {
        TilesApart(d, e, 2 * h);
      } else if e < d {
        TilesApart(e, d, 2 * h);
      }
    }
  }

  lemma ColumnsAreSweep(before: Vec, now: Vec, h: nat)
    requires h > 0 && Tiles(|now|, 2 * h) && Progress(before, now, h, h, 0)
    ensures now == Sweep(before, h)
  {
    forall i | 0 <= i < |now| ensures now[i] == Sweep(before, h)[i] {
      ColumnsAreSweepAt(before, now, h, i);
    }
  }

  lemma ColumnsAreSweepAt(before: Vec, now: Vec, h: nat, i: nat)
    requires h > 0 && Tiles(|now|, 2 * h) && Progress(before, now, h, h, 0) && i < |now|
    ensures now[i] == Sweep(before, h)[i]
  {
    hide Sweep;
    var e := TileOf(i, |now|, 2 * h);
    var t := if i < e + h then i - e else i - e - h;
    assert InChunk(e, t, h, |now|);
    SweepAt(before, h, e, t);
  }

  /** _fwht_batch on rows of 2^k values held one after another. */
  method FwhtBatch(blocks: array<real>, ghost k: nat, n: nat)
    requires n == Pow2(k) && Tiles(blocks.Length, n)
    modifies blocks
    ensures blocks[..] == ChunkWht(old(blocks[..]), k)
  {
    hide Sweep, ChunkWht, Tiles;
    ghost var before := blocks[..];
    var h := 1;
    ghost var m := 0;
    ChunkOfOne(before);
    while h < n
      invariant m <= k && h == Pow2(m) && blocks[..] == ChunkWht(before, m)
      decreases k - m
    {
      SmallerPower(m, k);
      CoarseTiles(blocks.Length, m + 1, k);
      SweepColumns(blocks, h);
      SweepDoubles(before, m);
      h := h * 2;
      m := m + 1;
    }
    PowerInjective(m, k);
  }

  lemma {:induction false} CoarseTiles(n: nat, m: nat, k: nat)
    requires m <= k && Tiles(n, Pow2(k))
    ensures Tiles(n, Pow2(m))
  {
    if n == 0 {
    } else {
      CoarseTiles(n - Pow2(k), m, k);
      PowerTiles(m, k);
      TilesSum(n - Pow2(k), Pow2(k), Pow2(m));
    }
  }
}
