/**
 * Squared distances of a vector to integer vectors, and what rounding and moving one
 * rounded coordinate cost.
 */
module E8Distance {
  import opened E8Snap

  function Square(x: real): real {
    x * x
  }

  function Distance(v: Vec, w: Ints): real
    requires |v| == |w|
  {
    if v == [] then 0.0
    else Distance(v[..|v| - 1], w[..|w| - 1]) + Square(v[|v| - 1] - w[|w| - 1] as real)
  }

  lemma {:induction false} DistanceUpdate(v: Vec, w: Ints, i: nat, x: int)
    requires |v| == |w| && i < |v|
    ensures Distance(v, w[i := x]) == Distance(v, w) - Square(v[i] - w[i] as real) + Square(v[i] - x as real)
  {
    var n := |v| - 1;
    if i == n {
      assert w[i := x][..n] == w[..n];
    } else {
      DistanceUpdate(v[..n], w[..n], i, x);
      assert w[i := x][..n] == w[..n][i := x];
    }
  }

  /** An integer other than the rounded one is at least 1 minus the deviation away. */
  lemma OtherInteger(x: real, n: int)
    ensures Square(x - Round(x) as real) <= Square(x - n as real)
    ensures n != Round(x) ==> Square(1.0 - Abs(x - Round(x) as real)) <= Square(x - n as real)
  {
    var d := x - Round(x) as real;
    var e := x - n as real;
    if n != Round(x) {
      assert Abs(e) >= 1.0 - Abs(d) >= 0.5;
      SquareMonotone(1.0 - Abs(d), Abs(e));
      SquareMonotone(Abs(d), Abs(e));
    }
    assert Square(Abs(e)) == Square(e) && Square(Abs(d)) == Square(d);
  }

  lemma SquareMonotone(a: real, b: real)
    requires 0.0 <= a <= b
    ensures Square(a) <= Square(b)
  {
    assert b * b - a * a == (b - a) * (b + a);
  }

  /** Rounding minimises the distance over all integer vectors. */
  lemma {:induction false} RoundingNearest(v: Vec, u: Ints)
    requires |u| == |v|
    ensures Distance(v, RoundAll(v)) <= Distance(v, u)
  {
    if v == [] {
    } else {
      var n := |v| - 1;
      RoundingNearest(v[..n], u[..n]);
      assert RoundAll(v)[..n] == RoundAll(v[..n]);
      OtherInteger(v[n], u[n]);
    }
  }

  /** Leaving the rounded value at coordinate i costs at least 1 - 2 * deviation. */
  lemma {:induction false} OffRoundingCosts(v: Vec, u: Ints, i: nat)
    requires |u| == |v| && i < |v| && u[i] != Round(v[i])
    ensures Distance(v, u) >= Distance(v, RoundAll(v)) + 1.0 - 2.0 * Deviation(v, i)
  {
    var n := |v| - 1;
    assert RoundAll(v)[..n] == RoundAll(v[..n]);
    if i == n {
      RoundingNearest(v[..n], u[..n]);
      OtherInteger(v[n], u[n]);
      OneMinus(v[n] - Round(v[n]) as real);
    } else {
      OffRoundingCosts(v[..n], u[..n], i);
      OtherInteger(v[n], u[n]);
    }
  }

  lemma OneMinus(d: real)
    ensures Square(1.0 - Abs(d)) == Square(d) + 1.0 - 2.0 * Abs(d)
  {
  }

  /** Moving coordinate m costs exactly 1 - 2 * deviation. */
  lemma MoveCosts(v: Vec, m: nat)
    requires m < |v|
    ensures Distance(v, Moved(v, m)) == Distance(v, RoundAll(v)) + 1.0 - 2.0 * Deviation(v, m)
  {
    var iv := RoundAll(v);
    var d := v[m] - iv[m] as real;
    DistanceUpdate(v, iv, m, Moved(v, m)[m]);
    OneMinus(d);
    StepOver(d);
    assert v[m] - Moved(v, m)[m] as real == if d > 0.0 then d - 1.0 else d + 1.0;
  }

  lemma StepOver(d: real)
    ensures Square(if d > 0.0 then d - 1.0 else d + 1.0) == Square(1.0 - Abs(d))
  {
  }
}
