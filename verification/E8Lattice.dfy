/**
 * When the vector that e8_snap (scripts/gen_bqfp_family.py) returns is nearest in the whole
 * lattice that its docstring names: integer vectors of even sum, and half-integer vectors of
 * even sum, which the code never tries.
 */
module E8Lattice {
  import opened E8Distance
  import opened E8Nearest
  import opened E8Snap

  // ----- Half-integer vectors -----

  /** The vector moved by one half, so that half-integer points become integer points. */
  function Shifted(v: Vec): (w: Vec)
    ensures |w| == |v| && forall i :: 0 <= i < |v| ==> w[i] == v[i] - 0.5
  {
    seq(|v|, i requires 0 <= i < |v| => v[i] - 0.5)
  }

  /** The coordinates u[i] + 1/2 add up to an even number. */
  ghost predicate EvenHalves(u: Ints) {
    (2 * Sum(u) + |u|) % 4 == 0
  }

  /** No integer vector and no half-integer vector of even sum is closer to v than w. */
  ghost predicate IsLatticeNearest(v: Vec, w: Ints) {
    && IsNearest(v, w)
    && forall u: Ints :: |u| == |v| && EvenHalves(u) ==> Distance(v, w) <= Distance(Shifted(v), u)
  }

  // ----- Deviations of the shifted vector -----

  /** What is far from integers is close to half-integers. */
  lemma ShiftedDeviation(v: Vec, i: nat)
    requires i < |v|
    ensures Deviation(Shifted(v), i) == 0.5 - Deviation(v, i)
  {
    HalfDeviation(v[i]);
  }

  lemma HalfDeviation(x: real)
    ensures Abs(x - 0.5 - Round(x - 0.5) as real) == 0.5 - Abs(x - Round(x) as real)
  {
    var n, m := Round(x), Round(x - 0.5);
    hide Round;
    assert n as real - 0.5 <= x <= n as real + 0.5;
    assert m as real - 0.5 <= x - 0.5 <= m as real + 0.5;
    assert m == n || m == n - 1 || m == n + 1 || m == n - 2;
  }

  ghost function DeviationSum(v: Vec, n: nat): real
    requires n <= |v|
  {
    if n == 0 then 0.0 else DeviationSum(v, n - 1) + Deviation(v, n - 1)
  }

  /** Rounding to half-integers costs n/4 less the sum of the deviations more than rounding to integers. */
  lemma {:induction false} HalfRounding(v: Vec, n: nat)
    requires n <= |v|
    ensures Distance(Shifted(v)[..n], RoundAll(Shifted(v))[..n]) ==
      Distance(v[..n], RoundAll(v)[..n]) + 0.25 * n as real - DeviationSum(v, n)
  {
    hide *;
    if n == 0 {
      NothingRounded(v);
    } else {
      HalfRounding(v, n - 1);
      LastTerm(v, n);
      LastTerm(Shifted(v), n);
      LastDeviation(v, n);
      ShiftedDeviation(v, n - 1);
      HalfSquare(Deviation(v, n - 1));
    }
  }

  lemma NothingRounded(v: Vec)
    ensures Distance(v[..0], RoundAll(v)[..0]) == 0.0 == Distance(Shifted(v)[..0], RoundAll(Shifted(v))[..0])
    ensures DeviationSum(v, 0) == 0.0
  {
  }

  lemma LastDeviation(v: Vec, n: nat)
    requires 0 < n <= |v|
    ensures DeviationSum(v, n) == DeviationSum(v, n - 1) + Deviation(v, n - 1)
  {
  }

  lemma LastTerm(v: Vec, n: nat)
    requires 0 < n <= |v|
    ensures Distance(v[..n], RoundAll(v)[..n]) ==
      Distance(v[..n - 1], RoundAll(v)[..n - 1]) + Square(Deviation(v, n - 1))
  {
    hide Round;
    var w := RoundAll(v);
    assert v[..n][..n - 1] == v[..n - 1] && w[..n][..n - 1] == w[..n - 1];
    SquareOfAbs(v[n - 1] - w[n - 1] as real);
  }

  lemma SquareOfAbs(d: real)
    ensures Square(Abs(d)) == Square(d)
  {
  }

  lemma HalfSquare(d: real)
    ensures Square(0.5 - d) == Square(d) + 0.25 - d
  {
  }

  // ----- The nearest half-integer vector -----

  /** What the parity of half-integers costs: moving the coordinate m that is closest to an integer. */
  ghost function HalfPenalty(v: Vec, m: nat): real
    requires m < |v|
  {
    if EvenHalves(RoundAll(Shifted(v))) then 0.0 else 2.0 * Deviation(v, m)
  }

  /** No half-integer vector of even sum is closer than the rounded one and the penalty. */
  lemma HalvesCostAtLeast(v: Vec, m: nat, u: Ints)
    requires IsFirstLeast(v, m) && |u| == |v| && EvenHalves(u)
    ensures Distance(Shifted(v), u) >= Distance(Shifted(v), RoundAll(Shifted(v))) + HalfPenalty(v, m)
  {
    hide Round, Abs, Deviation, Distance;
    var w := Shifted(v);
    if EvenHalves(RoundAll(w)) {
      RoundingNearest(w, u);
    } else {
      var i := DiffersSomewhere(u, RoundAll(w));
      OffRoundingCosts(w, u, i);
      ShiftedDeviation(v, i);
    }
  }

  /** Some half-integer vector of even sum attains that, if the number of coordinates is even. */
  lemma HalvesAttain(v: Vec, m: nat) returns (u: Ints)
    requires IsFirstLeast(v, m) && |v| % 2 == 0
    ensures |u| == |v| && EvenHalves(u)
    ensures Distance(Shifted(v), u) == Distance(Shifted(v), RoundAll(Shifted(v))) + HalfPenalty(v, m)
  {
    hide Round, Abs, Deviation, Distance, Sum, EvenHalves, Moved;
    var w := Shifted(v);
    u := RoundAll(w);
    if !EvenHalves(u) {
      MoveCosts(w, m);
      ShiftedDeviation(v, m);
      MovedHalves(w, m);
      u := Moved(w, m);
    }
  }

  /** Moving one coordinate repairs the parity of half-integers. */
  lemma MovedHalves(w: Vec, m: nat)
    requires m < |w| && |w| % 2 == 0 && !EvenHalves(RoundAll(w))
    ensures |Moved(w, m)| == |w| && EvenHalves(Moved(w, m))
  {
    hide Round, Sum;
    var u := RoundAll(w);
    SumUpdate(u, m, u[m] + 1);
    SumUpdate(u, m, u[m] - 1);
    NextHalves(Sum(u), |u|);
  }

  lemma NextHalves(sum: int, n: nat)
    requires n % 2 == 0 && (2 * sum + n) % 4 != 0
    ensures (2 * (sum + 1) + n) % 4 == 0 && (2 * (sum - 1) + n) % 4 == 0
  {
    var t := sum + n / 2;
    assert 2 * t == 2 * sum + n;
    DoubleModFour(t);
    DoubleModFour(t + 1);
    DoubleModFour(t - 1);
  }

  lemma DoubleModFour(t: int)
    ensures (2 * t) % 4 == 2 * (t % 2)
  {
    assert 2 * t == 4 * (t / 2) + 2 * (t % 2);
  }

  /** With an odd number of coordinates, half-integers never add up to an even number. */
  lemma OddNeverEven(u: Ints)
    requires |u| % 2 == 1
    ensures !EvenHalves(u)
  {
  }

  // ----- The exact condition -----

  /** What the parity of integers costs the code, which moves coordinate m. */
  ghost function Penalty(v: Vec, m: nat): real
    requires m < |v|
  {
    if Sum(RoundAll(v)) % 2 == 0 then 0.0 else 1.0 - 2.0 * Deviation(v, m)
  }

  lemma FirstLeastUnique(v: Vec, m: nat, k: nat)
    requires IsFirstLeast(v, m) && IsFirstLeast(v, k)
    ensures m == k
  {
    hide Deviation;
    assert Deviation(v, m) <= Deviation(v, k) <= Deviation(v, m);
  }

  lemma SnappedIs(v: Vec, w: Ints, m: nat)
    requires IsSnapped(v, w) && IsFirstLeast(v, m)
    ensures |Moved(v, m)| == |v| && w == if Sum(RoundAll(v)) % 2 == 0 then RoundAll(v) else Moved(v, m)
  {
    hide Round, Deviation, Sum;
    if Sum(RoundAll(v)) % 2 != 0 {
      var k :| IsFirstLeast(v, k) && w == Moved(v, k);
      FirstLeastUnique(v, m, k);
    }
  }

  lemma SnappedDistance(v: Vec, w: Ints, m: nat)
    requires IsSnapped(v, w) && IsFirstLeast(v, m)
    ensures |w| == |v| && Distance(v, w) == Distance(v, RoundAll(v)) + Penalty(v, m)
  {
    hide Round, Abs, Deviation, Distance, Sum, Moved, IsSnapped;
    SnappedIs(v, w, m);
    if Sum(RoundAll(v)) % 2 != 0 {
      MoveCosts(v, m);
    }
  }

  /** The deviations from integers are small enough for half-integers to be no closer. */
  ghost predicate HalvesNoCloser(v: Vec, m: nat)
    requires m < |v|
  {
    DeviationSum(v, |v|) + Penalty(v, m) <= 0.25 * |v| as real + HalfPenalty(v, m)
  }

  lemma RoundedGap(v: Vec)
    ensures Distance(Shifted(v), RoundAll(Shifted(v))) ==
      Distance(v, RoundAll(v)) + 0.25 * |v| as real - DeviationSum(v, |v|)
  {
    hide *;
    HalfRounding(v, |v|);
    assert v[..|v|] == v && Shifted(v)[..|v|] == Shifted(v);
    assert RoundAll(v)[..|v|] == RoundAll(v) && RoundAll(Shifted(v))[..|v|] == RoundAll(Shifted(v));
  }

  /**
   * The snapped vector is nearest in the lattice exactly if it is nearest among integer
   * vectors, and either the number of coordinates is odd or the deviations, with what the
   * parity costs on both sides, add up to at most a quarter of it.
   */
  lemma LatticeNearestIff(v: Vec, w: Ints, m: nat)
    requires IsSnapped(v, w) && IsFirstLeast(v, m)
    ensures IsLatticeNearest(v, w) <==>
      && (Sum(RoundAll(v)) % 2 == 0 || EqualDeviations(v))
      && (|v| % 2 == 1 || HalvesNoCloser(v, m))
  {
    NearestIff(v, w);
    SnappedDistance(v, w, m);
    RoundedGap(v);
    hide Round, Abs, Deviation, Distance, Sum, IsFirstLeast, IsNearest, IsSnapped, HalfPenalty, Penalty, DeviationSum,
         EqualDeviations, EvenHalves;
    if |v| % 2 == 0 && !HalvesNoCloser(v, m) {
      var u := HalvesAttain(v, m);
      assert Distance(v, w) > Distance(Shifted(v), u);
    } else {
      forall u: Ints | |u| == |v| && EvenHalves(u) ensures Distance(v, w) <= Distance(Shifted(v), u) {
        if |v| % 2 == 1 {
          OddNeverEven(u);
        } else {
          HalvesCostAtLeast(v, m, u);
        }
      }
    }
  }

  /** The empty vector, which has no coordinate to move, is its own nearest point. */
  lemma EmptyNearest()
    ensures IsSnapped([], []) && IsLatticeNearest([], [])
  {
    assert RoundAll([]) == [];
    EvenIsNearest([]);
    forall u: Ints | |u| == 0 ensures Distance([], []) <= Distance(Shifted([]), u) {
      assert u == [];
    }
  }

  /** Four coordinates of one half are snapped to zero, although they are a half-integer vector of even sum. */
  lemma HalfIntegerMissed()
    ensures var v := [0.5, 0.5, 0.5, 0.5];
      && RoundAll(v) == [0, 0, 0, 0] && IsSnapped(v, [0, 0, 0, 0])
      && EvenHalves([0, 0, 0, 0]) && Distance(Shifted(v), [0, 0, 0, 0]) == 0.0
      && !IsLatticeNearest(v, [0, 0, 0, 0])
  {
    var v, z := [0.5, 0.5, 0.5, 0.5], [0, 0, 0, 0];
    assert RoundAll(v) == z && Shifted(v) == [0.0, 0.0, 0.0, 0.0];
    ZeroSum(z);
    ZeroDistance(Shifted(v), z);
    FirstQuarter(v, z);
  }

  lemma {:induction false} ZeroSum(w: Ints)
    requires forall i :: 0 <= i < |w| ==> w[i] == 0
    ensures Sum(w) == 0
  {
    if w != [] {
      ZeroSum(w[..|w| - 1]);
    }
  }

  lemma {:induction false} ZeroDistance(v: Vec, w: Ints)
    requires |v| == |w| && forall i :: 0 <= i < |v| ==> v[i] == w[i] as real
    ensures Distance(v, w) == 0.0
  {
    if v != [] {
      ZeroDistance(v[..|v| - 1], w[..|v| - 1]);
    }
  }

  lemma FirstQuarter(v: Vec, w: Ints)
    requires |v| == |w| > 0 && v[|v| - 1] - w[|v| - 1] as real == 0.5
    ensures Distance(v, w) >= 0.25
  {
    DistanceNonNegative(v[..|v| - 1], w[..|v| - 1]);
  }

  lemma {:induction false} DistanceNonNegative(v: Vec, w: Ints)
    requires |v| == |w|
    ensures Distance(v, w) >= 0.0
  {
    if v != [] {
      DistanceNonNegative(v[..|v| - 1], w[..|v| - 1]);
      SquareMonotone(0.0, Abs(v[|v| - 1] - w[|v| - 1] as real));
      SquareOfAbs(v[|v| - 1] - w[|v| - 1] as real);
    }
  }
}
