/**
 * e8_snap of scripts/gen_bqfp_family.py: round each coordinate, then repair the parity of
 * the sum by moving one coordinate. Its comment says that the coordinate with the largest
 * deviation is moved; the code moves one with the smallest.
 */
module E8Snap {

  type Vec = seq<real>
  type Ints = seq<int>

  ghost function Abs(x: real): real {
    if x < 0.0 then -x else x
  }

  /** Python's round: the nearest integer, and the even one of two equally near. */
  function Round(x: real): (n: int)
    ensures Abs(x - n as real) <= 0.5
    ensures Abs(x - n as real) == 0.5 ==> n % 2 == 0
  {
    var f := x.Floor;
    var d := x - f as real;
    if d < 0.5 || (d == 0.5 && f % 2 == 0) then f else f + 1
  }

  function RoundAll(v: Vec): (iv: Ints)
    ensures |iv| == |v| && forall i :: 0 <= i < |v| ==> iv[i] == Round(v[i])
  {
    seq(|v|, i requires 0 <= i < |v| => Round(v[i]))
  }

  ghost function Sum(iv: Ints): int {
    if iv == [] then 0 else Sum(iv[..|iv| - 1]) + iv[|iv| - 1]
  }

  ghost function Deviation(v: Vec, i: nat): real
    requires i < |v|
  {
    Abs(v[i] - Round(v[i]) as real)
  }

  lemma {:induction false} SumUpdate(iv: Ints, i: nat, x: int)
    requires i < |iv|
    ensures Sum(iv[i := x]) == Sum(iv) - iv[i] + x
  {
    if i == |iv| - 1 {
      assert iv[i := x][..i] == iv[..i];
    } else {
      SumUpdate(iv[..|iv| - 1], i, x);
      assert iv[i := x][..|iv| - 1] == iv[..|iv| - 1][i := x];
    }
  }

  /** The coordinate that min(range(n), key=...) picks: the first with the least deviation. */
  ghost predicate IsFirstLeast(v: Vec, m: nat) {
    && m < |v|
    && (forall i :: 0 <= i < |v| ==> Deviation(v, m) <= Deviation(v, i))
    && (forall i :: 0 <= i < m ==> Deviation(v, m) < Deviation(v, i))
  }

  method LeastDeviation(v: Vec, iv: Ints) returns (m: nat)
    requires v != [] && iv == RoundAll(v)
    ensures IsFirstLeast(v, m)
  {
    m := 0;
    var least := if v[0] >= iv[0] as real then v[0] - iv[0] as real else iv[0] as real - v[0];
    for i := 1 to |v|
      invariant m < i && least == Deviation(v, m)
      invariant forall j :: 0 <= j < i ==> Deviation(v, m) <= Deviation(v, j)
      invariant forall j :: 0 <= j < m ==> Deviation(v, m) < Deviation(v, j)
    {
      var deviation := if v[i] >= iv[i] as real then v[i] - iv[i] as real else iv[i] as real - v[i];
      if deviation < least {
        m, least := i, deviation;
      }
    }
  }

  /** The rounded vector with coordinate m moved to the next integer on the side of v. */
  ghost function Moved(v: Vec, m: nat): Ints
    requires m < |v|
  {
    var iv := RoundAll(v);
    iv[m := if v[m] > iv[m] as real then iv[m] + 1 else iv[m] - 1]
  }

  /** What Snap returns, as its postcondition describes it. */
  ghost predicate IsSnapped(v: Vec, w: Ints) {
    if Sum(RoundAll(v)) % 2 == 0 then w == RoundAll(v)
    else exists m :: IsFirstLeast(v, m) && w == Moved(v, m)
  }

  method SumOf(iv: Ints) returns (sum: int)
    ensures sum == Sum(iv)
  {
    sum := 0;
    for i := 0 to |iv|
      invariant sum == Sum(iv[..i])
    {
      assert iv[..i + 1][..i] == iv[..i];
      sum := sum + iv[i];
    }
    assert iv[..|iv|] == iv;
  }

  method Snap(v: Vec) returns (iv: Ints)
    ensures |iv| == |v| && Sum(iv) % 2 == 0
    ensures forall i :: 0 <= i < |v| ==> Abs(v[i] - iv[i] as real) <= 1.0
    ensures IsSnapped(v, iv)
  {
    iv := RoundAll(v);
    var sum := SumOf(iv);
    if sum % 2 != 0 {
      assert v != [] by {
        assert iv == [] ==> Sum(iv) == 0;
      }
      hide Sum, Abs, Round, Deviation;
      var m := LeastDeviation(v, iv);
      MovedEven(v, m);
      MovedWithinOne(v, m);
      iv := iv[m := if v[m] > iv[m] as real then iv[m] + 1 else iv[m] - 1];
      assert iv == Moved(v, m);
    }
  }

  lemma MovedWithinOne(v: Vec, m: nat)
    requires m < |v|
    ensures forall i :: 0 <= i < |v| ==> Abs(v[i] - Moved(v, m)[i] as real) <= 1.0
  {
    assert Abs(v[m] - Round(v[m]) as real) <= 0.5;
  }

  lemma MovedEven(v: Vec, m: nat)
    requires m < |v| && Sum(RoundAll(v)) % 2 != 0
    ensures Sum(Moved(v, m)) % 2 == 0
  {
    SumUpdate(RoundAll(v), m, RoundAll(v)[m] + 1);
    SumUpdate(RoundAll(v), m, RoundAll(v)[m] - 1);
  }

  // ----- Snapping an already snapped vector -----

  function Reals(iv: Ints): (v: Vec)
    ensures |v| == |iv| && forall i :: 0 <= i < |iv| ==> v[i] == iv[i] as real
  {
    seq(|iv|, i requires 0 <= i < |iv| => iv[i] as real)
  }

  lemma SnapIdempotent(w: Ints, again: Ints)
    requires Sum(w) % 2 == 0 && IsSnapped(Reals(w), again)
    ensures again == w
  {
    forall i | 0 <= i < |w| ensures Round(w[i] as real) == w[i] {
    }
    assert RoundAll(Reals(w)) == w;
  }
}
