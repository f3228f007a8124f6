/**
 * When the vector that e8_snap (scripts/gen_bqfp_family.py) returns is a nearest integer
 * vector of even sum.
 */
module E8Nearest {
  import opened E8Distance
  import opened E8Snap

  /** No integer vector with an even sum is closer to v. */
  ghost predicate IsNearest(v: Vec, w: Ints) {
    |w| == |v| && forall u: Ints :: |u| == |v| && Sum(u) % 2 == 0 ==> Distance(v, w) <= Distance(v, u)
  }

  lemma {:induction false} DiffersSomewhere(u: Ints, w: Ints) returns (i: nat)
    requires |u| == |w| && Sum(u) != Sum(w)
    ensures i < |u| && u[i] != w[i]
  {
    var n := |u| - 1;
    if u[n] != w[n] {
      i := n;
    } else {
      i := DiffersSomewhere(u[..n], w[..n]);
    }
  }

  ghost predicate EqualDeviations(v: Vec) {
    forall i, j :: 0 <= i < |v| && 0 <= j < |v| ==> Deviation(v, i) == Deviation(v, j)
  }

  lemma EvenIsNearest(v: Vec)
    requires Sum(RoundAll(v)) % 2 == 0
    ensures IsNearest(v, RoundAll(v))
  {
    forall u: Ints | |u| == |v| ensures Distance(v, RoundAll(v)) <= Distance(v, u) {
      RoundingNearest(v, u);
    }
  }

  /** Moving coordinate m is nearest exactly if no coordinate deviates more. */
  lemma MovedNearestIff(v: Vec, m: nat)
    requires m < |v| && Sum(RoundAll(v)) % 2 != 0
    ensures IsNearest(v, Moved(v, m)) <==> forall i :: 0 <= i < |v| ==> Deviation(v, i) <= Deviation(v, m)
  {
    MoveCosts(v, m);
    if IsNearest(v, Moved(v, m)) {
      forall i | 0 <= i < |v| ensures Deviation(v, i) <= Deviation(v, m) {
        MoveCosts(v, i);
        MovedEven(v, i);
      }
    }
    if forall i :: 0 <= i < |v| ==> Deviation(v, i) <= Deviation(v, m) {
      forall u: Ints | |u| == |v| && Sum(u) % 2 == 0 ensures Distance(v, Moved(v, m)) <= Distance(v, u) {
        var i := DiffersSomewhere(u, RoundAll(v));
        OffRoundingCosts(v, u, i);
      }
    }
  }

  /**
   * The snapped vector is a nearest even-sum vector exactly if rounding already had an even
   * sum, or all coordinates deviate equally, so that the choice does not matter.
   */
  lemma NearestIff(v: Vec, w: Ints)
    requires IsSnapped(v, w)
    ensures IsNearest(v, w) <==> Sum(RoundAll(v)) % 2 == 0 || EqualDeviations(v)
  {
    hide IsNearest, Deviation;
    if Sum(RoundAll(v)) % 2 == 0 {
      EvenIsNearest(v);
    } else {
      var m :| IsFirstLeast(v, m) && w == Moved(v, m);
      MovedNearestIff(v, m);
    }
  }

  /** A concrete vector that is not snapped to a nearest one. */
  lemma NotNearestExample()
    ensures var v := [0.1, 1.4];
      && RoundAll(v) == [0, 1] && IsFirstLeast(v, 0) && Moved(v, 0) == [1, 1] && !IsNearest(v, [1, 1])
  {
    var v := [0.1, 1.4];
    assert RoundAll(v) == [0, 1];
    assert Sum([0, 1]) == 1 by { assert [0, 1][..1] == [0]; assert [0][..0] == []; }
    assert Sum(RoundAll(v)) % 2 != 0;
    assert Deviation(v, 0) == 0.1 && Deviation(v, 1) == 0.4;
    assert IsFirstLeast(v, 0);
    assert Moved(v, 0) == [1, 1];
    MovedNearestIff(v, 0);
    assert Deviation(v, 1) > Deviation(v, 0);
  }
}
