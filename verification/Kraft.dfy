/**
 * Code lengths and the Kraft inequality, in integers: for lengths that are at most `cap`,
 * the Kraft sum is scaled by 2^cap. Every prefix-free code satisfies the inequality.
 */
module Kraft {
  import opened Powers

  // ----- Length assignments -----

  ghost predicate Fits(ls: seq<nat>, cap: nat) {
    forall i :: 0 <= i < |ls| ==> ls[i] <= cap
  }

  ghost function KraftSum(ls: seq<nat>, cap: nat): nat
    requires Fits(ls, cap)
  {
    if ls == [] then 0 else Pow2(cap - ls[0]) + KraftSum(ls[1..], cap)
  }

  ghost predicate Feasible(ls: seq<nat>, cap: nat) {
    Fits(ls, cap) && KraftSum(ls, cap) <= Pow2(cap)
  }

  ghost function Without<T>(s: seq<T>, i: nat): seq<T>
    requires i < |s|
  {
    s[..i] + s[i + 1..]
  }

  lemma WithoutTail<T>(s: seq<T>, i: nat)
    requires 0 < i < |s|
    ensures Without(s, i) == [s[0]] + Without(s[1..], i - 1)
  {
  }

  lemma {:induction false} KraftWithout(ls: seq<nat>, cap: nat, i: nat)
    requires Fits(ls, cap) && i < |ls|
    ensures Fits(Without(ls, i), cap)
    ensures KraftSum(ls, cap) == Pow2(cap - ls[i]) + KraftSum(Without(ls, i), cap)
  {
    if i == 0 {
      assert Without(ls, 0) == ls[1..];
    } else {
      KraftWithout(ls[1..], cap, i - 1);
      WithoutTail(ls, i);
      KraftCons(ls[0], Without(ls[1..], i - 1), cap);
    }
  }

  lemma KraftCons(l: nat, ls: seq<nat>, cap: nat)
    requires l <= cap && Fits(ls, cap)
    ensures Fits([l] + ls, cap) && KraftSum([l] + ls, cap) == Pow2(cap - l) + KraftSum(ls, cap)
  {
    assert ([l] + ls)[1..] == ls;
  }

  /** Replacing one length changes the Kraft sum only by that entry. */
  lemma ReplaceLength(ls: seq<nat>, cap: nat, i: nat, l: nat)
    requires i < |ls| && Fits(ls, cap) && l <= cap
    ensures Fits(ls[i := l], cap)
    ensures KraftSum(ls[i := l], cap) == KraftSum(ls, cap) - Pow2(cap - ls[i]) + Pow2(cap - l)
  {
    assert Without(ls[i := l], i) == Without(ls, i);
    KraftWithout(ls, cap, i);
    KraftWithout(ls[i := l], cap, i);
  }

  lemma AppendLength(ls: seq<nat>, cap: nat, l: nat)
    requires Fits(ls, cap) && l <= cap
    ensures Fits(ls + [l], cap)
    ensures KraftSum(ls + [l], cap) == KraftSum(ls, cap) + Pow2(cap - l)
  {
    assert Without(ls + [l], |ls|) == ls;
    KraftWithout(ls + [l], cap, |ls|);
  }

  /** If no length reaches the cap, halving the scale halves the sum. */
  lemma {:induction false} HalveCap(ls: seq<nat>, cap: nat)
    requires cap > 0 && Fits(ls, cap - 1)
    ensures Fits(ls, cap) && KraftSum(ls, cap) == 2 * KraftSum(ls, cap - 1)
  {
    if ls == [] {
    } else {
      HalveCap(ls[1..], cap);
    }
  }

  lemma {:induction false} HasCap(ls: seq<nat>) returns (cap: nat)
    ensures Fits(ls, cap)
  {
    if ls == [] {
      cap := 0;
    } else {
      cap := HasCap(ls[1..]);
      if cap < ls[0] { cap := ls[0]; }
    }
  }

  // ----- Prefix-free codes satisfy the inequality -----

  predicate Comparable(c: Bits, d: Bits) {
    c <= d || d <= c
  }

  lemma ComparableCons(b: bool, c: Bits, d: Bits)
    ensures Comparable([b] + c, [b] + d) <==> Comparable(c, d)
  {
    assert ([b] + c)[1..] == c && ([b] + d)[1..] == d;
    if [b] + c <= [b] + d {
      assert c == ([b] + d)[1..|c| + 1];
    }
    if [b] + d <= [b] + c {
      assert d == ([b] + c)[1..|d| + 1];
    }
  }

  ghost predicate PrefixFreeSeq(cs: seq<Bits>) {
    forall i, j :: 0 <= i < j < |cs| ==> !Comparable(cs[i], cs[j])
  }

  function Lengths(cs: seq<Bits>): (ls: seq<nat>)
    ensures |ls| == |cs| && forall i :: 0 <= i < |cs| ==> ls[i] == |cs[i]|
  {
    seq(|cs|, i requires 0 <= i < |cs| => |cs[i]|)
  }

  /** The codewords that start with bit b, with that bit removed. */
  ghost function After(cs: seq<Bits>, b: bool): (ds: seq<Bits>)
    ensures forall d :: d in ds ==> [b] + d in cs
  {
    if cs == [] then []
    else if cs[0] != [] && cs[0][0] == b then
      assert [b] + cs[0][1..] == cs[0];
      [cs[0][1..]] + After(cs[1..], b)
    else After(cs[1..], b)
  }

  lemma {:induction false} AfterPrefixFree(cs: seq<Bits>, b: bool)
    requires PrefixFreeSeq(cs)
    ensures PrefixFreeSeq(After(cs, b))
  {
    if cs == [] {
    } else {
      AfterPrefixFree(cs[1..], b);
      if cs[0] != [] && cs[0][0] == b {
        var ds := After(cs[1..], b);
        assert cs[0] == [b] + cs[0][1..];
        forall k | 0 <= k < |ds| ensures !Comparable(cs[0][1..], ds[k]) {
          assert ds[k] in ds;
          var j :| 0 <= j < |cs[1..]| && cs[1..][j] == [b] + ds[k];
          assert !Comparable(cs[0], cs[j + 1]);
          ComparableCons(b, cs[0][1..], ds[k]);
        }
      }
    }
  }

  lemma {:induction false} AfterSplitsSum(cs: seq<Bits>, cap: nat)
    requires cap > 0 && Fits(Lengths(cs), cap)
    requires forall k :: 0 <= k < |cs| ==> cs[k] != []
    ensures SplitsSum(cs, cap)
  {
    hide KraftSum, Fits, Pow2, After, Lengths, SplitsSum;
    if cs == [] {
      NothingToSplit(cap);
    } else {
      var rest := cs[1..];
      assert cs == [cs[0]] + rest;
      LengthsCons(cs[0], rest);
      FitsTail(|cs[0]|, Lengths(rest), cap);
      AfterSplitsSum(rest, cap);
      SplitsSumCons(cs[0], rest, cap);
    }
  }

  /** The Kraft sum is that of the codewords after a zero and of those after a one, at half the scale. */
  ghost predicate SplitsSum(cs: seq<Bits>, cap: nat)
    requires cap > 0
  {
    && Fits(Lengths(cs), cap) && Fits(Lengths(After(cs, false)), cap - 1) && Fits(Lengths(After(cs, true)), cap - 1)
    && KraftSum(Lengths(cs), cap) ==
       KraftSum(Lengths(After(cs, false)), cap - 1) + KraftSum(Lengths(After(cs, true)), cap - 1)
  }

  lemma SplitsSumCons(c: Bits, rest: seq<Bits>, cap: nat)
    requires cap > 0 && c != [] && |c| <= cap && SplitsSum(rest, cap)
    ensures SplitsSum([c] + rest, cap)
  {
    hide KraftSum, Fits, Pow2, After, Lengths;
    var b, ds := c[0], After(rest, c[0]);
    LengthsCons(c, rest);
    LengthsCons(c[1..], ds);
    AfterCons(c, rest, b);
    AfterCons(c, rest, !b);
    KraftCons(|c|, Lengths(rest), cap);
    KraftCons(|c| - 1, Lengths(ds), cap - 1);
  }

  lemma NothingToSplit(cap: nat)
    requires cap > 0
    ensures SplitsSum([], cap)
  {
    assert Lengths([]) == [] && After([], false) == [] && After([], true) == [];
  }

  lemma LengthsCons(c: Bits, cs: seq<Bits>)
    ensures Lengths([c] + cs) == [|c|] + Lengths(cs)
  {
  }

  lemma AfterCons(c: Bits, rest: seq<Bits>, b: bool)
    ensures After([c] + rest, b) == if c != [] && c[0] == b then [c[1..]] + After(rest, b) else After(rest, b)
  {
    assert ([c] + rest)[1..] == rest;
  }

  lemma FitsTail(l: nat, ls: seq<nat>, cap: nat)
    requires Fits([l] + ls, cap)
    ensures l <= cap && Fits(ls, cap)
  {
    assert ([l] + ls)[0] == l;
    assert forall i :: 0 <= i < |ls| ==> ls[i] == ([l] + ls)[i + 1];
  }

  /** Kraft's inequality for prefix-free codes. */
  lemma {:induction false} KraftInequality(cs: seq<Bits>, cap: nat)
    requires PrefixFreeSeq(cs) && Fits(Lengths(cs), cap)
    ensures Feasible(Lengths(cs), cap)
    decreases cap
  {
    if k :| 0 <= k < |cs| && cs[k] == [] {
      assert |cs| == 1 by {
        assert k > 0 ==> Comparable(cs[0], cs[k]);
        assert k == 0 && |cs| > 1 ==> Comparable(cs[0], cs[1]);
      }
      assert Lengths(cs)[1..] == [];
      assert KraftSum(Lengths(cs), cap) == Pow2(cap) + KraftSum([], cap);
    } else if cap == 0 {
      assert |cs| == 0;
    } else {
      AfterPrefixFree(cs, false);
      AfterPrefixFree(cs, true);
      AfterSplitsSum(cs, cap);
      KraftInequality(After(cs, false), cap - 1);
      KraftInequality(After(cs, true), cap - 1);
    }
  }
}
