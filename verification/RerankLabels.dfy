/**
 * cosine_rerank and cosine_rerank_fast of scripts/hybrid_search.py: which document id is
 * attached to which score. The slow version drops unknown candidates before scoring but
 * labels with the list from before; the exact condition under which that is right is
 * proved here.
 */
module RerankLabels {

  type Id = string

  /** {doc_id: i for i, doc_id in enumerate(all_ids)}: later positions win. */
  function IndexOf(allIds: seq<Id>, id: Id): (i: int)
    ensures -1 <= i < |allIds|
    ensures i >= 0 ==> allIds[i] == id && forall j :: i < j < |allIds| ==> allIds[j] != id
    ensures i == -1 <==> id !in allIds
  {
    if allIds == [] then -1
    else if allIds[|allIds| - 1] == id then |allIds| - 1
    else
      assert allIds == allIds[..|allIds| - 1] + [allIds[|allIds| - 1]];
      IndexOf(allIds[..|allIds| - 1], id)
  }

  function Known(candidates: seq<Id>, allIds: seq<Id>): seq<Id> {
    if candidates == [] then []
    else
      var last := candidates[|candidates| - 1];
      Known(candidates[..|candidates| - 1], allIds) + if last in allIds then [last] else []
  }

  /** candidate_indices: the positions of the known candidates, in candidate order. */
  function CandidateIndices(candidates: seq<Id>, allIds: seq<Id>): (r: seq<int>)
    ensures |r| == |Known(candidates, allIds)|
    ensures forall k :: 0 <= k < |r| ==> 0 <= r[k] < |allIds| && r[k] == IndexOf(allIds, Known(candidates, allIds)[k])
  {
    KnownAreKnown(candidates, allIds);
    var known := Known(candidates, allIds);
    seq(|known|, k requires 0 <= k < |known| => IndexOf(allIds, known[k]))
  }

  lemma {:induction false} KnownAreKnown(candidates: seq<Id>, allIds: seq<Id>)
    ensures |Known(candidates, allIds)| <= |candidates|
    ensures forall id :: id in Known(candidates, allIds) <==> id in candidates && id in allIds
  {
    if candidates != [] {
      KnownAreKnown(candidates[..|candidates| - 1], allIds);
      assert candidates == candidates[..|candidates| - 1] + [candidates[|candidates| - 1]];
    }
  }

  /** list.index: the first position of a value. */
  function FirstIndex(s: seq<int>, v: int): (k: nat)
    requires v in s
    ensures k < |s| && s[k] == v && forall j :: 0 <= j < k ==> s[j] != v
  {
    if s[0] == v then 0 else 1 + FirstIndex(s[1..], v)
  }

  /** The id that cosine_rerank attaches to the score of the i-th known candidate. */
  function SlowLabel(candidates: seq<Id>, allIds: seq<Id>, i: nat): Id
    requires i < |CandidateIndices(candidates, allIds)|
  {
    KnownAreKnown(candidates, allIds);
    var indices := CandidateIndices(candidates, allIds);
    candidates[FirstIndex(indices, indices[i])]
  }

  /** The id that cosine_rerank_fast attaches to it, which is the scored document. */
  function FastLabel(candidates: seq<Id>, allIds: seq<Id>, i: nat): Id
    requires i < |CandidateIndices(candidates, allIds)|
  {
    allIds[CandidateIndices(candidates, allIds)[i]]
  }

  lemma FastLabelIsKnown(candidates: seq<Id>, allIds: seq<Id>, i: nat)
    requires i < |Known(candidates, allIds)|
    ensures FastLabel(candidates, allIds, i) == Known(candidates, allIds)[i]
  {
    KnownAreKnown(candidates, allIds);
    assert Known(candidates, allIds)[i] in Known(candidates, allIds);
  }

  // ----- Where a known candidate stands among the known ones -----

  ghost predicate AllKnown(candidates: seq<Id>, allIds: seq<Id>) {
    forall id :: id in candidates ==> id in allIds
  }

  lemma {:induction false} KnownConcat(a: seq<Id>, b: seq<Id>, allIds: seq<Id>)
    ensures Known(a + b, allIds) == Known(a, allIds) + Known(b, allIds)
  {
    if b == [] {
      assert a + b == a;
    } else {
      assert (a + b)[..|a + b| - 1] == a + b[..|b| - 1];
      KnownConcat(a, b[..|b| - 1], allIds);
    }
  }

  /** No candidate is dropped exactly if all are known. */
  lemma {:induction false} AllKnownIff(candidates: seq<Id>, allIds: seq<Id>)
    ensures |Known(candidates, allIds)| <= |candidates|
    ensures |Known(candidates, allIds)| == |candidates| <==> AllKnown(candidates, allIds)
    ensures AllKnown(candidates, allIds) ==> Known(candidates, allIds) == candidates
  {
    if candidates != [] {
      var init, last := candidates[..|candidates| - 1], candidates[|candidates| - 1];
      AllKnownIff(init, allIds);
      assert candidates == init + [last];
    }
  }

  /** The known candidate at position j comes after the known ones before j. */
  lemma KnownAt(candidates: seq<Id>, allIds: seq<Id>, j: nat)
    requires j < |candidates| && candidates[j] in allIds
    ensures var known, before := Known(candidates, allIds), Known(candidates[..j], allIds);
      |before| < |known| && known[|before|] == candidates[j] && known[..|before|] == before
  {
    var x := candidates[j];
    assert candidates == candidates[..j] + ([x] + candidates[j + 1..]);
    KnownConcat(candidates[..j], [x] + candidates[j + 1..], allIds);
    KnownConcat([x], candidates[j + 1..], allIds);
    assert [x][..0] == [] && Known([x], allIds) == [x];
  }

  /** Every position among the known ones belongs to a known candidate. */
  lemma {:induction false} KnownSource(candidates: seq<Id>, allIds: seq<Id>, k: nat) returns (j: nat)
    requires k < |Known(candidates, allIds)|
    ensures j < |candidates| && candidates[j] in allIds && |Known(candidates[..j], allIds)| == k
  {
    var n := |candidates| - 1;
    if k < |Known(candidates[..n], allIds)| {
      j := KnownSource(candidates[..n], allIds, k);
      assert candidates[..n][..j] == candidates[..j];
    } else {
      j := n;
    }
  }

  // ----- The known candidates as a prefix -----

  /** No unknown candidate stands before a known one. */
  ghost predicate UnknownLast(candidates: seq<Id>, allIds: seq<Id>) {
    forall j :: 0 <= j < |candidates| && candidates[j] in allIds ==> AllKnown(candidates[..j], allIds)
  }

  /** The known candidates are a prefix of the list exactly if the unknown ones come last. */
  lemma KnownPrefixIff(candidates: seq<Id>, allIds: seq<Id>)
    ensures Known(candidates, allIds) <= candidates <==> UnknownLast(candidates, allIds)
  {
    hide AllKnown, Known;
    var known := Known(candidates, allIds);
    AllKnownIff(candidates, allIds);
    if UnknownLast(candidates, allIds) {
      forall k | 0 <= k < |known| ensures known[k] == candidates[k] {
        var j := KnownSource(candidates, allIds, k);
        KnownAt(candidates, allIds, j);
        AllKnownIff(candidates[..j], allIds);
      }
    }
    if known <= candidates {
      forall j | 0 <= j < |candidates| && candidates[j] in allIds ensures AllKnown(candidates[..j], allIds) {
        PrefixHoldsAll(candidates, allIds, j);
      }
    }
  }

  /** If the known candidates are a prefix, every known candidate lies in it. */
  lemma PrefixHoldsAll(candidates: seq<Id>, allIds: seq<Id>, j: nat)
    requires Known(candidates, allIds) <= candidates && j < |candidates| && candidates[j] in allIds
    ensures AllKnown(candidates[..j], allIds)
  {
    hide Known;
    var known := Known(candidates, allIds);
    var rest := candidates[|known|..];
    KnownAreKnown(candidates, allIds);
    AllKnownIff(known, allIds);
    assert candidates == known + rest;
    KnownConcat(known, rest, allIds);
    KnownAreKnown(rest, allIds);
    assert Known(rest, allIds) == [];
    assert forall m :: |known| <= m < |candidates| ==> candidates[m] in rest;
    assert forall id :: id in candidates[..j] ==> id in known;
  }

  // ----- The labels -----

  /** The first candidate of its kind. */
  ghost predicate IsFirst(s: seq<Id>, j: nat) {
    j < |s| && s[j] !in s[..j]
  }

  /** No unknown candidate stands before the first occurrence of a known one. */
  ghost predicate UnknownAfterFirsts(candidates: seq<Id>, allIds: seq<Id>) {
    forall j: nat :: IsFirst(candidates, j) && candidates[j] in allIds ==> AllKnown(candidates[..j], allIds)
  }

  ghost predicate LabelRight(candidates: seq<Id>, allIds: seq<Id>, i: nat)
    requires i < |CandidateIndices(candidates, allIds)|
  {
    SlowLabel(candidates, allIds, i) == FastLabel(candidates, allIds, i)
  }

  /** The slow label of a known candidate depends only on where its id first occurs among the known ones. */
  lemma SlowLabelAt(candidates: seq<Id>, allIds: seq<Id>, i: nat) returns (k: nat)
    requires i < |Known(candidates, allIds)|
    ensures var known := Known(candidates, allIds);
      k <= i && IsFirst(known, k) && known[k] == known[i]
    ensures k < |candidates| && SlowLabel(candidates, allIds, i) == candidates[k] == SlowLabel(candidates, allIds, k)
  {
    KnownAreKnown(candidates, allIds);
    var known, indices := Known(candidates, allIds), CandidateIndices(candidates, allIds);
    k := FirstIndex(indices, indices[i]);
    FastLabelIsKnown(candidates, allIds, k);
    FastLabelIsKnown(candidates, allIds, i);
    forall m | 0 <= m < k ensures known[m] != known[k] {
      FastLabelIsKnown(candidates, allIds, m);
    }
  }

  /** A first occurrence is labelled rightly exactly if nothing unknown stands before it. */
  lemma FirstRightIff(candidates: seq<Id>, allIds: seq<Id>, j: nat)
    requires IsFirst(candidates, j) && candidates[j] in allIds
    ensures var k := |Known(candidates[..j], allIds)|;
      && k < |Known(candidates, allIds)|
      && (LabelRight(candidates, allIds, k) <==> AllKnown(candidates[..j], allIds))
  {
    hide SlowLabel, FastLabel, AllKnown, Known;
    var before := Known(candidates[..j], allIds);
    var k := |before|;
    KnownAt(candidates, allIds, j);
    KnownAreKnown(candidates[..j], allIds);
    AllKnownIff(candidates[..j], allIds);
    FastLabelIsKnown(candidates, allIds, k);
    var first := SlowLabelAt(candidates, allIds, k);
    var known := Known(candidates, allIds);
    assert candidates[j] !in before;
    assert forall m :: 0 <= m < k ==> known[m] == known[..k][m];
    assert forall m :: 0 <= m < j ==> candidates[m] == candidates[..j][m];
  }

  /**
   * Every score carries the id of the scored document exactly if no unknown candidate
   * stands before the first occurrence of a known one.
   */
  lemma LabelsRightIff(candidates: seq<Id>, allIds: seq<Id>)
    ensures (forall i :: 0 <= i < |CandidateIndices(candidates, allIds)| ==> LabelRight(candidates, allIds, i))
      <==> UnknownAfterFirsts(candidates, allIds)
  {
    hide AllKnown, Known, LabelRight;
    if UnknownAfterFirsts(candidates, allIds) {
      forall i | 0 <= i < |CandidateIndices(candidates, allIds)| ensures LabelRight(candidates, allIds, i) {
        RightByFirst(candidates, allIds, i);
      }
    }
    if forall i :: 0 <= i < |CandidateIndices(candidates, allIds)| ==> LabelRight(candidates, allIds, i) {
      forall j: nat | IsFirst(candidates, j) && candidates[j] in allIds ensures AllKnown(candidates[..j], allIds) {
        FirstRightIff(candidates, allIds, j);
      }
    }
  }

  /** The label of a repeated candidate is right if that of its first occurrence is. */
  lemma RightByFirst(candidates: seq<Id>, allIds: seq<Id>, i: nat)
    requires UnknownAfterFirsts(candidates, allIds) && i < |Known(candidates, allIds)|
    ensures LabelRight(candidates, allIds, i)
  {
    hide SlowLabel, FastLabel, AllKnown;
    var known := Known(candidates, allIds);
    var k := SlowLabelAt(candidates, allIds, i);
    var j := KnownSource(candidates, allIds, k);
    KnownAt(candidates, allIds, j);
    KnownAreKnown(candidates[..j], allIds);
    FirstRightIff(candidates, allIds, j);
    FastLabelIsKnown(candidates, allIds, i);
    FastLabelIsKnown(candidates, allIds, k);
  }

  /** An unknown candidate in front takes the label of the known one behind it. */
  lemma WrongLabelExample()
    ensures var candidates, allIds := ["u", "a"], ["a"];
      && |CandidateIndices(candidates, allIds)| == 1
      && SlowLabel(candidates, allIds, 0) == "u" && FastLabel(candidates, allIds, 0) == "a"
  {
    var candidates, allIds := ["u", "a"], ["a"];
    assert candidates[..1] == ["u"] && ["u"][..0] == [];
    assert Known(candidates, allIds) == ["a"];
    FastLabelIsKnown(candidates, allIds, 0);
    var k := SlowLabelAt(candidates, allIds, 0);
  }

  /** A repeated candidate is labelled rightly although an unknown one stands before its repetition. */
  lemma RepeatedCandidateExample()
    ensures var candidates, allIds := ["a", "u", "a"], ["a"];
      && UnknownAfterFirsts(candidates, allIds) && !UnknownLast(candidates, allIds)
  {
    var candidates, allIds := ["a", "u", "a"], ["a"];
    assert candidates[..2] == ["a", "u"] && "u" in ["a", "u"];
    assert "a" == candidates[..2][0];
  }
}
