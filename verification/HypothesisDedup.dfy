/**
 * _deduplicate_hypotheses of scripts/hypothesis_discovery.py: greedy clustering by entity
 * overlap with the first member of each cluster, and the strongest member of each cluster.
 */
module HypothesisDedup {

  datatype Hypothesis = Hypothesis(name: string, entities: set<string>, strength: real)

  type ClusterSeq = seq<Hypothesis>

  /** Both have entities, and more than half of all their entities are shared. */
  ghost predicate Overlaps(a: Hypothesis, b: Hypothesis) {
    a.entities != {} && b.entities != {} && 2 * |a.entities * b.entities| > |a.entities + b.entities|
  }

  ghost function Flatten(clusters: seq<ClusterSeq>): multiset<Hypothesis> {
    if clusters == [] then multiset{}
    else Flatten(clusters[..|clusters| - 1]) + multiset(clusters[|clusters| - 1])
  }

  /** Leaders do not overlap each other, and every other member overlaps the leader of its cluster. */
  ghost predicate Clustered(clusters: seq<ClusterSeq>) {
    && (forall i :: 0 <= i < |clusters| ==> clusters[i] != [])
    && (forall i, j :: 0 <= i < j < |clusters| ==> !Overlaps(clusters[j][0], clusters[i][0]))
    && (forall i, k :: 0 <= i < |clusters| && 0 < k < |clusters[i]| ==> Overlaps(clusters[i][k], clusters[i][0]))
  }

  lemma {:induction false} FlattenUpdate(clusters: seq<ClusterSeq>, i: nat, h: Hypothesis)
    requires i < |clusters|
    ensures Flatten(clusters[i := clusters[i] + [h]]) == Flatten(clusters) + multiset{h}
  {
    var n := |clusters| - 1;
    var after := clusters[i := clusters[i] + [h]];
    if i == n {
      assert after[..n] == clusters[..n];
    } else {
      FlattenUpdate(clusters[..n], i, h);
      assert after[..n] == clusters[..n][i := clusters[..n][i] + [h]];
    }
  }

  /** The first hypothesis with the greatest strength, as max(key=...) returns it. */
  method Strongest(cluster: ClusterSeq) returns (best: Hypothesis)
    requires cluster != []
    ensures IsStrongest(best, cluster)
  {
    var m := 0;
    for i := 1 to |cluster|
      invariant m < i
      invariant forall k :: 0 <= k < i ==> cluster[k].strength <= cluster[m].strength
      invariant forall k :: 0 <= k < m ==> cluster[k].strength < cluster[m].strength
    {
      if cluster[m].strength < cluster[i].strength {
        m := i;
      }
    }
    best := cluster[m];
  }

  lemma JoinCluster(clusters: seq<ClusterSeq>, i: nat, h: Hypothesis)
    requires Clustered(clusters) && i < |clusters| && Overlaps(h, clusters[i][0])
    ensures Clustered(clusters[i := clusters[i] + [h]])
  {
    hide Overlaps;
    var after := clusters[i := clusters[i] + [h]];
    forall j | 0 <= j < |after| ensures after[j] != [] && after[j][0] == clusters[j][0] {
    }
  }

  lemma OpenCluster(clusters: seq<ClusterSeq>, h: Hypothesis)
    requires Clustered(clusters) && forall j :: 0 <= j < |clusters| ==> !Overlaps(h, clusters[j][0])
    ensures Clustered(clusters + [[h]])
  {
    hide Overlaps;
    var after := clusters + [[h]];
    forall i, k | 0 <= i < |after| && 0 < k < |after[i]| ensures Overlaps(after[i][k], after[i][0]) {
      assert i < |clusters| && after[i] == clusters[i];
    }
  }

  lemma FlattenSnoc(clusters: seq<ClusterSeq>, c: ClusterSeq)
    ensures Flatten(clusters + [c]) == Flatten(clusters) + multiset(c)
  {
    assert (clusters + [c])[..|clusters|] == clusters;
  }

  /** Where first fit puts h: the first cluster whose leader it overlaps, or a new cluster. */
  ghost predicate FirstFit(before: seq<ClusterSeq>, h: Hypothesis, after: seq<ClusterSeq>)
    requires Clustered(before)
  {
    (exists i :: 0 <= i < |before| && Overlaps(h, before[i][0]) && after == before[i := before[i] + [h]]
                 && forall j :: 0 <= j < i ==> !Overlaps(h, before[j][0]))
    || (after == before + [[h]] && forall j :: 0 <= j < |before| ==> !Overlaps(h, before[j][0]))
  }

  method Place(clusters: seq<ClusterSeq>, h: Hypothesis) returns (r: seq<ClusterSeq>)
    requires Clustered(clusters)
    ensures FirstFit(clusters, h, r)
  {
    for i := 0 to |clusters|
      invariant forall j :: 0 <= j < i ==> !Overlaps(h, clusters[j][0])
    {
      var lead := clusters[i][0].entities;
      if h.entities != {} && lead != {} && 2 * |h.entities * lead| > |h.entities + lead| {
        r := clusters[i := clusters[i] + [h]];
        return;
      }
    }
    r := clusters + [[h]];
  }

  /** First fit, one hypothesis after another, ends with these clusters. */
  ghost predicate FirstFitRun(hypotheses: seq<Hypothesis>, clusters: seq<ClusterSeq>) {
    if hypotheses == [] then clusters == []
    else exists before ::
      && FirstFitRun(hypotheses[..|hypotheses| - 1], before) && Clustered(before)
      && FirstFit(before, hypotheses[|hypotheses| - 1], clusters)
  }

  /** The kept hypothesis is the first of the strongest members of its cluster. */
  ghost predicate IsStrongest(h: Hypothesis, cluster: ClusterSeq) {
    exists m :: 0 <= m < |cluster| && cluster[m] == h
      && (forall k :: 0 <= k < m ==> cluster[k].strength < h.strength)
      && (forall k :: m <= k < |cluster| ==> cluster[k].strength <= h.strength)
  }

  /** One strongest member of each cluster, in the order of the clusters. */
  ghost predicate Represents(kept: seq<Hypothesis>, clusters: seq<ClusterSeq>) {
    |kept| == |clusters| && forall i :: 0 <= i < |kept| ==> IsStrongest(kept[i], clusters[i])
  }

  /** _deduplicate_hypotheses: one strongest member of each first-fit cluster is kept. */
  method Deduplicate(hypotheses: seq<Hypothesis>) returns (kept: seq<Hypothesis>)
    ensures exists clusters :: FirstFitRun(hypotheses, clusters) && Represents(kept, clusters)
  {
    hide Flatten, Overlaps, IsStrongest;
    var clusters := FirstFitClusters(hypotheses);
    kept := [];
    for i := 0 to |clusters|
      invariant |kept| == i && forall k :: 0 <= k < i ==> IsStrongest(kept[k], clusters[k])
    {
      var best := Strongest(clusters[i]);
      kept := kept + [best];
    }
    assert Represents(kept, clusters);
  }

  lemma PreviousRun(hypotheses: seq<Hypothesis>, clusters: seq<ClusterSeq>) returns (before: seq<ClusterSeq>)
    requires hypotheses != [] && FirstFitRun(hypotheses, clusters)
    ensures FirstFitRun(hypotheses[..|hypotheses| - 1], before) && Clustered(before)
    ensures FirstFit(before, hypotheses[|hypotheses| - 1], clusters)
  {
    hide Clustered, FirstFit;
    before :|
      && FirstFitRun(hypotheses[..|hypotheses| - 1], before) && Clustered(before)
      && FirstFit(before, hypotheses[|hypotheses| - 1], clusters);
  }

  /** The clusters of first fit partition the input. */
  lemma {:induction false} RunPartitions(hypotheses: seq<Hypothesis>, clusters: seq<ClusterSeq>)
    requires FirstFitRun(hypotheses, clusters)
    ensures Clustered(clusters) && Flatten(clusters) == multiset(hypotheses)
    decreases |hypotheses|
  {
    if hypotheses == [] {
      NoClusters();
    } else {
      hide *;
      var before := PreviousRun(hypotheses, clusters);
      RunPartitions(hypotheses[..|hypotheses| - 1], before);
      FitPartitions(before, hypotheses[|hypotheses| - 1], clusters);
      MultisetSnoc(hypotheses);
    }
  }

  lemma MultisetSnoc(s: seq<Hypothesis>)
    requires s != []
    ensures multiset(s) == multiset(s[..|s| - 1]) + multiset{s[|s| - 1]}
  {
    assert s == s[..|s| - 1] + [s[|s| - 1]];
  }

  lemma FitPartitions(before: seq<ClusterSeq>, h: Hypothesis, after: seq<ClusterSeq>)
    requires Clustered(before) && FirstFit(before, h, after)
    ensures Clustered(after) && Flatten(after) == Flatten(before) + multiset{h}
  {
    hide Flatten, Overlaps;
    if i :| 0 <= i < |before| && Overlaps(h, before[i][0]) && after == before[i := before[i] + [h]] {
      FlattenUpdate(before, i, h);
      JoinCluster(before, i, h);
    } else {
      OpenCluster(before, h);
      FlattenSnoc(before, [h]);
    }
  }

  /** First fit leaves no choice: the input determines the clusters. */
  lemma {:induction false} RunUnique(hypotheses: seq<Hypothesis>, a: seq<ClusterSeq>, b: seq<ClusterSeq>)
    requires FirstFitRun(hypotheses, a) && FirstFitRun(hypotheses, b)
    ensures a == b
    decreases |hypotheses|
  {
    if hypotheses != [] {
      hide Clustered, FirstFit;
      var x := PreviousRun(hypotheses, a);
      var y := PreviousRun(hypotheses, b);
      RunUnique(hypotheses[..|hypotheses| - 1], x, y);
      FitUnique(x, hypotheses[|hypotheses| - 1], a, b);
    }
  }

  lemma FitUnique(before: seq<ClusterSeq>, h: Hypothesis, a: seq<ClusterSeq>, b: seq<ClusterSeq>)
    requires Clustered(before) && FirstFit(before, h, a) && FirstFit(before, h, b)
    ensures a == b
  {
    hide Overlaps;
  }

  method FirstFitClusters(hypotheses: seq<Hypothesis>) returns (found: seq<ClusterSeq>)
    ensures FirstFitRun(hypotheses, found) && Clustered(found)
  {
    hide Clustered, Overlaps, FirstFit;
    found := [];
    NoClusters();
    assert hypotheses[..0] == [];
    for i := 0 to |hypotheses|
      invariant FirstFitRun(hypotheses[..i], found) && Clustered(found)
    {
      assert hypotheses[..i + 1][..i] == hypotheses[..i];
      found := Place(found, hypotheses[i]);
      assert FirstFitRun(hypotheses[..i + 1], found);
      RunPartitions(hypotheses[..i + 1], found);
    }
    assert hypotheses[..|hypotheses|] == hypotheses;
  }

  lemma NoClusters()
    ensures Clustered([]) && Flatten([]) == multiset{}
  {
  }

  // ----- What sharing a cluster means -----

  /** A hypothesis that overlaps the leader holds more than half of the leader's entities. */
  lemma OverlapHoldsHalf(a: set<string>, l: set<string>)
    requires 2 * |a * l| > |a + l|
    ensures 2 * |a * l| > |l|
  {
    SubsetCardinality(l, a + l);
  }

  lemma {:induction false} SubsetCardinality(s: set<string>, t: set<string>)
    requires s <= t
    ensures |s| <= |t|
  {
    if s != {} {
      var x :| x in s;
      SubsetCardinality(s - {x}, t - {x});
    }
  }

  lemma UnionCardinality(s: set<string>, t: set<string>)
    ensures |s + t| + |s * t| == |s| + |t|
  {
    assert s + t == (s - t) + t;
    assert s == (s - t) + (s * t);
  }

  /** Every later member of a cluster shares more than half of all their entities with its leader. */
  lemma {:induction false} MembersNearLeader(hypotheses: seq<Hypothesis>, clusters: seq<ClusterSeq>, i: nat, k: nat)
    requires FirstFitRun(hypotheses, clusters) && i < |clusters| && 0 < k < |clusters[i]|
    ensures var a, l := clusters[i][k].entities, clusters[i][0].entities;
      a != {} && l != {} && 2 * |a * l| > |a + l|
  {
    RunPartitions(hypotheses, clusters);
    assert Overlaps(clusters[i][k], clusters[i][0]);
  }

  /** The kept hypotheses are members of their clusters, and no member of its cluster is stronger. */
  lemma KeptAreStrongest(kept: seq<Hypothesis>, clusters: seq<ClusterSeq>, i: nat, h: Hypothesis)
    requires Represents(kept, clusters) && i < |clusters| && h in clusters[i]
    ensures |kept| == |clusters| && kept[i] in clusters[i] && h.strength <= kept[i].strength
  {
    assert IsStrongest(kept[i], clusters[i]);
  }

  /** Of several strongest members the first is kept, so that the input determines the result. */
  lemma KeptUnique(hypotheses: seq<Hypothesis>, a: seq<ClusterSeq>, x: seq<Hypothesis>, b: seq<ClusterSeq>, y: seq<Hypothesis>)
    requires FirstFitRun(hypotheses, a) && Represents(x, a)
    requires FirstFitRun(hypotheses, b) && Represents(y, b)
    ensures x == y
  {
    hide FirstFitRun;
    RunUnique(hypotheses, a, b);
    forall i | 0 <= i < |x| ensures x[i] == y[i] {
      assert IsStrongest(x[i], a[i]) && IsStrongest(y[i], a[i]);
    }
  }

  /** Any two members of a cluster with several members share an entity. */
  lemma MembersShareEntity(clusters: seq<ClusterSeq>, i: nat, j: nat, k: nat)
    requires Clustered(clusters) && i < |clusters| && j < k < |clusters[i]|
    ensures clusters[i][j].entities * clusters[i][k].entities != {}
  {
    var a, b, l := clusters[i][j].entities, clusters[i][k].entities, clusters[i][0].entities;
    assert Overlaps(clusters[i][k], clusters[i][0]);
    OverlapHoldsHalf(b, l);
    if j > 0 {
      assert Overlaps(clusters[i][j], clusters[i][0]);
      OverlapHoldsHalf(a, l);
      HalvesMeet(a, b, l);
    } else {
      assert a * b == b * l;
    }
  }

  /** Two sets that each hold more than half of a third one meet. */
  lemma HalvesMeet(a: set<string>, b: set<string>, l: set<string>)
    requires 2 * |a * l| > |l| && 2 * |b * l| > |l|
    ensures a * b != {}
  {
    UnionCardinality(a * l, b * l);
    SubsetCardinality(a * l + b * l, l);
    var x :| x in (a * l) * (b * l);
    assert x in a * b;
  }

  /** Non-empty leaders share at most half of their entities (Jaccard at most 1/2). */
  lemma LeadersApart(clusters: seq<ClusterSeq>, i: nat, j: nat)
    requires Clustered(clusters) && i < j < |clusters|
    requires clusters[i][0].entities != {} && clusters[j][0].entities != {}
    ensures var a, b := clusters[i][0].entities, clusters[j][0].entities;
      2 * |a * b| <= |a + b|
  {
    var a, b := clusters[i][0].entities, clusters[j][0].entities;
    assert !Overlaps(clusters[j][0], clusters[i][0]);
    assert a * b == b * a && a + b == b + a;
  }
}
