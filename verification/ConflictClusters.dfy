/**
 * cluster_advanced of scripts/conflict_cluster.py: conflicts grouped by type, and what the
 * clusters of detected conflicts mean for the hot zones of run_convergence.
 */
module ConflictClusters {
  import opened ConflictDetection
  import opened ConvergenceLoop
  import opened Reals

  // ----- The type of a conflict -----

  /** The conflict_type that detect_conflicts writes for each of its two rules. */
  function Label(c: Conflict): string {
    match c.kind
    case SamePredicate => c.a.predicate_
    case AntonymPredicates => "antonym:" + c.a.predicate_ + "\U{2194}" + c.b.predicate_
  }

  /** s.split(":")[0]. */
  function UpToColon(s: string): string {
    if s == [] || s[0] == ':' then [] else [s[0]] + UpToColon(s[1..])
  }

  function TypeOf(c: Conflict): string {
    UpToColon(Label(c))
  }

  /** The type ends where the label has its first colon, or is the whole label. */
  lemma {:induction false} UpToColonIff(s: string, t: string)
    ensures UpToColon(s) == t <==> t <= s && ':' !in t && (|t| == |s| || s[|t|] == ':')
  {
    if s != [] && s[0] != ':' {
      if t != [] {
        UpToColonIff(s[1..], t[1..]);
        assert t == [t[0]] + t[1..];
        assert t <= s <==> t[0] == s[0] && t[1..] <= s[1..];
      }
    }
  }

  /**
   * Which conflicts share a type: all conflicts of antonyms do, and, as long as predicates
   * hold no colon, conflicts on one predicate exactly if they are on the same one.
   */
  lemma SharedTypeIff(c: Conflict, d: Conflict)
    requires ':' !in c.a.predicate_ && ':' !in d.a.predicate_
    ensures TypeOf(c) == TypeOf(d) <==>
      (if c.kind.AntonymPredicates? then "antonym" else c.a.predicate_) == (if d.kind.AntonymPredicates? then "antonym" else d.a.predicate_)
  {
    TypeIs(c);
    TypeIs(d);
  }

  lemma TypeIs(c: Conflict)
    ensures c.kind.AntonymPredicates? ==> TypeOf(c) == "antonym"
    ensures c.kind.SamePredicate? && ':' !in c.a.predicate_ ==> TypeOf(c) == c.a.predicate_
  {
    if c.kind.AntonymPredicates? {
      UpToColonIff(Label(c), "antonym");
      assert Label(c)[..7] == "antonym" && Label(c)[7] == ':';
    } else {
      UpToColonIff(Label(c), c.a.predicate_);
    }
  }

  // ----- What a cluster is computed from -----

  /** The columns that detect_conflicts selects. */
  const SELECTED: set<string> := {"id", "doc_id", "subject", "predicate", "object", "lens", "confidence"}

  /**
   * The database beyond the selected rows: the summed support counts of a set of subjects,
   * and the number of assumptions stored with a claim. A row has the given columns.
   */
  datatype Store = Store(support: set<string> -> nat, assumptions: nat -> nat, columns: set<string>)

  /** len(json.loads(row.get("assumptions", "[]"))). */
  ghost function AssumptionCount(store: Store, row: Claim): nat {
    if "assumptions" in store.columns then store.assumptions(row.id) else 0
  }

  ghost function StrengthSum(group: seq<Conflict>): real {
    if group == [] then 0.0 else StrengthSum(group[..|group| - 1]) + group[|group| - 1].strength
  }

  ghost function AssumptionSum(store: Store, group: seq<Conflict>): nat {
    if group == [] then 0
    else
      var c := group[|group| - 1];
      AssumptionSum(store, group[..|group| - 1]) + AssumptionCount(store, c.a) + AssumptionCount(store, c.b)
  }

  ghost function Subjects(group: seq<Conflict>): set<string> {
    set c | c in group :: c.a.subject
  }

  ghost function Lenses(group: seq<Conflict>): set<string> {
    (set c | c in group :: c.a.lens) + (set c | c in group :: c.b.lens)
  }

  ghost function AtLeastOne(n: nat): real {
    if n >= 1 then n as real else 1.0
  }

  ghost function ClusterOf(t: string, group: seq<Conflict>, store: Store): Cluster
    requires group != []
  {
    var n := |group| as real;
    var average := StrengthSum(group) / n;
    var fragility := AssumptionSum(store, group) as real / n / 5.0;
    Cluster(t, |group|, |Lenses(group)|, n * average / AtLeastOne(store.support(Subjects(group))),
            if fragility <= 1.0 then fragility else 1.0)
  }

  /** The body of the loop over the groups. */
  method Summarise(t: string, group: seq<Conflict>, store: Store) returns (c: Cluster)
    requires group != []
    ensures c == ClusterOf(t, group, store)
  {
    var strength, assumptions: nat := 0.0, 0;
    var subjects: set<string>, lenses: set<string> := {}, {};
    for i := 0 to |group|
      invariant strength == StrengthSum(group[..i]) && assumptions == AssumptionSum(store, group[..i])
      invariant subjects == Subjects(group[..i]) && lenses == Lenses(group[..i])
    {
      var a, b := group[i].a, group[i].b;
      SummaryStep(store, group, i);
      subjects := subjects + {a.subject};
      lenses := lenses + {a.lens} + {b.lens};
      strength := strength + group[i].strength;
      if "assumptions" in store.columns {
        assumptions := assumptions + store.assumptions(a.id) + store.assumptions(b.id);
      }
    }
    assert group[..|group|] == group;
    var n := |group| as real;
    var support := store.support(subjects);
    var pressure := n * (strength / n) / (if support >= 1 then support as real else 1.0);
    var fragility := assumptions as real / n / 5.0;
    c := Cluster(t, |group|, |lenses|, pressure, if fragility <= 1.0 then fragility else 1.0);
  }

  lemma SummaryStep(store: Store, group: seq<Conflict>, i: nat)
    requires i < |group|
    ensures var x, now, next := group[i], group[..i], group[..i + 1];
      && StrengthSum(next) == StrengthSum(now) + x.strength
      && AssumptionSum(store, next) == AssumptionSum(store, now) + AssumptionCount(store, x.a) + AssumptionCount(store, x.b)
      && Subjects(next) == Subjects(now) + {x.a.subject}
      && Lenses(next) == Lenses(now) + {x.a.lens} + {x.b.lens}
  {
    var now, next := group[..i], group[..i + 1];
    assert next[..i] == now && next == now + [group[i]];
    assert forall c :: c in next <==> c in now || c == group[i];
  }

  // ----- Order -----

  ghost predicate ByPressure(cs: Clusters) {
    forall i, j :: 0 <= i < j < |cs| ==> cs[i].pressure >= cs[j].pressure
  }

  /** list.sort by falling pressure, as a stable insertion. */
  function InsertByPressure(cs: Clusters, c: Cluster): Clusters {
    if cs == [] || cs[|cs| - 1].pressure >= c.pressure then cs + [c]
    else InsertByPressure(cs[..|cs| - 1], c) + [cs[|cs| - 1]]
  }

  ghost function Total(cs: Clusters): nat {
    if cs == [] then 0 else Total(cs[..|cs| - 1]) + cs[|cs| - 1].nConflicts
  }

  lemma TotalSnoc(cs: Clusters, c: Cluster)
    ensures Total(cs + [c]) == Total(cs) + c.nConflicts
  {
    assert (cs + [c])[..|cs|] == cs;
  }

  lemma {:induction false} InsertMembers(cs: Clusters, c: Cluster)
    ensures forall x :: x in InsertByPressure(cs, c) <==> x in cs || x == c
    ensures Total(InsertByPressure(cs, c)) == Total(cs) + c.nConflicts
  {
    if cs == [] || cs[|cs| - 1].pressure >= c.pressure {
      TotalSnoc(cs, c);
    } else {
      var init, last := cs[..|cs| - 1], cs[|cs| - 1];
      InsertMembers(init, c);
      TotalSnoc(InsertByPressure(init, c), last);
      assert cs == init + [last];
    }
  }

  lemma AppendLeast(cs: Clusters, last: Cluster)
    requires ByPressure(cs) && DistinctTypes(cs)
    requires forall x :: x in cs ==> x.pressure >= last.pressure && x.clusterType != last.clusterType
    ensures ByPressure(cs + [last]) && DistinctTypes(cs + [last])
  {
    assert forall i :: 0 <= i < |cs| ==> cs[i] in cs;
  }

  lemma AllAbove(cs: Clusters, c: Cluster)
    requires ByPressure(cs) && (cs == [] || cs[|cs| - 1].pressure >= c.pressure)
    ensures forall x :: x in cs ==> x.pressure >= c.pressure
  {
    forall i | 0 <= i < |cs| ensures cs[i].pressure >= c.pressure {
      assert i < |cs| - 1 ==> cs[i].pressure >= cs[|cs| - 1].pressure;
    }
  }

  lemma LastIsLeast(cs: Clusters)
    requires cs != [] && ByPressure(cs) && DistinctTypes(cs)
    ensures var init, last := cs[..|cs| - 1], cs[|cs| - 1];
      && ByPressure(init) && DistinctTypes(init)
      && forall x :: x in init ==> x in cs && x.pressure >= last.pressure && x.clusterType != last.clusterType
  {
  }

  lemma {:induction false} InsertSorts(cs: Clusters, c: Cluster)
    requires ByPressure(cs) && DistinctTypes(cs) && forall x :: x in cs ==> x.clusterType != c.clusterType
    ensures ByPressure(InsertByPressure(cs, c)) && DistinctTypes(InsertByPressure(cs, c))
  {
    if cs == [] || cs[|cs| - 1].pressure >= c.pressure {
      AllAbove(cs, c);
      AppendLeast(cs, c);
    } else {
      hide ByPressure, DistinctTypes;
      var init, last := cs[..|cs| - 1], cs[|cs| - 1];
      LastIsLeast(cs);
      assert last in cs;
      InsertSorts(init, c);
      InsertMembers(init, c);
      AppendLeast(InsertByPressure(init, c), last);
    }
  }

  // ----- cluster_advanced -----

  ghost function GroupFor(conflicts: seq<Conflict>, t: string): seq<Conflict> {
    Members(conflicts, TypeOf, t)
  }

  /** The conflicts whose type is one of the given. */
  ghost function CountIn(conflicts: seq<Conflict>, types: set<string>): nat {
    if conflicts == [] then 0
    else CountIn(conflicts[..|conflicts| - 1], types) + if TypeOf(conflicts[|conflicts| - 1]) in types then 1 else 0
  }

  lemma {:induction false} CountOneMore(conflicts: seq<Conflict>, types: set<string>, t: string)
    requires t !in types
    ensures CountIn(conflicts, types + {t}) == CountIn(conflicts, types) + |GroupFor(conflicts, t)|
  {
    if conflicts != [] {
      CountOneMore(conflicts[..|conflicts| - 1], types, t);
    }
  }

  /** Every cluster is computed from the conflicts of its type, which are enough. */
  ghost predicate FromGroups(clusters: Clusters, conflicts: seq<Conflict>, minConflicts: nat, store: Store, types: set<string>) {
    forall c :: c in clusters ==>
      var group := GroupFor(conflicts, c.clusterType);
      c.clusterType in types && group != [] && |group| >= minConflicts && c == ClusterOf(c.clusterType, group, store)
  }

  ghost predicate HasType(clusters: Clusters, t: string) {
    exists c :: c in clusters && c.clusterType == t
  }

  /** Every type with enough conflicts has a cluster. */
  ghost predicate LargeCovered(clusters: Clusters, conflicts: seq<Conflict>, minConflicts: nat, types: set<string>) {
    forall t :: t in types && |GroupFor(conflicts, t)| >= minConflicts ==> HasType(clusters, t)
  }

  /** The clusters of the types handled so far: one for each that has enough conflicts. */
  ghost predicate Clustered(clusters: Clusters, conflicts: seq<Conflict>, minConflicts: nat, store: Store, types: set<string>) {
    && DistinctTypes(clusters) && ByPressure(clusters)
    && FromGroups(clusters, conflicts, minConflicts, store, types)
    && LargeCovered(clusters, conflicts, minConflicts, types)
  }

  ghost function LargeTypes(conflicts: seq<Conflict>, minConflicts: nat, types: set<string>): set<string> {
    set t | t in types && |GroupFor(conflicts, t)| >= minConflicts
  }

  ghost function AllTypes(conflicts: seq<Conflict>): set<string> {
    set c | c in conflicts :: TypeOf(c)
  }

  /**
   * The clusters are those of the types with enough conflicts, by falling pressure, and
   * together they hold every conflict of such a type once.
   */
  method ClusterAdvanced(conflicts: seq<Conflict>, minConflicts: nat, store: Store) returns (clusters: Clusters)
    ensures |conflicts| < minConflicts ==> clusters == []
    ensures Clustered(clusters, conflicts, minConflicts, store, AllTypes(conflicts))
    ensures Total(clusters) == CountIn(conflicts, LargeTypes(conflicts, minConflicts, AllTypes(conflicts)))
  {
    hide Members, ClusterOf, Clustered, LargeTypes, CountIn, Total, GroupFor, AllTypes;
    clusters := [];
    if |conflicts| < minConflicts {
      SmallGroups(conflicts, minConflicts, store);
      return;
    }
    var groups := GroupBy(conflicts, TypeOf);
    var todo := groups.Keys;
    ghost var types: set<string> := {};
    NoTypes(conflicts, minConflicts, store);
    while todo != {}
      invariant types == groups.Keys - todo && todo <= groups.Keys
      invariant Clustered(clusters, conflicts, minConflicts, store, types)
      invariant Total(clusters) == CountIn(conflicts, LargeTypes(conflicts, minConflicts, types))
      decreases |todo|
    {
      var t :| t in todo;
      todo := todo - {t};
      KeyOfGroup(groups, conflicts, t);
      if |groups[t]| >= minConflicts {
        var c := Summarise(t, groups[t], store);
        ClusterAdded(clusters, conflicts, minConflicts, store, types, t, c);
        ConflictsAdded(clusters, conflicts, minConflicts, store, types, t, c);
        clusters := InsertByPressure(clusters, c);
      } else {
        TypeSkipped(clusters, conflicts, minConflicts, store, types, t);
      }
      types := types + {t};
    }
    assert types == groups.Keys;
    KeysAreTypes(groups, conflicts);
  }

  lemma {:induction false} NothingCounted(conflicts: seq<Conflict>)
    ensures CountIn(conflicts, {}) == 0
  {
    if conflicts != [] {
      NothingCounted(conflicts[..|conflicts| - 1]);
    }
  }

  lemma NoTypes(conflicts: seq<Conflict>, minConflicts: nat, store: Store)
    ensures CountIn(conflicts, LargeTypes(conflicts, minConflicts, {})) == 0 && Total([]) == 0
    ensures Clustered([], conflicts, minConflicts, store, {})
  {
    NothingCounted(conflicts);
    assert LargeTypes(conflicts, minConflicts, {}) == {};
  }

  lemma {:induction false} GroupFits(conflicts: seq<Conflict>, t: string)
    ensures |GroupFor(conflicts, t)| <= |conflicts|
  {
    if conflicts != [] {
      GroupFits(conflicts[..|conflicts| - 1], t);
    }
  }

  lemma SmallGroups(conflicts: seq<Conflict>, minConflicts: nat, store: Store)
    requires |conflicts| < minConflicts
    ensures Clustered([], conflicts, minConflicts, store, AllTypes(conflicts))
    ensures CountIn(conflicts, LargeTypes(conflicts, minConflicts, AllTypes(conflicts))) == 0 && Total([]) == 0
  {
    hide Members;
    forall t ensures |GroupFor(conflicts, t)| < minConflicts {
      GroupFits(conflicts, t);
    }
    NothingCounted(conflicts);
    assert LargeTypes(conflicts, minConflicts, AllTypes(conflicts)) == {};
  }

  lemma KeyOfGroup(groups: map<string, seq<Conflict>>, conflicts: seq<Conflict>, t: string)
    requires Grouped(groups, conflicts, TypeOf) && t in groups
    ensures groups[t] == GroupFor(conflicts, t)
  {
    hide Members;
  }

  lemma KeysAreTypes(groups: map<string, seq<Conflict>>, conflicts: seq<Conflict>)
    requires Grouped(groups, conflicts, TypeOf)
    requires forall c :: c in conflicts ==> TypeOf(c) in groups
    requires forall t :: t in groups ==> groups[t] != []
    ensures groups.Keys == AllTypes(conflicts)
  {
    hide Members;
    forall t | t in groups ensures t in AllTypes(conflicts) {
      KeyOfGroup(groups, conflicts, t);
      MembersExact(conflicts, TypeOf, t);
      assert groups[t][0] in conflicts && TypeOf(groups[t][0]) == t;
    }
  }

  lemma ClusterAdded(clusters: Clusters, conflicts: seq<Conflict>, minConflicts: nat, store: Store, types: set<string>,
                     t: string, c: Cluster)
    requires Clustered(clusters, conflicts, minConflicts, store, types) && t !in types
    requires var group := GroupFor(conflicts, t);
      group != [] && |group| >= minConflicts && c == ClusterOf(t, group, store)
    ensures Clustered(InsertByPressure(clusters, c), conflicts, minConflicts, store, types + {t})
  {
    ClusterShape(t, GroupFor(conflicts, t), store);
    hide GroupFor, ClusterOf, DistinctTypes, ByPressure, InsertByPressure, Total, LargeCovered;
    InsertMembers(clusters, c);
    InsertSorts(clusters, c);
    CoveredStep(clusters, InsertByPressure(clusters, c), conflicts, minConflicts, types, t);
  }

  lemma CoveredStep(clusters: Clusters, after: Clusters, conflicts: seq<Conflict>, minConflicts: nat, types: set<string>, t: string)
    requires LargeCovered(clusters, conflicts, minConflicts, types)
    requires forall c :: c in clusters ==> c in after
    requires |GroupFor(conflicts, t)| >= minConflicts ==> HasType(after, t)
    ensures LargeCovered(after, conflicts, minConflicts, types + {t})
  {
    hide GroupFor;
    forall u | u in types + {t} && |GroupFor(conflicts, u)| >= minConflicts ensures HasType(after, u) {
      if u != t {
        assert HasType(clusters, u);
      }
    }
  }

  lemma ConflictsAdded(clusters: Clusters, conflicts: seq<Conflict>, minConflicts: nat, store: Store, types: set<string>,
                       t: string, c: Cluster)
    requires t !in types && Total(clusters) == CountIn(conflicts, LargeTypes(conflicts, minConflicts, types))
    requires var group := GroupFor(conflicts, t);
      group != [] && |group| >= minConflicts && c == ClusterOf(t, group, store)
    ensures Total(InsertByPressure(clusters, c)) == CountIn(conflicts, LargeTypes(conflicts, minConflicts, types + {t}))
  {
    ClusterShape(t, GroupFor(conflicts, t), store);
    hide Members, GroupFor, ClusterOf, CountIn, InsertByPressure, Total;
    InsertMembers(clusters, c);
    CountOneMore(conflicts, LargeTypes(conflicts, minConflicts, types), t);
    assert LargeTypes(conflicts, minConflicts, types + {t}) == LargeTypes(conflicts, minConflicts, types) + {t};
  }

  lemma TypeSkipped(clusters: Clusters, conflicts: seq<Conflict>, minConflicts: nat, store: Store, types: set<string>, t: string)
    requires |GroupFor(conflicts, t)| < minConflicts && Clustered(clusters, conflicts, minConflicts, store, types)
    ensures LargeTypes(conflicts, minConflicts, types + {t}) == LargeTypes(conflicts, minConflicts, types)
    ensures Clustered(clusters, conflicts, minConflicts, store, types + {t})
  {
    hide Members, ClusterOf, GroupFor, DistinctTypes, ByPressure, LargeCovered;
    CoveredStep(clusters, clusters, conflicts, minConflicts, types, t);
  }

  lemma ClusterShape(t: string, group: seq<Conflict>, store: Store)
    requires group != []
    ensures var c := ClusterOf(t, group, store);
      c.clusterType == t && c.nConflicts == |group|
  {
  }

  // ----- What clusters mean for the hot zones -----

  /** The pressure of a cluster is the sum of its strengths over the support of its subjects. */
  lemma {:induction false} PressureMeaning(t: string, group: seq<Conflict>, store: Store)
    requires group != []
    ensures ClusterOf(t, group, store).pressure == StrengthSum(group) / AtLeastOne(store.support(Subjects(group)))
  {
    assert |group| as real * (StrengthSum(group) / |group| as real) == StrengthSum(group);
  }

  lemma {:induction false} StrengthNonNegative(group: seq<Conflict>)
    requires forall c :: c in group ==> c.strength >= 0.0
    ensures StrengthSum(group) >= 0.0
  {
    if group != [] {
      StrengthNonNegative(group[..|group| - 1]);
    }
  }

  /** Conflicts of non-negative strength give the loop of run_convergence what it needs. */
  lemma ClustersFit(clusters: Clusters, conflicts: seq<Conflict>, minConflicts: nat, store: Store, types: set<string>)
    requires Clustered(clusters, conflicts, minConflicts, store, types)
    requires forall c :: c in conflicts ==> c.strength >= 0.0
    ensures DistinctTypes(clusters) && NonNegative(clusters)
  {
    hide Members, ClusterOf;
    forall i | 0 <= i < |clusters| ensures clusters[i].pressure >= 0.0 {
      var t := clusters[i].clusterType;
      var group := GroupFor(conflicts, t);
      assert clusters[i] in clusters;
      MembersExact(conflicts, TypeOf, t);
      StrengthNonNegative(group);
      PressureMeaning(t, group, store);
      QuotientNonNegative(StrengthSum(group), AtLeastOne(store.support(Subjects(group))));
    }
  }

  lemma {:induction false} NoAssumptionsSeen(store: Store, group: seq<Conflict>)
    requires "assumptions" !in store.columns
    ensures AssumptionSum(store, group) == 0
  {
    if group != [] {
      NoAssumptionsSeen(store, group[..|group| - 1]);
    }
  }

  /**
   * The query of detect_conflicts does not select the assumptions of a claim. Without that
   * column every cluster has fragility 0, and none is hot for a threshold of at least 0.
   */
  lemma NeverHot(clusters: Clusters, conflicts: seq<Conflict>, minConflicts: nat, store: Store, types: set<string>,
                 c: Cluster, pressure: real, conflictCount: nat, lenses: nat, fragility: real)
    requires Clustered(clusters, conflicts, minConflicts, store, types) && "assumptions" !in store.columns
    requires c in clusters && fragility >= 0.0
    ensures c.fragility == 0.0 && !IsHot(c, pressure, conflictCount, lenses, fragility)
  {
    hide Members;
    NoAssumptionsSeen(store, GroupFor(conflicts, c.clusterType));
  }

  /** With the column, a cluster is more fragile than 1/2 exactly if its conflicts average more than 5/2 assumptions. */
  lemma FragileIff(t: string, group: seq<Conflict>, store: Store)
    requires group != []
    ensures ClusterOf(t, group, store).fragility > 0.5 <==> 2 * AssumptionSum(store, group) > 5 * |group|
  {
    hide AssumptionSum, StrengthSum, Lenses, Subjects;
    var n, a := |group|, AssumptionSum(store, group);
    var q := a as real / n as real;
    AverageAbove(a, n, q);
    assert ClusterOf(t, group, store).fragility == if q / 5.0 <= 1.0 then q / 5.0 else 1.0;
  }

  lemma AverageAbove(a: nat, n: nat, q: real)
    requires n > 0 && q == a as real / n as real
    ensures q <= 2.5 <==> 2 * a <= 5 * n
  {
    ScaleOrder(q, 2.5, n as real);
    assert q * n as real == a as real;
  }

  lemma {:induction false} NoneHot(clusters: Clusters, threshold: real)
    requires forall c :: c in clusters ==> !IsHot(c, threshold, 2, 1, 0.5)
    ensures HotZones(clusters, threshold) == []
  {
    if clusters != [] {
      NoneHot(clusters[..|clusters| - 1], threshold);
    }
  }

  lemma StrengthsKnown(norm: Normaliser, antonyms: Antonyms, rows: seq<Claim>, conflicts: seq<Conflict>)
    requires forall c :: c in conflicts ==> Sound(norm, antonyms, rows, c)
    requires forall r :: r in rows ==> r.confidence >= 0.0
    ensures forall c :: c in conflicts ==> c.strength >= 0.0
  {
    hide InConflict, Contradicts, IsAntonym;
  }

  /**
   * From the claims of the initial pass to the report: detect_conflicts, cluster_advanced
   * and the loop of run_convergence. Whatever the claims are, no zone is hot, and the run
   * reports convergence without an iteration.
   */
  method ConvergeOnClaims(norm: Normaliser, antonyms: Antonyms, table: seq<Claim>, store: Store,
                          observed: nat -> Clusters, available: nat -> bool, maxIterations: nat, threshold: real)
    returns (report: Report)
    requires DistinctIds(table) && store.columns == SELECTED
    requires forall i :: DistinctTypes(observed(i)) && NonNegative(observed(i))
    ensures report.converged && report.iterationsRan == 0 && report.history == []
  {
    hide Sound, NoPairTwice, ConflictPairs, Clustered, IsHot, HotZones, CountIn, LargeTypes, Total, AllTypes;
    var conflicts, rows := DetectConflicts(norm, antonyms, table, 0.25, "");
    StrengthsKnown(norm, antonyms, rows, conflicts);
    var clusters := ClusterAdvanced(conflicts, 2, store);
    ClustersFit(clusters, conflicts, 2, store, AllTypes(conflicts));
    forall c | c in clusters ensures !IsHot(c, threshold, 2, 1, 0.5) {
      NeverHot(clusters, conflicts, 2, store, AllTypes(conflicts), c, threshold, 2, 1, 0.5);
    }
    NoneHot(clusters, threshold);
    ghost var appeared;
    report, appeared := RunConvergence(clusters, observed, available, maxIterations, threshold);
  }
}
