/**
 * The loop of run_convergence (scripts/convergence_engine.py) as a state machine over hot
 * zones, which flag_hot_zones (scripts/conflict_cluster.py) selects from clusters. What the
 * swarm produces in each iteration is an arbitrary input.
 */
module ConvergenceLoop {
  import opened Reals

  datatype Cluster = Cluster(clusterType: string, nConflicts: nat, nLenses: nat, pressure: real, fragility: real)

  type Clusters = seq<Cluster>

  // ----- flag_hot_zones -----

  ghost predicate DistinctTypes(cs: Clusters) {
    forall i, j :: 0 <= i < j < |cs| ==> cs[i].clusterType != cs[j].clusterType
  }

  ghost predicate NonNegative(cs: Clusters) {
    forall i :: 0 <= i < |cs| ==> cs[i].pressure >= 0.0
  }

  ghost predicate IsHot(c: Cluster, threshold: real, minConflicts: nat, minLenses: nat, fragility: real) {
    c.pressure > threshold && c.nConflicts >= minConflicts && c.nLenses >= minLenses && c.fragility > fragility
  }

  /** The hot clusters, in order, with the thresholds that run_convergence passes. */
  ghost function HotZones(clusters: Clusters, threshold: real): Clusters {
    if clusters == [] then []
    else
      var last := clusters[|clusters| - 1];
      HotZones(clusters[..|clusters| - 1], threshold) + if IsHot(last, threshold, 2, 1, 0.5) then [last] else []
  }

  /** Clusters arise one per dictionary key, so their types differ, and the filter keeps that. */
  lemma {:induction false} HotZonesKeep(clusters: Clusters, threshold: real)
    requires DistinctTypes(clusters) && NonNegative(clusters)
    ensures DistinctTypes(HotZones(clusters, threshold)) && NonNegative(HotZones(clusters, threshold))
    ensures forall c :: c in HotZones(clusters, threshold) <==> c in clusters && IsHot(c, threshold, 2, 1, 0.5)
  {
    if clusters != [] {
      var init, last := clusters[..|clusters| - 1], clusters[|clusters| - 1];
      HotZonesKeep(init, threshold);
      assert clusters == init + [last];
      var hot := HotZones(init, threshold);
      forall k | 0 <= k < |hot| ensures hot[k].clusterType != last.clusterType {
        assert hot[k] in init;
      }
    }
  }

  method FlagHotZones(clusters: Clusters, threshold: real) returns (hot: Clusters)
    ensures hot == HotZones(clusters, threshold)
  {
    hot := [];
    for i := 0 to |clusters|
      invariant hot == HotZones(clusters[..i], threshold)
    {
      assert clusters[..i + 1][..i] == clusters[..i];
      var c := clusters[i];
      if c.pressure > threshold && c.nConflicts >= 2 && c.nLenses >= 1 && c.fragility > 0.5 {
        hot := hot + [clusters[i]];
      }
    }
    assert clusters[..|clusters|] == clusters;
  }

  // ----- Pressure -----

  ghost function Pressure(hot: Clusters): real {
    if hot == [] then 0.0 else Pressure(hot[..|hot| - 1]) + hot[|hot| - 1].pressure
  }

  /** sum(hz["pressure_score"] for hz in hot_zones). */
  method TotalPressure(hot: Clusters) returns (total: real)
    ensures total == Pressure(hot)
  {
    total := 0.0;
    for i := 0 to |hot|
      invariant total == Pressure(hot[..i])
    {
      assert hot[..i + 1][..i] == hot[..i];
      total := total + hot[i].pressure;
    }
    assert hot[..|hot|] == hot;
  }

  lemma {:induction false} PressureNonNegative(hot: Clusters)
    requires NonNegative(hot)
    ensures Pressure(hot) >= 0.0
  {
    if hot != [] {
      PressureNonNegative(hot[..|hot| - 1]);
    }
  }

  ghost function Floored(p: real): real {
    if p >= 1.0 then p else 1.0
  }

  ghost function Decay(before: real, after: real): real {
    (before - after) / Floored(before)
  }

  /** An iteration after which the loop goes on cuts the pressure by one per cent, and at least by 0.01. */
  lemma DecayMeaning(before: real, after: real)
    ensures Decay(before, after) >= 0.01 <==> after <= before - 0.01 * Floored(before)
  {
    var d, f := Decay(before, after), Floored(before);
    assert d * f == before - after;
    ScaleOrder(0.01, d, f);
  }

  // ----- Resolution -----

  ghost function Types(hot: Clusters): set<string> {
    set c | c in hot :: c.clusterType
  }

  lemma TypesSnoc(before: Clusters, c: Cluster)
    requires DistinctTypes(before + [c])
    ensures Types(before + [c]) == Types(before) + {c.clusterType} && c.clusterType !in Types(before)
  {
    forall k | 0 <= k < |before| ensures before[k].clusterType != c.clusterType {
      assert (before + [c])[k] == before[k] && (before + [c])[|before|] == c;
    }
  }

  lemma HotAgain(hot: Clusters, t: string)
    ensures t in Types(hot) <==> exists c :: c in hot && c.clusterType == t
  {
  }

  lemma TypesNext(before: Clusters, i: nat)
    requires DistinctTypes(before) && i < |before|
    ensures Types(before[..i + 1]) == Types(before[..i]) + {before[i].clusterType}
    ensures before[i].clusterType !in Types(before[..i])
  {
    assert before[..i + 1] == before[..i] + [before[i]];
    TypesSnoc(before[..i], before[i]);
  }

  lemma DifferenceGrows(s: set<string>, a: set<string>, x: string)
    requires x !in s
    ensures |(s + {x}) - a| == |s - a| + if x in a then 0 else 1
  {
    if x in a {
      assert (s + {x}) - a == s - a;
    } else {
      assert (s + {x}) - a == (s - a) + {x};
    }
  }

  /** The number of hot zones whose type is no longer hot. */
  method CountResolved(before: Clusters, after: Clusters) returns (n: nat)
    requires DistinctTypes(before)
    ensures n == |Types(before) - Types(after)|
  {
    n := 0;
    assert Types(before[..0]) - Types(after) == {};
    assert before[..|before|] == before;
    hide Types, DistinctTypes;
    for i := 0 to |before|
      invariant n == |Types(before[..i]) - Types(after)|
    {
      TypesNext(before, i);
      DifferenceGrows(Types(before[..i]), Types(after), before[i].clusterType);
      HotAgain(after, before[i].clusterType);
      if !exists c :: c in after && c.clusterType == before[i].clusterType {
        n := n + 1;
      }
    }
  }

  /** Hot types are conserved: after = before - resolved + newly hot. */
  lemma TypesConserved(before: Clusters, after: Clusters)
    ensures |Types(after)| == |Types(before)| - |Types(before) - Types(after)| + |Types(after) - Types(before)|
  {
    var b, a := Types(before), Types(after);
    assert b == (b - a) + (a * b);
    assert a == (a - b) + (a * b);
  }

  // ----- run_convergence -----

  /** One entry of convergence_history. */
  datatype Entry = Entry(pressureBefore: real, pressureAfter: real, decay: real, resolved: nat, remaining: nat)

  datatype Report = Report(converged: bool, iterationsRan: nat, resolvedClusters: nat, pressureDecay: real, history: seq<Entry>)

  ghost function ResolvedSum(history: seq<Entry>): nat {
    if history == [] then 0 else ResolvedSum(history[..|history| - 1]) + history[|history| - 1].resolved
  }

  /** The geometric factor of n continued iterations. */
  ghost function Shrink(n: nat): real {
    if n == 0 then 1.0 else 0.99 * Shrink(n - 1)
  }

  /** Each entry continues where the one before it ended. */
  ghost predicate Linked(history: seq<Entry>, start: real) {
    && (|history| > 0 ==> history[0].pressureBefore == start)
    && forall i :: 0 < i < |history| ==> history[i].pressureBefore == history[i - 1].pressureAfter
  }

  /** The entry was followed by another one, so its decay was high enough and zones were left. */
  ghost predicate Continued(e: Entry) {
    e.pressureAfter <= e.pressureBefore - 0.01 * Floored(e.pressureBefore) && e.remaining > 0
  }

  ghost predicate AllButLastContinued(history: seq<Entry>) {
    forall i :: 0 <= i < |history| - 1 ==> Continued(history[i])
  }

  /** The pressure before the n-th iteration has fallen linearly and geometrically. */
  lemma {:induction false} PressureFalls(history: seq<Entry>, start: real, n: nat)
    requires Linked(history, start) && AllButLastContinued(history) && n < |history|
    ensures history[n].pressureBefore <= start - 0.01 * n as real
    ensures history[n].pressureBefore <= Shrink(n) * start
  {
    if n > 0 {
      PressureFalls(history, start, n - 1);
      assert Continued(history[n - 1]);
      assert history[n].pressureBefore <= 0.99 * history[n - 1].pressureBefore;
    }
  }

  /** The geometric factor is a power of 0.99. */
  lemma {:induction false} ShrinkPower(m: nat, n: nat)
    ensures Shrink(1) == 0.99 && Shrink(m + n) == Shrink(m) * Shrink(n)
  {
    assert Shrink(0) == 1.0;
    if n > 0 {
      ShrinkPower(m, n - 1);
      assert Shrink(m + n) == 0.99 * Shrink(m + n - 1);
      assert Shrink(m) * (0.99 * Shrink(n - 1)) == 0.99 * (Shrink(m) * Shrink(n - 1));
    }
  }

  /** An iteration that is followed by another one leaves zones, and starts from a higher pressure than all later ones. */
  lemma {:induction false} LaterIsLower(history: seq<Entry>, start: real, i: nat, j: nat)
    requires Linked(history, start) && AllButLastContinued(history) && i < j < |history|
    ensures history[i].remaining > 0 && history[j].pressureBefore <= history[i].pressureBefore - 0.01 * (j - i) as real
  {
    assert Continued(history[j - 1]);
    if i < j - 1 {
      LaterIsLower(history, start, i, j - 1);
    }
  }

  /** What an iteration records when it turns one list of hot zones into another. */
  ghost function EntryOf(before: Clusters, after: Clusters): Entry {
    Entry(Pressure(before), Pressure(after), Decay(Pressure(before), Pressure(after)), |Types(before) - Types(after)|, |after|)
  }

  method Record(hot: Clusters, after: Clusters) returns (entry: Entry)
    requires DistinctTypes(hot) && NonNegative(hot)
    ensures entry == EntryOf(hot, after) && entry.pressureBefore >= 0.0
    ensures |Types(after)| + entry.resolved == |Types(hot)| + |Types(after) - Types(hot)|
    ensures after != [] && entry.decay >= 0.01 ==> Continued(entry)
  {
    var resolved := CountResolved(hot, after);
    TypesConserved(hot, after);
    PressureNonNegative(hot);
    DecayMeaning(Pressure(hot), Pressure(after));
    var before := TotalPressure(hot);
    var left := TotalPressure(after);
    entry := Entry(before, left, (before - left) / (if before >= 1.0 then before else 1.0), resolved, |after|);
  }

  /** The hot zones after i iterations. */
  ghost function ZonesAt(initial: Clusters, observed: nat -> Clusters, threshold: real, i: nat): Clusters {
    HotZones(if i == 0 then initial else observed(i), threshold)
  }

  /** Every entry records the step from one list of hot zones to the next. */
  ghost predicate Traces(history: seq<Entry>, initial: Clusters, observed: nat -> Clusters, threshold: real) {
    forall i :: 0 <= i < |history| ==>
      history[i] == EntryOf(ZonesAt(initial, observed, threshold, i), ZonesAt(initial, observed, threshold, i + 1))
  }

  lemma TracesLink(history: seq<Entry>, initial: Clusters, observed: nat -> Clusters, threshold: real)
    requires Traces(history, initial, observed, threshold)
    ensures Linked(history, Pressure(ZonesAt(initial, observed, threshold, 0)))
  {
    hide HotZones, Pressure, Types, Decay, ZonesAt;
    if history != [] {
      assert history[0] == EntryOf(ZonesAt(initial, observed, threshold, 0), ZonesAt(initial, observed, threshold, 0 + 1));
    }
    forall i | 0 < i < |history| ensures history[i].pressureBefore == history[i - 1].pressureAfter {
      var j := i - 1;
      assert history[j] == EntryOf(ZonesAt(initial, observed, threshold, j), ZonesAt(initial, observed, threshold, j + 1));
      assert history[i] == EntryOf(ZonesAt(initial, observed, threshold, i), ZonesAt(initial, observed, threshold, i + 1));
    }
  }

  lemma ExtendTrace(history: seq<Entry>, initial: Clusters, observed: nat -> Clusters, threshold: real, e: Entry)
    requires Traces(history, initial, observed, threshold)
    requires e == EntryOf(ZonesAt(initial, observed, threshold, |history|), ZonesAt(initial, observed, threshold, |history| + 1))
    ensures Traces(history + [e], initial, observed, threshold)
    ensures ResolvedSum(history + [e]) == ResolvedSum(history) + e.resolved
  {
    assert (history + [e])[..|history|] == history;
  }

  /**
   * The loop. For each iteration, `available` says whether a hot document is in the
   * corpus, and `observed` gives the clusters found afterwards.
   */
  method RunConvergence(initial: Clusters, observed: nat -> Clusters, available: nat -> bool, maxIterations: nat, threshold: real)
    returns (report: Report, ghost appeared: nat)
    requires DistinctTypes(initial) && NonNegative(initial)
    requires forall i :: DistinctTypes(observed(i)) && NonNegative(observed(i))
    ensures report.iterationsRan == |report.history| <= maxIterations
    ensures Traces(report.history, initial, observed, threshold) && AllButLastContinued(report.history)
    ensures report.resolvedClusters == ResolvedSum(report.history)
    ensures report.iterationsRan > 0 ==> report.pressureDecay == report.history[report.iterationsRan - 1].decay
    ensures var start, last := ZonesAt(initial, observed, threshold, 0), ZonesAt(initial, observed, threshold, report.iterationsRan);
      && (report.converged <==> last == [])
      && |Types(last)| + report.resolvedClusters == |Types(start)| + appeared
      && (report.iterationsRan > 0 ==>
            && 0.01 * (report.iterationsRan - 1) as real <= Pressure(start)
            && report.history[report.iterationsRan - 1].pressureBefore <= Shrink(report.iterationsRan - 1) * Pressure(start))
    ensures ZonesAt(initial, observed, threshold, 0) == [] ==> report.iterationsRan == 0
    ensures !report.converged && report.iterationsRan < maxIterations ==>
      !available(report.iterationsRan + 1) || (report.iterationsRan > 0 && report.pressureDecay < 0.01)
  {
    hide Continued, Types, Decay, ResolvedSum, Pressure, EntryOf, Traces, HotZones, Linked, Shrink, DistinctTypes, NonNegative;
    var hot := FlagHotZones(initial, threshold);
    HotZonesKeep(initial, threshold);
    ghost var start := hot;
    appeared := 0;
    report := Report(false, 0, 0, 0.0, []);
    EmptyHistory(initial, observed, threshold);
    if hot == [] {
      report := report.(converged := true);
      return;
    }
    for iteration := 1 to maxIterations + 1
      invariant report.iterationsRan == |report.history| == iteration - 1
      invariant hot == ZonesAt(initial, observed, threshold, iteration - 1) != [] && !report.converged
      invariant DistinctTypes(hot) && NonNegative(hot)
      invariant Traces(report.history, initial, observed, threshold)
      invariant forall i :: 0 <= i < |report.history| ==> Continued(report.history[i])
      invariant |report.history| > 0 ==>
        var e := report.history[|report.history| - 1]; e.pressureBefore >= 0.0 && report.pressureDecay == e.decay
      invariant report.resolvedClusters == ResolvedSum(report.history)
      invariant |Types(hot)| + report.resolvedClusters == |Types(start)| + appeared
    {
      if !available(iteration) {
        break;
      }
      var after := FlagHotZones(observed(iteration), threshold);
      HotZonesKeep(observed(iteration), threshold);
      var entry := Record(hot, after);
      appeared := appeared + |Types(after) - Types(hot)|;
      ExtendTrace(report.history, initial, observed, threshold, entry);
      report := Report(after == [], iteration, report.resolvedClusters + entry.resolved, entry.decay, report.history + [entry]);
      hot := after;
      if hot == [] || entry.decay < 0.01 {
        break;
      }
    }
    if |report.history| > 0 {
      TracesLink(report.history, initial, observed, threshold);
      PressureFalls(report.history, Pressure(start), |report.history| - 1);
    }
  }

  lemma EmptyHistory(initial: Clusters, observed: nat -> Clusters, threshold: real)
    ensures Traces([], initial, observed, threshold) && ResolvedSum([]) == 0
  {
  }
}
