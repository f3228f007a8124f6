/**
 * The store of scripts/akai_memory.py: record_run and the tables it inserts into and
 * upserts, tied to the history of all recorded runs.
 */
module RunLedger {
  import opened Reals
  import opened Wrappers

  type Family = string

  /** One escalation event; either end may be missing from the input. */
  datatype Escalation = Escalation(from: Option<Family>, to: Option<Family>)

  /** args.chain of a run: no such entry, a null, or a string. */
  datatype ChainArg = Missing | Null | Chain(name: string)

  /** The fields of a metrics dictionary that reach the modelled tables. */
  datatype Metrics = Metrics(
    family: Option<Family>,
    fragmentExit: bool,
    iterationsRan: Option<nat>,
    avgConfidence: Option<real>,
    escalations: seq<Escalation>,
    chain: ChainArg)

  datatype RunRow = RunRow(family: Option<Family>, fragmentExit: bool, escalationCount: nat)
  datatype EscalationRow = EscalationRow(runId: nat, from: Option<Family>, to: Option<Family>)
  datatype Counts = Counts(success: nat, failure: nat, escalated: nat)
  datatype FragmentStats = FragmentStats(used: nat, exits: nat, exitRate: real)
  datatype PathStats = PathStats(runs: nat, avgConfidence: real, avgIterations: real, bestConfidence: real, score: real)

  type Transition = (Family, Family)

  // ----- What the history says -----

  /** The name that stands for an end of an escalation, which may be missing. */
  ghost function NameOf(end: Option<Family>): Family {
    match end
    case Some(family) => family
    case None => "?"
  }

  /** The transition an escalation is charged to; a missing end counts as "?". */
  ghost function TransitionOf(e: Escalation): Transition {
    (NameOf(e.from), NameOf(e.to))
  }

  ghost function EscalationsIn(es: seq<Escalation>, t: Transition): nat {
    if es == [] then 0
    else EscalationsIn(es[..|es| - 1], t) + if TransitionOf(es[|es| - 1]) == t then 1 else 0
  }

  /** Escalations charged to a transition in all runs. */
  ghost function Escalated(history: seq<Metrics>, t: Transition): nat {
    if history == [] then 0
    else Escalated(history[..|history| - 1], t) + EscalationsIn(history[|history| - 1].escalations, t)
  }

  /** A routed family that is present and not the empty string. */
  ghost predicate HasFamily(m: Metrics) {
    m.family.Some? && m.family.value != ""
  }

  /** Runs that stayed in a family without escalating. */
  ghost function Settled(history: seq<Metrics>, f: Family): nat {
    if history == [] then 0
    else
      var m := history[|history| - 1];
      Settled(history[..|history| - 1], f) + if m.family == Some(f) && f != "" && m.escalations == [] then 1 else 0
  }

  ghost function TotalEscalations(history: seq<Metrics>): nat {
    if history == [] then 0
    else TotalEscalations(history[..|history| - 1]) + |history[|history| - 1].escalations|
  }

  // ----- routing_weights -----

  type Routing = map<Transition, Counts>

  /** One call of update_routing_weight. */
  datatype Outcome = Outcome(transition: Transition, success: bool, escalated: bool)

  /** The counts in the row of a transition; a missing row counts nothing. */
  ghost function CountsOf(routing: Routing, t: Transition): Counts {
    if t in routing then routing[t] else Counts(0, 0, 0)
  }

  ghost function One(b: bool): nat {
    if b then 1 else 0
  }

  /** No other row has changed, and this row has counted the outcome once. */
  ghost predicate Counted(before: Routing, after: Routing, o: Outcome) {
    && after.Keys == before.Keys + {o.transition}
    && (forall t :: t in before && t != o.transition ==> after[t] == before[t])
    && var b, a := CountsOf(before, o.transition), after[o.transition];
       && a.success - b.success == One(o.success)
       && a.failure - b.failure == One(!o.success)
       && a.escalated - b.escalated == One(o.escalated)
  }

  /** The outcomes of a transition in a log of calls. */
  ghost function OutcomesOf(log: seq<Outcome>, t: Transition): seq<Outcome> {
    if log == [] then []
    else OutcomesOf(log[..|log| - 1], t) + if log[|log| - 1].transition == t then [log[|log| - 1]] else []
  }

  ghost function Successful(log: seq<Outcome>): nat {
    if log == [] then 0 else Successful(log[..|log| - 1]) + One(log[|log| - 1].success)
  }

  ghost function Escalating(log: seq<Outcome>): nat {
    if log == [] then 0 else Escalating(log[..|log| - 1]) + One(log[|log| - 1].escalated)
  }

  /** A transition has a row exactly if it occurs in the log, and the row counts its outcomes. */
  ghost predicate Tallies(routing: Routing, log: seq<Outcome>) {
    forall t: Transition :: RowTallies(routing, t, OutcomesOf(log, t))
  }

  ghost predicate RowTallies(routing: Routing, t: Transition, log: seq<Outcome>) {
    if log == [] then t !in routing
    else
      && t in routing && routing[t].success == Successful(log) && routing[t].escalated == Escalating(log)
      && routing[t].success + routing[t].failure == |log|
  }

  lemma OwnRowTallied(before: Routing, after: Routing, log: seq<Outcome>, o: Outcome)
    requires RowTallies(before, o.transition, log) && Counted(before, after, o)
    ensures RowTallies(after, o.transition, log + [o])
  {
    assert (log + [o])[..|log|] == log;
  }

  /** The table always tallies the calls made so far: one more call extends the tallied log by it. */
  lemma CallsTallied(before: Routing, after: Routing, log: seq<Outcome>, o: Outcome)
    requires Tallies(before, log) && Counted(before, after, o)
    ensures Tallies(after, log + [o])
  {
    hide Successful, Escalating;
    assert (log + [o])[..|log|] == log;
    forall t: Transition ensures RowTallies(after, t, OutcomesOf(log + [o], t)) {
      var own := OutcomesOf(log, t);
      assert RowTallies(before, t, own);
      if t == o.transition {
        OwnRowTallied(before, after, own, o);
      } else {
        assert own + [] == own;
      }
    }
  }

  /** The counts that s successes and e escalations of a transition add up to. */
  ghost predicate RowIs(routing: Routing, t: Transition, s: nat, e: nat) {
    if s + e == 0 then t !in routing else t in routing && routing[t] == Counts(s, e, e)
  }

  /** The successes of a transition come from runs that settled in its family. */
  ghost function Successes(history: seq<Metrics>, t: Transition): nat {
    if t.0 == t.1 then Settled(history, t.0) else 0
  }

  ghost predicate RoutingMatches(routing: Routing, history: seq<Metrics>) {
    forall t: Transition :: RowIs(routing, t, Successes(history, t), Escalated(history, t))
  }

  // ----- escalations and runs -----

  ghost function RowsOf(es: seq<Escalation>, runId: nat): seq<EscalationRow> {
    if es == [] then []
    else RowsOf(es[..|es| - 1], runId) + [EscalationRow(runId, es[|es| - 1].from, es[|es| - 1].to)]
  }

  ghost function EscalationTable(history: seq<Metrics>): (rows: seq<EscalationRow>)
    ensures |rows| == TotalEscalations(history)
  {
    if history == [] then []
    else
      RowsLength(history[|history| - 1].escalations, |history|);
      EscalationTable(history[..|history| - 1]) + RowsOf(history[|history| - 1].escalations, |history|)
  }

  lemma {:induction false} RowsLength(es: seq<Escalation>, runId: nat)
    ensures |RowsOf(es, runId)| == |es|
  {
    if es != [] {
      RowsLength(es[..|es| - 1], runId);
    }
  }

  ghost function RunRowOf(m: Metrics): RunRow {
    RunRow(m.family, m.fragmentExit, |m.escalations|)
  }

  ghost function RunTable(history: seq<Metrics>): (rows: seq<RunRow>)
    ensures |rows| == |history|
  {
    if history == [] then [] else RunTable(history[..|history| - 1]) + [RunRowOf(history[|history| - 1])]
  }

  // ----- fragment_stats -----

  ghost function Used(history: seq<Metrics>, f: Family): nat {
    if history == [] then 0
    else Used(history[..|history| - 1], f) + if history[|history| - 1].family == Some(f) && f != "" then 1 else 0
  }

  ghost function Exits(history: seq<Metrics>, f: Family): nat {
    if history == [] then 0
    else
      var m := history[|history| - 1];
      Exits(history[..|history| - 1], f) + if m.family == Some(f) && f != "" && m.fragmentExit then 1 else 0
  }

  /** The upsert into fragment_stats; the insert leaves exit_rate at its default. */
  ghost function FragmentUpsert(table: map<Family, FragmentStats>, f: Family, exit: bool): map<Family, FragmentStats> {
    var x := if exit then 1 else 0;
    if f in table then
      var s := table[f];
      table[f := FragmentStats(s.used + 1, s.exits + x, (s.exits + x) as real / (s.used + 1) as real)]
    else table[f := FragmentStats(1, x, 0.0)]
  }

  /** The exit rate is the ratio of the counts, except that the first run leaves it at zero. */
  ghost predicate FragmentsMatch(table: map<Family, FragmentStats>, history: seq<Metrics>) {
    forall f: Family :: FragmentRowIs(table, f, Used(history, f), Exits(history, f))
  }

  ghost predicate FragmentRowIs(table: map<Family, FragmentStats>, f: Family, used: nat, exits: nat) {
    if used == 0 then f !in table
    else
      f in table && table[f] == FragmentStats(used, exits, if used == 1 then 0.0 else exits as real / used as real)
  }

  // ----- paths -----

  /** The chain a run is filed under, if it is filed at all. */
  ghost function PathOf(m: Metrics): Option<string> {
    if m.avgConfidence.None? then None
    else
      match m.chain
      case Missing => Some("auto")
      case Null => None
      case Chain(name) => if name == "" then None else Some(name)
  }

  /** metrics.get("iterations_ran") or 1. */
  ghost function IterationsOf(m: Metrics): nat {
    if m.iterationsRan.Some? && m.iterationsRan.value != 0 then m.iterationsRan.value else 1
  }

  ghost function Max(a: real, b: real): real {
    if a >= b then a else b
  }

  /** Confidence over iterations, of which at least one is counted. */
  ghost function Ratio(confidence: real, iterations: real): real {
    confidence / Max(iterations, 1.0)
  }

  ghost function Mean(sum: real, n: nat): real
    requires n > 0
  {
    sum / n as real
  }

  /** The mean after one more value, from the mean of n values. */
  ghost function NextMean(mean: real, n: nat, x: real): real {
    (mean * n as real + x) / (n + 1) as real
  }

  ghost function PathUpsert(table: map<string, PathStats>, chain: string, c: real, n: nat): map<string, PathStats> {
    if chain in table then
      var p := table[chain];
      var avg := NextMean(p.avgConfidence, p.runs, c);
      table[chain := PathStats(
        p.runs + 1,
        avg,
        NextMean(p.avgIterations, p.runs, n as real),
        Max(p.bestConfidence, c),
        Ratio(avg, p.avgIterations))]
    else table[chain := PathStats(1, c, n as real, c, Ratio(c, n as real))]
  }

  ghost function PathRuns(history: seq<Metrics>, chain: string): nat {
    if history == [] then 0
    else PathRuns(history[..|history| - 1], chain) + if PathOf(history[|history| - 1]) == Some(chain) then 1 else 0
  }

  ghost function ConfidenceSum(history: seq<Metrics>, chain: string): real {
    if history == [] then 0.0
    else
      var m := history[|history| - 1];
      ConfidenceSum(history[..|history| - 1], chain) + if PathOf(m) == Some(chain) then m.avgConfidence.value else 0.0
  }

  ghost function IterationSum(history: seq<Metrics>, chain: string): nat {
    if history == [] then 0
    else
      var m := history[|history| - 1];
      IterationSum(history[..|history| - 1], chain) + if PathOf(m) == Some(chain) then IterationsOf(m) else 0
  }

  /** The score: the mean confidence over the mean number of iterations before the latest run. */
  ghost function PathScore(history: seq<Metrics>, chain: string): real {
    if history == [] then 0.0
    else
      var init, m := history[..|history| - 1], history[|history| - 1];
      var n := PathRuns(init, chain);
      if PathOf(m) != Some(chain) then PathScore(init, chain)
      else if n == 0 then Ratio(m.avgConfidence.value, IterationsOf(m) as real)
      else Ratio(Mean(ConfidenceSum(history, chain), n + 1), Mean(IterationSum(init, chain) as real, n))
  }

  /** Some run of the chain had the best confidence, and none had a better one. */
  ghost predicate IsBest(history: seq<Metrics>, chain: string, best: real) {
    && (exists i :: 0 <= i < |history| && PathOf(history[i]) == Some(chain) && history[i].avgConfidence.value == best)
    && (forall i :: 0 <= i < |history| && PathOf(history[i]) == Some(chain) ==> history[i].avgConfidence.value <= best)
  }

  /** The running means are the means of all runs of the chain. */
  ghost predicate PathRowIs(table: map<string, PathStats>, history: seq<Metrics>, chain: string) {
    var n := PathRuns(history, chain);
    if n == 0 then chain !in table
    else
      && chain in table && table[chain].runs == n
      && table[chain].avgConfidence == Mean(ConfidenceSum(history, chain), n)
      && table[chain].avgIterations == Mean(IterationSum(history, chain) as real, n)
      && IsBest(history, chain, table[chain].bestConfidence)
      && table[chain].score == PathScore(history, chain)
  }

  ghost predicate PathsMatch(table: map<string, PathStats>, history: seq<Metrics>) {
    forall chain: string :: PathRowIs(table, history, chain)
  }

  // ----- The store -----

  class AkaiMemory {
    var runs: seq<RunRow>
    var escalations: seq<EscalationRow>
    var routing: Routing
    var fragments: map<Family, FragmentStats>
    var paths: map<string, PathStats>
    ghost var history: seq<Metrics>

    /** Every table is determined by, or summarises, the history of recorded runs. */
    ghost predicate Valid()
      reads this
    {
      && runs == RunTable(history)
      && escalations == EscalationTable(history)
      && RoutingMatches(routing, history)
      && FragmentsMatch(fragments, history)
      && PathsMatch(paths, history)
    }

    constructor ()
      ensures Valid() && history == []
    {
      runs, escalations, routing, fragments, paths, history := [], [], map[], map[], map[], [];
    }

    method UpdateRoutingWeight(from: Family, to: Family, success: bool, escalated: bool)
      modifies this`routing
      ensures Counted(old(routing), routing, Outcome((from, to), success, escalated))
    {
      var c := if (from, to) in routing then routing[(from, to)] else Counts(0, 0, 0);
      routing := routing[(from, to) := Counts(c.success + (if success then 1 else 0), c.failure + (if success then 0 else 1),
                                              c.escalated + if escalated then 1 else 0)];
    }

    /** record_run; the statements that write run time stamps and the JSON sidecar are not modelled. */
    method RecordRun(m: Metrics) returns (runId: nat)
      requires Valid()
      modifies this
      ensures Valid() && history == old(history) + [m] && runId == |history|
    {
      hide RunTable, EscalationTable, RoutingMatches, FragmentsMatch, PathsMatch, PartlyEscalated, RowsOf,
           Counted, FragmentUpsert, PathUpsert;
      ghost var h := history;
      RunTableSnoc(h, m);
      EscalationTableSnoc(h, m);
      runs := runs + [RunRow(m.family, m.fragmentExit, |m.escalations|)];
      runId := |runs|;
      InsertEscalations(m.escalations, runId);
      var hasFamily := m.family.Some? && m.family.value != "";
      if hasFamily && m.escalations == [] {
        ghost var before := routing;
        UpdateRoutingWeight(m.family.value, m.family.value, true, false);
        SettledRun(before, routing, h, m);
      } else {
        UnsettledRun(routing, h, m);
      }
      FragmentStep(fragments, h, m);
      if hasFamily {
        UpsertFragment(m.family.value, m.fragmentExit);
      }
      PathStep(paths, h, m);
      var chain := match m.chain case Missing => "auto" case Null => "" case Chain(name) => name;
      if chain != "" && m.avgConfidence.Some? {
        var iterations := if m.iterationsRan.Some? && m.iterationsRan.value != 0 then m.iterationsRan.value else 1;
        UpsertPath(chain, m.avgConfidence.value, iterations);
      }
      history := h + [m];
    }

    /** The statement that upserts into fragment_stats. */
    method UpsertFragment(f: Family, exit: bool)
      modifies this`fragments
      ensures fragments == FragmentUpsert(old(fragments), f, exit)
    {
      var n := if exit then 1 else 0;
      if f in fragments {
        var s := fragments[f];
        fragments := fragments[f := FragmentStats(s.used + 1, s.exits + n, (s.exits + n) as real / (s.used + 1) as real)];
      } else {
        fragments := fragments[f := FragmentStats(1, n, 0.0)];
      }
    }

    /** The statement that upserts into paths. */
    method UpsertPath(chain: string, c: real, n: nat)
      modifies this`paths
      ensures paths == PathUpsert(old(paths), chain, c, n)
    {
      if chain in paths {
        var p := paths[chain];
        var confidence := (p.avgConfidence * p.runs as real + c) / (p.runs + 1) as real;
        var iterations := (p.avgIterations * p.runs as real + n as real) / (p.runs + 1) as real;
        var best := if p.bestConfidence >= c then p.bestConfidence else c;
        var score := confidence / (if p.avgIterations >= 1.0 then p.avgIterations else 1.0);
        NextMeanIs(p.avgConfidence, p.runs, c, confidence);
        NextMeanIs(p.avgIterations, p.runs, n as real, iterations);
        paths := paths[chain := PathStats(p.runs + 1, confidence, iterations, best, score)];
      } else {
        var score := c / (if n >= 1 then n as real else 1.0);
        paths := paths[chain := PathStats(1, c, n as real, c, score)];
      }
    }

    /** The loop over the escalations of a run. */
    method InsertEscalations(es: seq<Escalation>, runId: nat)
      requires RoutingMatches(routing, history)
      modifies this`escalations, this`routing
      ensures escalations == old(escalations) + RowsOf(es, runId)
      ensures PartlyEscalated(routing, history, es)
    {
      hide RoutingMatches, PartlyEscalated, Counted;
      ghost var table := escalations;
      NoneEscalated(routing, history);
      for k := 0 to |es|
        invariant escalations == table + RowsOf(es[..k], runId)
        invariant PartlyEscalated(routing, history, es[..k])
      {
        assert es[..k + 1][..k] == es[..k] && es[..k + 1] == es[..k] + [es[k]];
        escalations := escalations + [EscalationRow(runId, es[k].from, es[k].to)];
        ghost var before := routing;
        var from := if es[k].from.Some? then es[k].from.value else "?";
        var to := if es[k].to.Some? then es[k].to.value else "?";
        UpdateRoutingWeight(from, to, false, true);
        EscalationCounted(before, routing, history, es[..k], es[k]);
      }
      assert es[..|es|] == es;
    }
  }

  lemma NextMeanIs(mean: real, n: nat, x: real, next: real)
    requires next == (mean * n as real + x) / (n + 1) as real
    ensures next == NextMean(mean, n, x)
  {
  }

  // ----- One step of each table -----

  lemma RunTableSnoc(h: seq<Metrics>, m: Metrics)
    ensures RunTable(h + [m]) == RunTable(h) + [RunRowOf(m)]
  {
    assert (h + [m])[..|h|] == h;
  }

  /** The row with number i shows the family, the exit and the number of escalations of run number i. */
  lemma {:induction false} RunTableAt(h: seq<Metrics>, i: nat)
    requires i < |h|
    ensures RunTable(h)[i] == RunRow(h[i].family, h[i].fragmentExit, |h[i].escalations|)
  {
    if i < |h| - 1 {
      RunTableAt(h[..|h| - 1], i);
    }
  }

  lemma EscalationTableSnoc(h: seq<Metrics>, m: Metrics)
    ensures EscalationTable(h + [m]) == EscalationTable(h) + RowsOf(m.escalations, |h| + 1)
  {
    assert (h + [m])[..|h|] == h;
  }

  /** The routing table after the escalations es of the run that is being recorded. */
  ghost predicate PartlyEscalated(routing: Routing, h: seq<Metrics>, es: seq<Escalation>) {
    forall t: Transition :: RowIs(routing, t, Successes(h, t), Escalated(h, t) + EscalationsIn(es, t))
  }

  lemma NoneEscalated(routing: Routing, h: seq<Metrics>)
    requires RoutingMatches(routing, h)
    ensures PartlyEscalated(routing, h, [])
  {
    forall t: Transition ensures RowIs(routing, t, Successes(h, t), Escalated(h, t) + EscalationsIn([], t)) {
    }
  }

  lemma EscalationCounted(before: Routing, after: Routing, h: seq<Metrics>, es: seq<Escalation>, e: Escalation)
    requires PartlyEscalated(before, h, es) && Counted(before, after, Outcome(TransitionOf(e), false, true))
    ensures PartlyEscalated(after, h, es + [e])
  {
    assert (es + [e])[..|es|] == es;
    forall t: Transition ensures RowIs(after, t, Successes(h, t), Escalated(h, t) + EscalationsIn(es + [e], t)) {
      assert RowIs(before, t, Successes(h, t), Escalated(h, t) + EscalationsIn(es, t));
    }
  }

  ghost function Copies(e: Escalation, n: nat): seq<Escalation> {
    if n == 0 then [] else Copies(e, n - 1) + [e]
  }

  /** Escalating n times over a new transition leaves the row (0, n, n). */
  lemma {:induction false} EscalateAgain(routing: Routing, h: seq<Metrics>, e: Escalation, n: nat)
    requires RoutingMatches(routing, h) && TransitionOf(e) !in routing && n > 0
    ensures PartlyEscalated(routing[TransitionOf(e) := Counts(0, n, n)], h, Copies(e, n))
  {
    var t := TransitionOf(e);
    var after := routing[t := Counts(0, n, n)];
    if n == 1 {
      assert Counted(routing, after, Outcome(t, false, true));
      assert Copies(e, 1) == [] + [e];
      hide RoutingMatches, PartlyEscalated, Counted;
      NoneEscalated(routing, h);
      EscalationCounted(routing, after, h, [], e);
    } else {
      var before := routing[t := Counts(0, n - 1, n - 1)];
      assert Counted(before, after, Outcome(t, false, true));
      hide RoutingMatches, PartlyEscalated, Counted;
      EscalateAgain(routing, h, e, n - 1);
      EscalationCounted(before, after, h, Copies(e, n - 1), e);
    }
  }

  /** A run without a settled family adds its n escalations over a new transition to the table. */
  lemma EscalatedRun(routing: Routing, h: seq<Metrics>, m: Metrics, e: Escalation, n: nat)
    requires RoutingMatches(routing, h) && TransitionOf(e) !in routing && n > 0 && m.escalations == Copies(e, n)
    ensures RoutingMatches(routing[TransitionOf(e) := Counts(0, n, n)], h + [m])
  {
    assert m.escalations != [];
    hide RoutingMatches, PartlyEscalated;
    EscalateAgain(routing, h, e, n);
    UnsettledRun(routing[TransitionOf(e) := Counts(0, n, n)], h, m);
  }

  /** A run that settles in its family counts one success of the family to itself. */
  lemma SettledAgain(routing: Routing, h: seq<Metrics>, m: Metrics, n: nat)
    requires RoutingMatches(routing, h) && HasFamily(m) && m.escalations == []
    requires var t := (m.family.value, m.family.value);
      if n == 0 then t !in routing else t in routing && routing[t] == Counts(n, 0, 0)
    ensures RoutingMatches(routing[(m.family.value, m.family.value) := Counts(n + 1, 0, 0)], h + [m])
  {
    var t := (m.family.value, m.family.value);
    var after := routing[t := Counts(n + 1, 0, 0)];
    assert Counted(routing, after, Outcome(t, true, false));
    hide RoutingMatches, PartlyEscalated, Counted;
    NoneEscalated(routing, h);
    SettledRun(routing, after, h, m);
  }

  lemma SettledRun(before: Routing, after: Routing, h: seq<Metrics>, m: Metrics)
    requires PartlyEscalated(before, h, m.escalations) && HasFamily(m) && m.escalations == []
    requires Counted(before, after, Outcome((m.family.value, m.family.value), true, false))
    ensures RoutingMatches(after, h + [m])
  {
    assert (h + [m])[..|h|] == h;
    forall t: Transition ensures RowIs(after, t, Successes(h + [m], t), Escalated(h + [m], t)) {
      assert RowIs(before, t, Successes(h, t), Escalated(h, t) + EscalationsIn(m.escalations, t));
    }
  }

  lemma UnsettledRun(routing: Routing, h: seq<Metrics>, m: Metrics)
    requires PartlyEscalated(routing, h, m.escalations) && !(HasFamily(m) && m.escalations == [])
    ensures RoutingMatches(routing, h + [m])
  {
    assert (h + [m])[..|h|] == h;
    forall t: Transition ensures RowIs(routing, t, Successes(h + [m], t), Escalated(h + [m], t)) {
      assert RowIs(routing, t, Successes(h, t), Escalated(h, t) + EscalationsIn(m.escalations, t));
    }
  }

  lemma FragmentStep(table: map<Family, FragmentStats>, h: seq<Metrics>, m: Metrics)
    requires FragmentsMatch(table, h)
    ensures FragmentsMatch(if HasFamily(m) then FragmentUpsert(table, m.family.value, m.fragmentExit) else table, h + [m])
  {
    var after := if HasFamily(m) then FragmentUpsert(table, m.family.value, m.fragmentExit) else table;
    assert (h + [m])[..|h|] == h;
    forall f: Family ensures FragmentRowIs(after, f, Used(h + [m], f), Exits(h + [m], f)) {
      assert FragmentRowIs(table, f, Used(h, f), Exits(h, f));
      ExitsBound(h, f);
    }
  }

  lemma {:induction false} ExitsBound(h: seq<Metrics>, f: Family)
    ensures Exits(h, f) <= Used(h, f)
  {
    if h != [] {
      ExitsBound(h[..|h| - 1], f);
    }
  }

  lemma PathStep(table: map<string, PathStats>, h: seq<Metrics>, m: Metrics)
    requires PathsMatch(table, h)
    ensures PathsMatch(
      if PathOf(m).Some? then PathUpsert(table, PathOf(m).value, m.avgConfidence.value, IterationsOf(m)) else table, h + [m])
  {
    var after := if PathOf(m).Some? then PathUpsert(table, PathOf(m).value, m.avgConfidence.value, IterationsOf(m)) else table;
    forall chain: string ensures PathRowIs(after, h + [m], chain) {
      assert PathRowIs(table, h, chain);
      if PathOf(m) == Some(chain) {
        PathRowHit(table, h, m, chain);
      } else {
        PathRowMiss(table, after, h, m, chain);
      }
    }
  }

  lemma PathRowMiss(table: map<string, PathStats>, after: map<string, PathStats>, h: seq<Metrics>, m: Metrics, chain: string)
    requires PathRowIs(table, h, chain) && PathOf(m) != Some(chain)
    requires (chain in after <==> chain in table) && (chain in table ==> after[chain] == table[chain])
    ensures PathRowIs(after, h + [m], chain)
  {
    assert (h + [m])[..|h|] == h;
    if PathRuns(h, chain) > 0 {
      var best := table[chain].bestConfidence;
      var i :| 0 <= i < |h| && PathOf(h[i]) == Some(chain) && h[i].avgConfidence.value == best;
      assert (h + [m])[i] == h[i];
      assert IsBest(h + [m], chain, best);
    }
  }

  lemma PathRowHit(table: map<string, PathStats>, h: seq<Metrics>, m: Metrics, chain: string)
    requires PathRowIs(table, h, chain) && PathOf(m) == Some(chain)
    ensures PathRowIs(PathUpsert(table, chain, m.avgConfidence.value, IterationsOf(m)), h + [m], chain)
  {
    hide PathRowIs, PathUpsert;
    if PathRuns(h, chain) == 0 {
      PathRowFirst(table, h, m, chain);
    } else {
      PathRowNext(table, h, m, chain);
    }
  }

  lemma PathRowFirst(table: map<string, PathStats>, h: seq<Metrics>, m: Metrics, chain: string)
    requires PathRowIs(table, h, chain) && PathOf(m) == Some(chain) && PathRuns(h, chain) == 0
    ensures PathRowIs(PathUpsert(table, chain, m.avgConfidence.value, IterationsOf(m)), h + [m], chain)
  {
    FiledHasConfidence(m, chain);
    hide *;
    SumsSnoc(h, m, chain);
    NoRuns(h, chain);
    FirstBest(h, m, chain);
    RowAbsent(table, h, chain);
    FirstRow(table, h + [m], chain, m.avgConfidence.value, IterationsOf(m));
  }

  lemma FirstRow(table: map<string, PathStats>, h: seq<Metrics>, chain: string, c: real, k: nat)
    requires chain !in table && PathRuns(h, chain) == 1 && ConfidenceSum(h, chain) == c && IterationSum(h, chain) == k
    requires PathScore(h, chain) == Ratio(c, k as real) && IsBest(h, chain, c)
    ensures PathRowIs(PathUpsert(table, chain, c, k), h, chain)
  {
    hide *;
    MeanOfOne(c);
    MeanOfOne(k as real);
    FirstUpsert(table, chain, c, k);
    RowComplete(PathUpsert(table, chain, c, k), h, chain);
  }

  lemma PathRowNext(table: map<string, PathStats>, h: seq<Metrics>, m: Metrics, chain: string)
    requires PathRowIs(table, h, chain) && PathOf(m) == Some(chain) && PathRuns(h, chain) > 0
    ensures PathRowIs(PathUpsert(table, chain, m.avgConfidence.value, IterationsOf(m)), h + [m], chain)
  {
    FiledHasConfidence(m, chain);
    hide *;
    SumsSnoc(h, m, chain);
    RowPresent(table, h, chain);
    BestStep(h, m, chain, table[chain].bestConfidence);
    NextRow(table, h + [m], chain, ConfidenceSum(h, chain), IterationSum(h, chain), PathRuns(h, chain),
            m.avgConfidence.value, IterationsOf(m));
  }

  lemma NextRow(table: map<string, PathStats>, h: seq<Metrics>, chain: string, sum: real, total: nat, n: nat, c: real, k: nat)
    requires chain in table && table[chain].runs == n > 0
    requires table[chain].avgConfidence == Mean(sum, n) && table[chain].avgIterations == Mean(total as real, n)
    requires PathRuns(h, chain) == n + 1 && ConfidenceSum(h, chain) == sum + c && IterationSum(h, chain) == total + k
    requires PathScore(h, chain) == Ratio(Mean(sum + c, n + 1), Mean(total as real, n))
    requires IsBest(h, chain, Max(table[chain].bestConfidence, c))
    ensures PathRowIs(PathUpsert(table, chain, c, k), h, chain)
  {
    hide *;
    MeanStep(sum, n, c);
    MeanStep(total as real, n, k as real);
    assert (total + k) as real == total as real + k as real;
    NextUpsert(table, chain, c, k);
    RowComplete(PathUpsert(table, chain, c, k), h, chain);
  }

  lemma RowAbsent(table: map<string, PathStats>, h: seq<Metrics>, chain: string)
    requires PathRowIs(table, h, chain) && PathRuns(h, chain) == 0
    ensures chain !in table
  {
  }

  lemma RowPresent(table: map<string, PathStats>, h: seq<Metrics>, chain: string)
    requires PathRowIs(table, h, chain) && PathRuns(h, chain) > 0
    ensures chain in table && table[chain].runs == PathRuns(h, chain)
    ensures table[chain].avgConfidence == Mean(ConfidenceSum(h, chain), PathRuns(h, chain))
    ensures table[chain].avgIterations == Mean(IterationSum(h, chain) as real, PathRuns(h, chain))
    ensures IsBest(h, chain, table[chain].bestConfidence)
  {
  }

  lemma RowComplete(table: map<string, PathStats>, h: seq<Metrics>, chain: string)
    requires PathRuns(h, chain) > 0 && chain in table && table[chain].runs == PathRuns(h, chain)
    requires table[chain].avgConfidence == Mean(ConfidenceSum(h, chain), PathRuns(h, chain))
    requires table[chain].avgIterations == Mean(IterationSum(h, chain) as real, PathRuns(h, chain))
    requires IsBest(h, chain, table[chain].bestConfidence) && table[chain].score == PathScore(h, chain)
    ensures PathRowIs(table, h, chain)
  {
  }

  lemma FirstUpsert(table: map<string, PathStats>, chain: string, c: real, k: nat)
    requires chain !in table
    ensures var after := PathUpsert(table, chain, c, k);
      chain in after && after[chain] == PathStats(1, c, k as real, c, Ratio(c, k as real))
  {
    hide Ratio;
  }

  lemma NextUpsert(table: map<string, PathStats>, chain: string, c: real, k: nat)
    requires chain in table
    ensures var p, after := table[chain], PathUpsert(table, chain, c, k);
      && chain in after
      && after[chain].runs == p.runs + 1 && after[chain].bestConfidence == Max(p.bestConfidence, c)
      && after[chain].avgConfidence == NextMean(p.avgConfidence, p.runs, c)
      && after[chain].avgIterations == NextMean(p.avgIterations, p.runs, k as real)
      && after[chain].score == Ratio(after[chain].avgConfidence, p.avgIterations)
  {
    hide Ratio, NextMean, Max;
  }

  /** What one more run of a chain adds to its sums, and the score it leaves. */
  lemma SumsSnoc(h: seq<Metrics>, m: Metrics, chain: string)
    requires PathOf(m) == Some(chain)
    ensures PathRuns(h + [m], chain) == PathRuns(h, chain) + 1
    ensures ConfidenceSum(h + [m], chain) == ConfidenceSum(h, chain) + m.avgConfidence.value
    ensures IterationSum(h + [m], chain) == IterationSum(h, chain) + IterationsOf(m)
    ensures var n := PathRuns(h, chain);
      PathScore(h + [m], chain) ==
        if n == 0 then Ratio(m.avgConfidence.value, IterationsOf(m) as real)
        else Ratio(Mean(ConfidenceSum(h, chain) + m.avgConfidence.value, n + 1), Mean(IterationSum(h, chain) as real, n))
  {
    hide Mean, Ratio, IterationsOf, PathOf;
    assert (h + [m])[..|h|] == h;
  }

  lemma MeanOfOne(x: real)
    ensures Mean(x, 1) == x
  {
  }

  lemma FirstBest(h: seq<Metrics>, m: Metrics, chain: string)
    requires PathOf(m) == Some(chain) && forall i :: 0 <= i < |h| ==> PathOf(h[i]) != Some(chain)
    ensures IsBest(h + [m], chain, m.avgConfidence.value)
  {
    assert (h + [m])[|h|] == m;
  }

  lemma BestStep(h: seq<Metrics>, m: Metrics, chain: string, best: real)
    requires IsBest(h, chain, best) && PathOf(m) == Some(chain)
    ensures IsBest(h + [m], chain, Max(best, m.avgConfidence.value))
  {
    var i :| 0 <= i < |h| && PathOf(h[i]) == Some(chain) && h[i].avgConfidence.value == best;
    assert (h + [m])[i] == h[i] && (h + [m])[|h|] == m;
  }

  /** A chain without runs has no sums and no run in the history. */
  lemma {:induction false} NoRuns(h: seq<Metrics>, chain: string)
    requires PathRuns(h, chain) == 0
    ensures ConfidenceSum(h, chain) == 0.0 && IterationSum(h, chain) == 0
    ensures forall i :: 0 <= i < |h| ==> PathOf(h[i]) != Some(chain)
  {
    if h != [] {
      NoRuns(h[..|h| - 1], chain);
      assert forall i :: 0 <= i < |h| - 1 ==> h[..|h| - 1][i] == h[i];
    }
  }

  /** The update of a running mean. */
  lemma MeanStep(sum: real, n: nat, x: real)
    requires n > 0
    ensures NextMean(Mean(sum, n), n, x) == Mean(sum + x, n + 1)
  {
    assert sum / n as real * n as real == sum;
  }

  // ----- When the score is confidence over iterations -----

  /** Every run of a chain counts at least one iteration. */
  lemma {:induction false} IterationsAtLeastRuns(h: seq<Metrics>, chain: string)
    ensures IterationSum(h, chain) >= PathRuns(h, chain)
  {
    if h != [] {
      IterationsAtLeastRuns(h[..|h| - 1], chain);
    }
  }

  lemma MeanAtLeastOne(sum: nat, n: nat)
    requires 0 < n <= sum
    ensures Mean(sum as real, n) >= 1.0 && Max(Mean(sum as real, n), 1.0) == Mean(sum as real, n)
  {
    ScaleOrder(1.0, Mean(sum as real, n), n as real);
  }

  /** A mean stays the same exactly if the new value is the mean. */
  lemma MeanFixed(sum: real, n: nat, x: real)
    requires n > 0
    ensures Mean(sum + x, n + 1) == Mean(sum, n) <==> x == Mean(sum, n)
  {
    var o, q := Mean(sum, n), Mean(sum + x, n + 1);
    assert o * n as real == sum && q * (n + 1) as real == sum + x;
    assert q * (n + 1) as real == q * n as real + q;
    if x == o {
      SameProduct(q, o, (n + 1) as real);
    }
  }

  lemma SameProduct(p: real, q: real, f: real)
    requires f > 0.0 && p * f == q * f
    ensures p == q
  {
    ScaleOrder(p, q, f);
    ScaleOrder(q, p, f);
  }

  lemma SameQuotient(a: real, x: real, y: real)
    requires x > 0.0 && y > 0.0
    ensures a / x == a / y <==> a == 0.0 || x == y
  {
    var q := a / x;
    assert q * x == a;
    if q == a / y {
      assert q * y == a;
      if q != 0.0 {
        SameProduct(x, y, if q > 0.0 then q else -q);
      }
    }
    if a == 0.0 {
      assert a / x == 0.0 && a / y == 0.0;
    }
  }

  /**
   * After a run m of a chain, its score is its mean confidence over its mean number of
   * iterations exactly if it was the first run, the confidences add up to zero, or the run
   * took as many iterations as the runs before it on average.
   */
  lemma ScoreRightIff(table: map<string, PathStats>, h: seq<Metrics>, m: Metrics, chain: string)
    requires PathRowIs(table, h + [m], chain) && PathOf(m) == Some(chain)
    ensures chain in table
    ensures var p, n := table[chain], PathRuns(h, chain);
      p.score == Ratio(p.avgConfidence, p.avgIterations) <==>
        || n == 0
        || ConfidenceSum(h + [m], chain) == 0.0
        || IterationsOf(m) as real == Mean(IterationSum(h, chain) as real, n)
  {
    hide *;
    RowAfterRun(table, h, m, chain);
    RowScoreRightIff(table[chain], ConfidenceSum(h + [m], chain), IterationSum(h, chain), PathRuns(h, chain),
                     m.avgConfidence.value, IterationsOf(m));
  }

  lemma RowScoreRightIff(p: PathStats, sum: real, total: nat, n: nat, c: real, k: nat)
    requires p.avgConfidence == Mean(sum, n + 1) && p.avgIterations == Mean((total + k) as real, n + 1)
    requires n <= total && n + 1 <= total + k
    requires n == 0 ==> sum == c && total == 0 && p.score == Ratio(c, k as real)
    requires n > 0 ==> p.score == Ratio(Mean(sum, n + 1), Mean(total as real, n))
    ensures p.score == Ratio(p.avgConfidence, p.avgIterations) <==>
      n == 0 || sum == 0.0 || k as real == Mean(total as real, n)
  {
    hide *;
    if n == 0 {
      FirstScoreRight(p, c, k);
    } else {
      LaterScoreRightIff(p, sum, total, n, k);
    }
  }

  lemma FiledHasConfidence(m: Metrics, chain: string)
    requires PathOf(m) == Some(chain)
    ensures m.avgConfidence.Some?
  {
  }

  /** The row of a chain after a run of it, in terms of the runs before. */
  lemma RowAfterRun(table: map<string, PathStats>, h: seq<Metrics>, m: Metrics, chain: string)
    requires PathRowIs(table, h + [m], chain) && PathOf(m) == Some(chain)
    ensures chain in table && m.avgConfidence.Some?
    ensures var p, n, sum, total := table[chain], PathRuns(h, chain), ConfidenceSum(h + [m], chain), IterationSum(h, chain);
      && p.avgConfidence == Mean(sum, n + 1) && p.avgIterations == Mean((total + IterationsOf(m)) as real, n + 1)
      && n <= total && n + 1 <= total + IterationsOf(m)
      && (n == 0 ==>
            && sum == m.avgConfidence.value && total == 0
            && p.score == Ratio(m.avgConfidence.value, IterationsOf(m) as real))
      && (n > 0 ==> p.score == Ratio(Mean(sum, n + 1), Mean(total as real, n)))
  {
    hide PathRuns, ConfidenceSum, IterationSum, PathScore, IsBest, Mean, Ratio, IterationsOf, PathOf;
    FiledHasConfidence(m, chain);
    SumsSnoc(h, m, chain);
    IterationsAtLeastRuns(h, chain);
    IterationsAtLeastRuns(h + [m], chain);
    if PathRuns(h, chain) == 0 {
      NoRuns(h, chain);
    }
  }

  lemma FirstScoreRight(p: PathStats, c: real, k: nat)
    requires p.avgConfidence == Mean(c, 1) && p.avgIterations == Mean(k as real, 1)
    requires p.score == Ratio(c, k as real)
    ensures p.score == Ratio(p.avgConfidence, p.avgIterations)
  {
    hide Mean, Max;
    MeanOfOne(c);
    MeanOfOne(k as real);
  }

  lemma LaterScoreRightIff(p: PathStats, sum: real, total: nat, n: nat, k: nat)
    requires 0 < n <= total && n + 1 <= total + k
    requires p.avgConfidence == Mean(sum, n + 1) && p.avgIterations == Mean((total + k) as real, n + 1)
    requires p.score == Ratio(Mean(sum, n + 1), Mean(total as real, n))
    ensures p.score == Ratio(p.avgConfidence, p.avgIterations) <==> sum == 0.0 || k as real == Mean(total as real, n)
  {
    hide Mean, Max;
    MeanAtLeastOne(total, n);
    MeanAtLeastOne(total + k, n + 1);
    assert (total + k) as real == total as real + k as real;
    MeanFixed(total as real, n, k as real);
    MeanIsZero(sum, n + 1);
    SameQuotient(p.avgConfidence, Mean(total as real, n), p.avgIterations);
  }

  lemma MeanIsZero(sum: real, n: nat)
    requires n > 0
    ensures Mean(sum, n) == 0.0 <==> sum == 0.0
  {
    assert Mean(sum, n) * n as real == sum;
  }

  /** A run of chain "c" with confidence 1. */
  ghost function RunOfC(iterations: nat): Metrics {
    Metrics(None, false, Some(iterations), Some(1.0), [], Chain("c"))
  }

  /** After two runs of 1 and then 3 iterations the score is 1, not 1/2. */
  lemma StaleScoreExample(table: map<string, PathStats>)
    requires PathsMatch(table, [RunOfC(1), RunOfC(3)])
    ensures "c" in table && table["c"].score == 1.0
    ensures Ratio(table["c"].avgConfidence, table["c"].avgIterations) == 0.5
  {
    hide PathRuns, ConfidenceSum, IterationSum, PathScore, IsBest, PathRowIs;
    var h := [RunOfC(1)];
    NothingRecorded("c");
    SumsSnoc([], RunOfC(1), "c");
    SumsSnoc(h, RunOfC(3), "c");
    assert h + [RunOfC(3)] == [RunOfC(1), RunOfC(3)] && [] + [RunOfC(1)] == h;
    assert PathRowIs(table, h + [RunOfC(3)], "c");
    RowAfterRun(table, h, RunOfC(3), "c");
  }

  lemma NothingRecorded(chain: string)
    ensures PathRuns([], chain) == 0 && ConfidenceSum([], chain) == 0.0 && IterationSum([], chain) == 0
  {
  }

  /** Recording these two runs leaves such a table. */
  lemma StaleScoreReachable() returns (table: map<string, PathStats>)
    ensures PathsMatch(table, [RunOfC(1), RunOfC(3)])
  {
    assert PathsMatch(map[], []);
    hide PathsMatch, PathUpsert;
    PathStep(map[], [], RunOfC(1));
    var first := PathUpsert(map[], "c", 1.0, 1);
    assert [] + [RunOfC(1)] == [RunOfC(1)] && [RunOfC(1)] + [RunOfC(3)] == [RunOfC(1), RunOfC(3)];
    PathStep(first, [RunOfC(1)], RunOfC(3));
    table := PathUpsert(first, "c", 1.0, 3);
  }

  // ----- Consequences for the tables -----

  /** Escalation rows of a transition, with missing ends read as "?". */
  ghost function RowsFor(rows: seq<EscalationRow>, t: Transition): nat {
    if rows == [] then 0
    else
      var r := rows[|rows| - 1];
      RowsFor(rows[..|rows| - 1], t) + if (NameOf(r.from), NameOf(r.to)) == t then 1 else 0
  }

  lemma {:induction false} RowsForConcat(a: seq<EscalationRow>, b: seq<EscalationRow>, t: Transition)
    ensures RowsFor(a + b, t) == RowsFor(a, t) + RowsFor(b, t)
  {
    if b == [] {
      assert a + b == a;
    } else {
      assert (a + b)[..|a + b| - 1] == a + b[..|b| - 1];
      RowsForConcat(a, b[..|b| - 1], t);
    }
  }

  lemma {:induction false} RowsForRun(es: seq<Escalation>, runId: nat, t: Transition)
    ensures RowsFor(RowsOf(es, runId), t) == EscalationsIn(es, t)
  {
    if es != [] {
      var init := RowsOf(es[..|es| - 1], runId);
      RowsForRun(es[..|es| - 1], runId, t);
      assert RowsOf(es, runId)[..|init|] == init;
    }
  }

  /** A transition has as many escalation rows as the history has escalations charged to it. */
  lemma {:induction false} RowsForTransition(h: seq<Metrics>, t: Transition)
    ensures RowsFor(EscalationTable(h), t) == Escalated(h, t)
  {
    if h != [] {
      RowsForTransition(h[..|h| - 1], t);
      RowsForRun(h[|h| - 1].escalations, |h|, t);
      RowsForConcat(EscalationTable(h[..|h| - 1]), RowsOf(h[|h| - 1].escalations, |h|), t);
    }
  }

  ghost function CountSum(runs: seq<RunRow>): nat {
    if runs == [] then 0 else CountSum(runs[..|runs| - 1]) + runs[|runs| - 1].escalationCount
  }

  /** The escalation counts of the run rows add up to the number of escalation rows. */
  lemma {:induction false} TotalsAgree(h: seq<Metrics>)
    ensures CountSum(RunTable(h)) == |EscalationTable(h)|
  {
    if h != [] {
      TotalsAgree(h[..|h| - 1]);
      assert RunTable(h)[..|h| - 1] == RunTable(h[..|h| - 1]);
    }
  }

  /**
   * In every reachable store: failures of a transition are its escalations and its
   * escalation rows, and only the transition of a family to itself has successes.
   */
  lemma LedgerLaw(routing: Routing, h: seq<Metrics>, t: Transition)
    requires RoutingMatches(routing, h)
    ensures t in routing ==>
      && routing[t].failure == routing[t].escalated == RowsFor(EscalationTable(h), t)
      && (t.0 != t.1 ==> routing[t].success == 0 && routing[t].escalated > 0)
      && (t.0 == t.1 ==> routing[t].success == Settled(h, t.0))
    ensures t !in routing ==> RowsFor(EscalationTable(h), t) == 0
  {
    RowsForTransition(h, t);
    assert RowIs(routing, t, Successes(h, t), Escalated(h, t));
  }

  /** The exit rate of a family is the ratio of its counts, except after its first exit alone. */
  lemma ExitRateExact(table: map<Family, FragmentStats>, h: seq<Metrics>, f: Family)
    requires FragmentsMatch(table, h) && f in table
    ensures var s := table[f];
      && s.used == Used(h, f) > 0 && s.exits == Exits(h, f) <= s.used
      && (s.exitRate == s.exits as real / s.used as real <==> !(s.used == 1 && s.exits == 1))
  {
    assert FragmentRowIs(table, f, Used(h, f), Exits(h, f));
    ExitsBound(h, f);
  }

  /** A first run that exits leaves the rate at 0 instead of 1. */
  lemma ExitRateExample(table: map<Family, FragmentStats>, m: Metrics)
    requires m.family == Some("T04") && m.fragmentExit && FragmentsMatch(table, [m])
    ensures "T04" in table && table["T04"] == FragmentStats(1, 1, 0.0)
  {
    assert [m][..0] == [];
    assert FragmentRowIs(table, "T04", Used([m], "T04"), Exits([m], "T04"));
  }
}
