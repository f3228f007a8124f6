/**
 * Weights derived from the routing table: get_routing_adjustments of
 * scripts/akai_memory.py with compute_adjustments of scripts/routing_adjust.py, over
 * exact real numbers.
 */
module RoutingAdjust {
  import opened Reals
  import opened RunLedger
  import opened Wrappers

  const WEIGHT_SCALE: real := 0.3
  const MIN_TOTAL_RUNS: nat := 3
  const MAX_BOOST: real := 2.0
  const MIN_WEIGHT: real := 0.05

  datatype Stats = Stats(successRate: real, failureRate: real, escalatedRate: real, total: nat)

  type Adjustments = map<string, Stats>

  // ----- Joined names -----

  /** The arrow that joins the two families of a transition. */
  const ARROW: char := '\U{2192}'

  ghost function Key(t: Transition): string {
    t.0 + [ARROW] + t.1
  }

  /** The source of u starts with that of t and an arrow, and the target of t makes up for the rest. */
  ghost predicate SplitLater(t: Transition, u: Transition) {
    exists x: string :: u.0 == Key((t.0, x)) && t.1 == Key((x, u.1))
  }

  /** Different transitions share a joined name exactly if one splits it at a later arrow than the other. */
  lemma SameKeyIff(t: Transition, u: Transition)
    ensures Key(t) == Key(u) <==> t == u || SplitLater(t, u) || SplitLater(u, t)
  {
    if Key(t) == Key(u) {
      if |t.0| < |u.0| {
        SplitAt(t, u);
      } else if |u.0| < |t.0| {
        SplitAt(u, t);
      } else {
        assert t.0 == Key(t)[..|t.0|] == Key(u)[..|t.0|] == u.0;
        assert t.1 == Key(t)[|t.0| + 1..] == Key(u)[|t.0| + 1..] == u.1;
      }
    }
    if SplitLater(t, u) {
      JoinAgain(t, u);
    }
    if SplitLater(u, t) {
      JoinAgain(u, t);
    }
  }

  lemma SplitAt(t: Transition, u: Transition)
    requires Key(t) == Key(u) && |t.0| < |u.0|
    ensures SplitLater(t, u)
  {
    var k, x := Key(t), u.0[|t.0| + 1..];
    assert u.0 == k[..|u.0|] && t.0 == k[..|t.0|] && k[|t.0|] == ARROW;
    assert u.0 == u.0[..|t.0|] + [u.0[|t.0|]] + x == Key((t.0, x));
    assert t.1 == k[|t.0| + 1..] && u.1 == k[|u.0| + 1..] && k[|u.0|] == ARROW;
    assert t.1 == Key((x, u.1));
  }

  lemma JoinAgain(t: Transition, u: Transition)
    requires SplitLater(t, u)
    ensures Key(t) == Key(u)
  {
    var x: string :| u.0 == Key((t.0, x)) && t.1 == Key((x, u.1));
    assert t.0 + [ARROW] + (x + [ARROW] + u.1) == (t.0 + [ARROW] + x) + [ARROW] + u.1;
  }

  /** No other recorded transition has the joined name of t. */
  ghost predicate Unambiguous(routing: Routing, t: Transition) {
    forall u :: u in routing && Key(u) == Key(t) ==> u == t
  }

  /** Sources without an arrow keep all joined names apart. */
  lemma ArrowFreeUnambiguous(routing: Routing, t: Transition)
    requires ARROW !in t.0 && forall u :: u in routing ==> ARROW !in u.0
    ensures Unambiguous(routing, t)
  {
    forall u | u in routing && Key(u) == Key(t) ensures u == t {
      SameKeyIff(t, u);
      ArrowInSource(t, u);
      ArrowInSource(u, t);
    }
  }

  lemma ArrowInSource(t: Transition, u: Transition)
    ensures SplitLater(t, u) ==> ARROW in u.0
  {
    if x: string :| u.0 == Key((t.0, x)) && t.1 == Key((x, u.1)) {
      assert u.0[|t.0|] == ARROW;
    }
  }

  // ----- get_routing_adjustments -----

  ghost function StatsOf(c: Counts): Stats
    requires c.success + c.failure > 0
  {
    var total := c.success + c.failure;
    Stats(c.success as real / total as real, c.failure as real / total as real, c.escalated as real / total as real, total)
  }

  ghost predicate HasOutcomes(routing: Routing, t: Transition) {
    t in routing && routing[t].success + routing[t].failure > 0
  }

  /** The names of the rows with outcomes, with the rates of one of the rows of that name. */
  ghost predicate DerivedFrom(adj: Adjustments, routing: Routing) {
    && (forall t :: HasOutcomes(routing, t) ==> Key(t) in adj)
    && (forall k :: k in adj ==> exists t :: HasOutcomes(routing, t) && Key(t) == k && adj[k] == StatsOf(routing[t]))
  }

  method GetRoutingAdjustments(mem: AkaiMemory) returns (result: Adjustments)
    ensures DerivedFrom(result, mem.routing)
  {
    result := map[];
    var todo := mem.routing.Keys;
    while todo != {}
      invariant todo <= mem.routing.Keys
      invariant forall t :: HasOutcomes(mem.routing, t) && t !in todo ==> Key(t) in result
      invariant forall k :: k in result ==>
        exists t :: HasOutcomes(mem.routing, t) && Key(t) == k && result[k] == StatsOf(mem.routing[t])
      decreases |todo|
    {
      var t :| t in todo;
      todo := todo - {t};
      var c := mem.routing[t];
      var total := c.success + c.failure;
      if total != 0 {
        var key := t.0 + [ARROW] + t.1;
        var n := total as real;
        var stats := Stats(c.success as real / n, c.failure as real / n, c.escalated as real / n, total);
        assert HasOutcomes(mem.routing, t) && key == Key(t) && stats == StatsOf(c);
        hide Key, StatsOf;
        result := result[key := stats];
      }
    }
  }

  /** A transition with a name of its own finds its own statistics under that name. */
  lemma OwnStatistics(adj: Adjustments, routing: Routing, t: Transition)
    requires DerivedFrom(adj, routing) && Unambiguous(routing, t)
    ensures Key(t) in adj <==> HasOutcomes(routing, t)
    ensures Key(t) in adj ==> adj[Key(t)] == StatsOf(routing[t])
  {
    hide Key, StatsOf;
    if Key(t) in adj {
      var u :| HasOutcomes(routing, u) && Key(u) == Key(t) && adj[Key(t)] == StatsOf(routing[u]);
    }
  }

  // ----- compute_adjustments -----

  ghost function Unclamped(s: Stats): real {
    1.0 + (s.successRate * (1.0 - s.escalatedRate) - 0.5) * 2.0 * WEIGHT_SCALE
  }

  ghost function Clamp(m: real): (r: real)
    ensures MIN_WEIGHT <= r <= MAX_BOOST
    ensures MIN_WEIGHT <= m <= MAX_BOOST ==> r == m
  {
    var floored := if m >= MIN_WEIGHT then m else MIN_WEIGHT;
    if floored <= MAX_BOOST then floored else MAX_BOOST
  }

  /** Exactly the statistics of enough runs have a multiplier, which is clamped. */
  ghost predicate MultipliersOf(multipliers: map<string, real>, adj: Adjustments) {
    && (forall k :: k in multipliers <==> k in adj && adj[k].total >= MIN_TOTAL_RUNS)
    && (forall k :: k in multipliers ==> multipliers[k] == Clamp(Unclamped(adj[k])))
  }

  /** The arithmetic of the loop body: centred around 1, then capped and floored. */
  method MultiplierOf(s: Stats) returns (m: real)
    ensures m == Clamp(Unclamped(s))
  {
    var raw := s.successRate * (1.0 - s.escalatedRate);
    m := 1.0 + (raw - 0.5) * 2.0 * WEIGHT_SCALE;
    m := if m >= MIN_WEIGHT then m else MIN_WEIGHT;
    m := if m <= MAX_BOOST then m else MAX_BOOST;
  }

  method ComputeAdjustments(adj: Adjustments) returns (multipliers: map<string, real>)
    ensures MultipliersOf(multipliers, adj)
  {
    hide Unclamped, Clamp;
    multipliers := map[];
    var todo := adj.Keys;
    while todo != {}
      invariant todo <= adj.Keys
      invariant forall k :: k in multipliers <==> k in adj.Keys - todo && adj[k].total >= MIN_TOTAL_RUNS
      invariant forall k :: k in multipliers ==> multipliers[k] == Clamp(Unclamped(adj[k]))
      decreases |todo|
    {
      var k :| k in todo;
      todo := todo - {k};
      if adj[k].total >= MIN_TOTAL_RUNS {
        var m := MultiplierOf(adj[k]);
        multipliers := multipliers[k := m];
      }
    }
  }

  /** Counts that any sequence of calls of update_routing_weight can leave in a row. */
  ghost predicate Sane(c: Counts) {
    c.escalated <= c.success + c.failure
  }

  lemma UpdatesStaySane(before: Routing, after: Routing, o: Outcome)
    requires Counted(before, after, o) && forall t :: t in before ==> Sane(before[t])
    ensures forall t :: t in after ==> Sane(after[t])
  {
    assert o.transition in before ==> Sane(before[o.transition]);
  }

  lemma RateInUnit(a: nat, b: nat)
    requires b > 0 && a <= b
    ensures 0.0 <= a as real / b as real <= 1.0
    ensures a == 0 ==> a as real / b as real == 0.0
    ensures a == b ==> a as real / b as real == 1.0
  {
    QuotientInUnit(a as real, b as real);
  }

  lemma QuotientInUnit(x: real, y: real)
    requires 0.0 <= x <= y && y > 0.0
    ensures 0.0 <= x / y <= 1.0 && (x == 0.0 ==> x / y == 0.0) && (x == y ==> x / y == 1.0)
  {
    var q := x / y;
    assert q * y == x;
    if q > 1.0 {
      ProductPositive(q - 1.0, y);
    }
  }

  lemma ProductInUnit(p: real, q: real)
    requires 0.0 <= p <= 1.0 && 0.0 <= q <= 1.0
    ensures 0.0 <= p * q <= 1.0
  {
    ProductNonNegative(p, q);
    ProductNonNegative(1.0 - p, q);
  }

  lemma UnclampedRange(s: Stats)
    requires 0.0 <= s.successRate <= 1.0 && 0.0 <= s.escalatedRate <= 1.0
    ensures 1.0 - WEIGHT_SCALE <= Unclamped(s) <= 1.0 + WEIGHT_SCALE
  {
    ProductInUnit(s.successRate, 1.0 - s.escalatedRate);
  }

  /** No multiplier is clamped: all lie between 0.7 and 1.3. */
  lemma MultiplierRange(c: Counts)
    requires Sane(c) && c.success + c.failure > 0
    ensures 0.7 <= Unclamped(StatsOf(c)) <= 1.3
    ensures Clamp(Unclamped(StatsOf(c))) == Unclamped(StatsOf(c))
  {
    var total := c.success + c.failure;
    RateInUnit(c.success, total);
    RateInUnit(c.escalated, total);
    hide Unclamped;
    UnclampedRange(StatsOf(c));
  }

  /** The row of a transition in a recorded store gives 0.7 between different families, and 1.3 for a settled one. */
  lemma RowMultiplier(routing: Routing, h: seq<Metrics>, t: Transition)
    requires RoutingMatches(routing, h) && t in routing
    ensures Sane(routing[t]) && routing[t].success + routing[t].failure == Successes(h, t) + Escalated(h, t) > 0
    ensures t.0 != t.1 ==> Clamp(Unclamped(StatsOf(routing[t]))) == 0.7
    ensures t.0 == t.1 && Escalated(h, t) == 0 ==> Clamp(Unclamped(StatsOf(routing[t]))) == 1.3
  {
    assert RowIs(routing, t, Successes(h, t), Escalated(h, t));
    var c := routing[t];
    RateInUnit(c.escalated, c.success + c.failure);
    RateInUnit(c.success, c.success + c.failure);
    var sr, er := StatsOf(c).successRate, StatsOf(c).escalatedRate;
    if t.0 != t.1 {
      assert sr == 0.0 && er == 1.0;
      assert sr * (1.0 - er) == 0.0;
    } else if Escalated(h, t) == 0 {
      assert sr == 1.0 && er == 0.0;
      assert sr * (1.0 - er) == 1.0;
    }
  }

  /** After any recorded runs, every listed multiplier lies in [0.7, 1.3], and the clamp has not acted. */
  lemma ListedRange(multipliers: map<string, real>, adj: Adjustments, routing: Routing, h: seq<Metrics>, k: string)
    requires RoutingMatches(routing, h) && DerivedFrom(adj, routing) && MultipliersOf(multipliers, adj)
    ensures k in adj ==> 0.7 <= Unclamped(adj[k]) <= 1.3 && Clamp(Unclamped(adj[k])) == Unclamped(adj[k])
    ensures k in multipliers ==> 0.7 <= multipliers[k] == Unclamped(adj[k]) <= 1.3
  {
    hide Key, StatsOf, Unclamped, Clamp, RoutingMatches;
    if k in adj {
      var t :| HasOutcomes(routing, t) && Key(t) == k && adj[k] == StatsOf(routing[t]);
      RowMultiplier(routing, h, t);
      MultiplierRange(routing[t]);
    }
  }

  /**
   * After any recorded runs, a transition with a joined name of its own has a multiplier
   * exactly if it was charged three times. Between different families it is always 0.7, and
   * for a family to itself it is 1.3 unless the family was recorded as escalating to itself.
   */
  lemma LearnedMultipliers(multipliers: map<string, real>, adj: Adjustments, routing: Routing, h: seq<Metrics>, t: Transition)
    requires RoutingMatches(routing, h) && DerivedFrom(adj, routing) && MultipliersOf(multipliers, adj)
    requires Unambiguous(routing, t)
    ensures Key(t) in multipliers <==> Successes(h, t) + Escalated(h, t) >= MIN_TOTAL_RUNS
    ensures Key(t) in multipliers && t.0 != t.1 ==> multipliers[Key(t)] == 0.7
    ensures Key(t) in multipliers && t.0 == t.1 && Escalated(h, t) == 0 ==> multipliers[Key(t)] == 1.3
  {
    OwnStatistics(adj, routing, t);
    assert RowIs(routing, t, Successes(h, t), Escalated(h, t));
    hide Key, Unclamped, Clamp, RoutingMatches, Unambiguous, DerivedFrom;
    if t in routing {
      RowMultiplier(routing, h, t);
    }
  }

  // ----- A shared name -----

  /** Joined families "a->b" to themselves, and "a" to "b->a->b": both names read a->b->a->b. */
  ghost function Settler(): Transition {
    (Key(("a", "b")), Key(("a", "b")))
  }

  ghost function Escaper(): Transition {
    ("a", Key(("b", Key(("a", "b")))))
  }

  ghost function RunsSharing(): seq<Metrics> {
    var settled := Metrics(Some(Settler().0), false, None, None, [], Missing);
    var escaped := Metrics(None, false, None, None, Copies(Escalation(Some(Escaper().0), Some(Escaper().1)), 3), Missing);
    [settled, settled, settled, escaped]
  }

  /**
   * Without a name of its own, a transition between different families can find the
   * multiplier 1.3: three settled runs of "a->b" and three escalations from "a".
   */
  lemma SharedMultiplierExample() returns (routing: Routing, adj: Adjustments)
    ensures RoutingMatches(routing, RunsSharing()) && DerivedFrom(adj, routing)
    ensures Escaper().0 != Escaper().1 && Escalated(RunsSharing(), Escaper()) == 3
    ensures forall multipliers :: MultipliersOf(multipliers, adj) ==>
      Key(Escaper()) in multipliers && multipliers[Key(Escaper())] == 1.3
  {
    var first := map[Settler() := Counts(3, 0, 0)];
    routing := first[Escaper() := Counts(0, 3, 3)];
    SharingReachable();
    var k := Key(Settler());
    assert Key(Escaper()) == k by {
      JoinAgain(Escaper(), Settler());
    }
    adj := map[k := StatsOf(Counts(3, 0, 0))];
    assert HasOutcomes(routing, Settler());
    assert Unclamped(adj[k]) == 1.3;
  }

  lemma SharingReachable()
    ensures RoutingMatches(map[Settler() := Counts(3, 0, 0)][Escaper() := Counts(0, 3, 3)], RunsSharing())
    ensures Escalated(RunsSharing(), Escaper()) == 3
  {
    var settled, escaped := RunsSharing()[0], RunsSharing()[3];
    var t := Settler();
    var e := Escalation(Some(Escaper().0), Some(Escaper().1));
    assert |t.0| == 3 && |Escaper().0| == 1;
    assert RoutingMatches(map[], []);
    hide RoutingMatches, Key;
    SettledAgain(map[], [], settled, 0);
    SettledAgain(map[t := Counts(1, 0, 0)], [] + [settled], settled, 1);
    SettledAgain(map[t := Counts(2, 0, 0)], [] + [settled] + [settled], settled, 2);
    var h := [] + [settled] + [settled] + [settled];
    assert map[t := Counts(2, 0, 0)][t := Counts(3, 0, 0)] == map[t := Counts(3, 0, 0)];
    assert map[t := Counts(1, 0, 0)][t := Counts(2, 0, 0)] == map[t := Counts(2, 0, 0)];
    EscalatedRun(map[t := Counts(3, 0, 0)], h, escaped, e, 3);
    assert h + [escaped] == RunsSharing();
    EscaperCounted(map[t := Counts(3, 0, 0)][Escaper() := Counts(0, 3, 3)]);
  }

  lemma EscaperCounted(routing: Routing)
    requires RoutingMatches(routing, RunsSharing()) && Escaper() in routing && routing[Escaper()] == Counts(0, 3, 3)
    ensures Escalated(RunsSharing(), Escaper()) == 3
  {
    assert RowIs(routing, Escaper(), Successes(RunsSharing(), Escaper()), Escalated(RunsSharing(), Escaper()));
  }
}
