/**
 * rebuild_escalation_chain of scripts/routing_adjust.py: the learned chain only takes
 * shortcuts along the base chain.
 */
module EscalationChain {
  import opened RoutingAdjust
  import opened RunLedger
  import opened Wrappers

  /** From a family to its escalation target; None is the terminal marker. */
  type ChainMap = map<Family, Option<Family>>

  /** chain.get(f). */
  ghost function Next(chain: ChainMap, f: Family): Option<Family> {
    if f in chain then chain[f] else None
  }

  /** adj.get(key, {}) with the defaults used by the second rule. */
  ghost function RateOr(adj: Adjustments, t: Transition): real {
    if Key(t) in adj then adj[Key(t)].successRate else 0.5
  }

  ghost function TotalOr(adj: Adjustments, t: Transition): nat {
    if Key(t) in adj then adj[Key(t)].total else 0
  }

  ghost predicate ShouldSkip(adj: Adjustments, t: Transition) {
    Key(t) in adj && adj[Key(t)].total >= MIN_TOTAL_RUNS && adj[Key(t)].escalatedRate > 0.8
  }

  ghost predicate ShouldPromote(adj: Adjustments, curr: Transition, skip: Transition) {
    && TotalOr(adj, curr) >= MIN_TOTAL_RUNS && TotalOr(adj, skip) >= MIN_TOTAL_RUNS
    && RateOr(adj, skip) > RateOr(adj, curr) + 0.15
  }

  /** The target after the first rule. */
  ghost function AfterSkip(adj: Adjustments, base: ChainMap, f: Family): Option<Family>
    requires f in base
  {
    if base[f].None? then None
    else if ShouldSkip(adj, (f, base[f].value)) && Next(base, base[f].value).Some? then Next(base, base[f].value)
    else base[f]
  }

  /** The target after both rules. An empty family name is falsy and is never looked up. */
  ghost function Learned(adj: Adjustments, base: ChainMap, f: Family): Option<Family>
    requires f in base
  {
    var t := AfterSkip(adj, base, f);
    if t.None? || t.value == "" || Next(base, t.value).None? then t
    else if ShouldPromote(adj, (f, t.value), (f, Next(base, t.value).value)) then Next(base, t.value)
    else t
  }

  /** The body of the first loop: what the chain says about f afterwards. */
  method SkipTarget(adj: Adjustments, base: ChainMap, f: Family) returns (target: Option<Family>)
    requires f in base
    ensures target == AfterSkip(adj, base, f)
  {
    target := base[f];
    if base[f].None? {
      return;
    }
    var to := base[f].value;
    var key := f + [ARROW] + to;
    if key in adj && adj[key].total >= MIN_TOTAL_RUNS && adj[key].escalatedRate > 0.8 {
      if to in base && base[to].Some? {
        target := base[to];
      }
    }
  }

  /** The body of the second loop, on the target that the first one has left. */
  method PromotedTarget(adj: Adjustments, base: ChainMap, f: Family, current: Option<Family>) returns (target: Option<Family>)
    requires f in base && current == AfterSkip(adj, base, f)
    ensures target == Learned(adj, base, f)
  {
    target := current;
    if current.None? || current.value == "" || current.value !in base || base[current.value].None? {
      return;
    }
    var skip := base[current.value].value;
    var keyCurrent, keySkip := f + [ARROW] + current.value, f + [ARROW] + skip;
    var sc, nc := 0.5, 0;
    if keyCurrent in adj {
      sc, nc := adj[keyCurrent].successRate, adj[keyCurrent].total;
    }
    var ss, ns := 0.5, 0;
    if keySkip in adj {
      ss, ns := adj[keySkip].successRate, adj[keySkip].total;
    }
    if nc >= MIN_TOTAL_RUNS && ns >= MIN_TOTAL_RUNS && ss > sc + 0.15 {
      target := Some(skip);
    }
  }

  method RebuildEscalationChain(adj: Adjustments, base: ChainMap) returns (chain: ChainMap)
    ensures chain.Keys == base.Keys
    ensures forall f :: f in base ==> chain[f] == Learned(adj, base, f)
  {
    hide AfterSkip, Learned;
    chain := base;
    var todo := base.Keys;
    while todo != {}
      invariant todo <= base.Keys && chain.Keys == base.Keys
      invariant forall f :: f in base ==> chain[f] == if f in todo then base[f] else AfterSkip(adj, base, f)
      decreases |todo|
    {
      var f :| f in todo;
      todo := todo - {f};
      var target := SkipTarget(adj, base, f);
      chain := chain[f := target];
    }
    var families := base.Keys;
    while families != {}
      invariant families <= base.Keys && chain.Keys == base.Keys
      invariant forall f :: f in base ==> chain[f] == if f in families then AfterSkip(adj, base, f) else Learned(adj, base, f)
      decreases |families|
    {
      var f :| f in families;
      families := families - {f};
      var target := PromotedTarget(adj, base, f, chain[f]);
      chain := chain[f := target];
    }
  }

  /** The statistics show at least three runs of the transition. */
  ghost predicate Measured(adj: Adjustments, t: Transition) {
    Key(t) in adj && adj[Key(t)].total >= 3
  }

  /** For any statistics, the first rule skips a target exactly if escalations from it to there exceed four in five. */
  lemma SkippedIff(adj: Adjustments, base: ChainMap, f: Family)
    requires f in base && base[f].Some? && Next(base, base[f].value).Some? && Next(base, base[f].value) != base[f]
    ensures var t := (f, base[f].value);
      AfterSkip(adj, base, f) == Next(base, t.1) <==> Measured(adj, t) && 5.0 * adj[Key(t)].escalatedRate > 4.0
  {
  }

  /** For any statistics, the second rule promotes the next target exactly if it is measured to succeed more often. */
  lemma PromotedIff(adj: Adjustments, base: ChainMap, f: Family, target: Family, deeper: Family)
    requires f in base && AfterSkip(adj, base, f) == Some(target) && target != ""
    requires Next(base, target) == Some(deeper) && deeper != target
    ensures Learned(adj, base, f) == Some(deeper) || Learned(adj, base, f) == Some(target)
    ensures Learned(adj, base, f) == Some(deeper) <==>
      && Measured(adj, (f, target)) && Measured(adj, (f, deeper))
      && adj[Key((f, deeper))].successRate - adj[Key((f, target))].successRate > 0.15
  {
  }

  // ----- Shortcuts -----

  /** The chain has no cycle: a rank falls along every link. */
  ghost predicate Acyclic(chain: ChainMap, rank: Family -> nat) {
    forall f :: f in chain && chain[f].Some? ==> rank(chain[f].value) < rank(f)
  }

  /** The family reached after k links, if there is one. */
  ghost function Ahead(chain: ChainMap, f: Family, k: nat): Option<Family>
    decreases k
  {
    if k == 0 then Some(f)
    else if Next(chain, f).None? then None
    else Ahead(chain, Next(chain, f).value, k - 1)
  }

  /** A family with a successor keeps one, which is one, two or three base links ahead. */
  lemma LearnedIsAhead(adj: Adjustments, base: ChainMap, f: Family)
    requires f in base
    ensures Learned(adj, base, f).None? <==> base[f].None?
    ensures base[f].Some? ==>
      exists k :: 1 <= k <= 3 && Ahead(base, f, k) == Learned(adj, base, f)
  {
    if base[f].Some? {
      var one := base[f].value;
      var two := Next(base, one);
      assert Ahead(base, f, 1) == Some(one) by {
        assert Ahead(base, one, 0) == Some(one);
      }
      assert Ahead(base, one, 1) == two;
      assert Ahead(base, f, 2) == two;
      if two.Some? {
        assert Ahead(base, two.value, 1) == Next(base, two.value);
        assert Ahead(base, one, 2) == Next(base, two.value);
        assert Ahead(base, f, 3) == Next(base, two.value);
      }
    }
  }

  /** Where following the chain from f ends. */
  ghost function Terminal(chain: ChainMap, f: Family, rank: Family -> nat): Family
    requires Acyclic(chain, rank)
    decreases rank(f)
  {
    if Next(chain, f).None? then f else Terminal(chain, Next(chain, f).value, rank)
  }

  /** How many escalations that takes. */
  ghost function Hops(chain: ChainMap, f: Family, rank: Family -> nat): nat
    requires Acyclic(chain, rank)
    decreases rank(f)
  {
    if Next(chain, f).None? then 0 else 1 + Hops(chain, Next(chain, f).value, rank)
  }

  lemma {:induction false} AheadSameTerminal(base: ChainMap, f: Family, k: nat, rank: Family -> nat)
    requires Acyclic(base, rank) && Ahead(base, f, k).Some?
    ensures Terminal(base, Ahead(base, f, k).value, rank) == Terminal(base, f, rank)
    ensures Hops(base, f, rank) == k + Hops(base, Ahead(base, f, k).value, rank)
    ensures k > 0 ==> rank(Ahead(base, f, k).value) < rank(f)
    decreases k
  {
    if k > 0 {
      AheadSameTerminal(base, Next(base, f).value, k - 1, rank);
    }
  }

  ghost predicate IsLearned(chain: ChainMap, adj: Adjustments, base: ChainMap) {
    chain.Keys == base.Keys && forall f :: f in base ==> chain[f] == Learned(adj, base, f)
  }

  lemma LearnedAcyclic(chain: ChainMap, adj: Adjustments, base: ChainMap, rank: Family -> nat)
    requires IsLearned(chain, adj, base) && Acyclic(base, rank)
    ensures Acyclic(chain, rank)
  {
    forall f | f in chain && chain[f].Some? ensures rank(chain[f].value) < rank(f) {
      LearnedIsAhead(adj, base, f);
      var k :| 1 <= k <= 3 && Ahead(base, f, k) == chain[f];
      AheadSameTerminal(base, f, k, rank);
    }
  }

  /**
   * For any history, escalation along the learned chain ends at the same family as along
   * the base chain, in no more hops.
   */
  lemma {:induction false} SameTerminalFewerHops(chain: ChainMap, adj: Adjustments, base: ChainMap, rank: Family -> nat, f: Family)
    requires IsLearned(chain, adj, base) && Acyclic(base, rank) && Acyclic(chain, rank)
    ensures Terminal(chain, f, rank) == Terminal(base, f, rank)
    ensures Hops(chain, f, rank) <= Hops(base, f, rank)
    decreases rank(f)
  {
    if f in base {
      LearnedIsAhead(adj, base, f);
      if base[f].Some? {
        var k :| 1 <= k <= 3 && Ahead(base, f, k) == chain[f];
        AheadSameTerminal(base, f, k, rank);
        SameTerminalFewerHops(chain, adj, base, rank, chain[f].value);
      }
    }
  }

  /**
   * With the statistics of recorded runs, the second rule never applies and the first rule
   * applies exactly after three escalations, so that a shortcut is exactly one link, provided
   * that no recorded transition shares a joined name with one from f.
   */
  lemma LearnedFromHistory(routing: Routing, h: seq<Metrics>, adj: Adjustments, base: ChainMap, rank: Family -> nat, f: Family)
    requires RoutingMatches(routing, h) && DerivedFrom(adj, routing) && Acyclic(base, rank) && f in base
    requires forall to: Family :: Unambiguous(routing, (f, to))
    ensures base[f].Some? ==>
      var to := base[f].value;
      Learned(adj, base, f) ==
        if Escalated(h, (f, to)) >= 3 && Next(base, to).Some? then Next(base, to) else base[f]
  {
    hide Key, Unambiguous, DerivedFrom, RoutingMatches;
    if base[f].Some? {
      var to := base[f].value;
      assert rank(to) < rank(f);
      OutcomeOfTransition(routing, h, adj, (f, to));
      var t := AfterSkip(adj, base, f);
      assert rank(t.value) < rank(f);
      if Next(base, t.value).Some? {
        var skip := Next(base, t.value).value;
        assert rank(skip) < rank(f);
        OutcomeOfTransition(routing, h, adj, (f, t.value));
        OutcomeOfTransition(routing, h, adj, (f, skip));
      }
    }
  }

  /** What is known about a transition between different families. */
  lemma OutcomeOfTransition(routing: Routing, h: seq<Metrics>, adj: Adjustments, t: Transition)
    requires RoutingMatches(routing, h) && DerivedFrom(adj, routing) && Unambiguous(routing, t) && t.0 != t.1
    ensures Key(t) in adj <==> Escalated(h, t) > 0
    ensures Key(t) in adj ==> adj[Key(t)] == Stats(0.0, 1.0, 1.0, Escalated(h, t))
  {
    OwnStatistics(adj, routing, t);
    hide Key, Unambiguous, DerivedFrom;
    assert RowIs(routing, t, Successes(h, t), Escalated(h, t));
    if t in routing {
      RateInUnit(routing[t].escalated, routing[t].failure);
      RateInUnit(0, routing[t].failure);
    }
  }

  /** The recorded escalations of ("a->b", "c"), with the joining arrow for "->". */
  ghost function Crossed(): Routing {
    map[(Key(("a", "b")), "c") := Counts(0, 3, 3)]
  }

  /**
   * With an arrow in a family name the statistics of another transition are found: "a" has
   * never escalated, but skips its target.
   */
  lemma SharedNameExample(h: seq<Metrics>, adj: Adjustments)
    requires RoutingMatches(Crossed(), h) && DerivedFrom(adj, Crossed())
    ensures var target := Key(("b", "c"));
      && Escalated(h, ("a", target)) == 0
      && Learned(adj, map["a" := Some(target), target := Some("d"), "d" := None], "a") == Some("d")
  {
    var target, other := Key(("b", "c")), (Key(("a", "b")), "c");
    assert |other.0| == 3;
    assert RowIs(Crossed(), ("a", target), Successes(h, ("a", target)), Escalated(h, ("a", target)));
    CrossedStatistics(adj);
    assert "d" != target by {
      assert |target| == 3;
    }
    hide Key, RoutingMatches, DerivedFrom;
  }

  lemma CrossedStatistics(adj: Adjustments)
    requires DerivedFrom(adj, Crossed())
    ensures var k := Key(("a", Key(("b", "c"))));
      k in adj && adj[k] == Stats(0.0, 1.0, 1.0, 3)
  {
    hide *;
    CrossedRow();
    SharedKey();
    ThreeEscalations();
    OwnStatistics(adj, Crossed(), (Key(("a", "b")), "c"));
  }

  lemma CrossedRow()
    ensures var other := (Key(("a", "b")), "c");
      Unambiguous(Crossed(), other) && HasOutcomes(Crossed(), other) && Crossed()[other] == Counts(0, 3, 3)
  {
    hide Key;
  }

  lemma SharedKey()
    ensures Key(("a", Key(("b", "c")))) == Key((Key(("a", "b")), "c"))
  {
    assert "a" + [ARROW] + ("b" + [ARROW] + "c") == "a" + [ARROW] + "b" + [ARROW] + "c";
  }

  lemma ThreeEscalations()
    ensures StatsOf(Counts(0, 3, 3)) == Stats(0.0, 1.0, 1.0, 3)
  {
  }

  /** A single run with three escalations from "a->b" to "c" leaves that table. */
  lemma CrossedReachable() returns (h: seq<Metrics>)
    ensures RoutingMatches(Crossed(), h)
  {
    var e := Escalation(Some(Key(("a", "b"))), Some("c"));
    var m := Metrics(None, false, None, None, Copies(e, 3), Missing);
    assert RoutingMatches(map[], []);
    hide RoutingMatches;
    EscalatedRun(map[], [], m, e, 3);
    h := [] + [m];
    assert map[][TransitionOf(e) := Counts(0, 3, 3)] == Crossed();
  }
}
