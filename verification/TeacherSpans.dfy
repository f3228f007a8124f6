/**
 * From token predictions to character spans: the state machine inside cmd_teach of
 * scripts/collapse_consensus.py, against a declarative description of the spans.
 */
module TeacherSpans {
  import opened Wrappers

  /** The class of a predicted label by its prefix: "B-", "I-", or anything else. */
  datatype Tag = B | I | O

  datatype Token = Token(tag: Tag, start: nat, end: nat)

  /** An entity; its label is the constant "ENT". */
  datatype Span = Span(start: nat, end: nat)

  /** Special tokens of the tokenizer carry the offsets (0, 0). */
  ghost predicate Special(t: Token) {
    t.start == 0 && t.end == 0
  }

  ghost predicate Continues(t: Token) {
    !Special(t) && t.tag == I
  }

  // ----- Which spans a prediction describes -----

  /** The first position at or after k whose token does not continue an entity. */
  ghost function RunEnd(ts: seq<Token>, k: nat): (e: nat)
    requires k <= |ts|
    ensures k <= e <= |ts|
    ensures forall m :: k <= m < e ==> Continues(ts[m])
    ensures e < |ts| ==> !Continues(ts[e])
    decreases |ts| - k
  {
    if k < |ts| && Continues(ts[k]) then RunEnd(ts, k + 1) else k
  }

  /**
   * The token at i opens an entity that is reported: it is a B- token, and the run of I-
   * tokens after it is not cut off by a special token.
   */
  ghost predicate Reported(ts: seq<Token>, i: nat)
    requires i < |ts|
  {
    && !Special(ts[i]) && ts[i].tag == B
    && (RunEnd(ts, i + 1) < |ts| ==> !Special(ts[RunEnd(ts, i + 1)]))
  }

  ghost function SpanAt(ts: seq<Token>, i: nat): Span
    requires i < |ts|
  {
    Span(ts[i].start, ts[RunEnd(ts, i + 1) - 1].end)
  }

  /** The spans of the entities opened before position n, in order. */
  ghost function SpansBefore(ts: seq<Token>, n: nat): seq<Span>
    requires n <= |ts|
  {
    if n == 0 then []
    else SpansBefore(ts, n - 1) + if Reported(ts, n - 1) then [SpanAt(ts, n - 1)] else []
  }

  lemma {:induction false} NothingReported(ts: seq<Token>, a: nat, b: nat)
    requires a <= b <= |ts| && forall k :: a <= k < b ==> !Reported(ts, k)
    ensures SpansBefore(ts, b) == SpansBefore(ts, a)
  {
    if a < b {
      NothingReported(ts, a, b - 1);
    }
  }

  // ----- The state machine -----

  /** Where the scan stands at position i: the entity opened at s is still open, or none is. */
  ghost predicate ScanState(ts: seq<Token>, i: nat, inEntity: bool, entStart: Option<nat>, prevEnd: nat, s: nat, entities: seq<Span>) {
    && i <= |ts|
    && (inEntity ==>
          && s < i && !Special(ts[s]) && ts[s].tag == B
          && entStart == Some(ts[s].start) && prevEnd == ts[i - 1].end && !Special(ts[i - 1])
          && RunEnd(ts, s + 1) == RunEnd(ts, i)
          && entities == SpansBefore(ts, s)
          && (forall k :: s < k < i ==> Continues(ts[k])))
    && (!inEntity ==> entities == SpansBefore(ts, i))
  }

  method TeachSpans(ts: seq<Token>) returns (entities: seq<Span>)
    ensures entities == SpansBefore(ts, |ts|)
  {
    entities := [];
    var inEntity := false;
    var entStart: Option<nat> := None;
    var prevEnd := 0;
    ghost var s := 0;
    for i := 0 to |ts|
      invariant ScanState(ts, i, inEntity, entStart, prevEnd, s, entities)
    {
      ghost var wasOpen, reported := inEntity, entities;
      if ts[i].start == 0 && ts[i].end == 0 {
        inEntity := false;
      } else {
        match ts[i].tag {
          case B =>
            if inEntity && entStart.Some? {
              entities := entities + [Span(entStart.value, prevEnd)];
            }
            inEntity := true;
            entStart := Some(ts[i].start);
          case I =>
          case O =>
            if inEntity && entStart.Some? {
              entities := entities + [Span(entStart.value, prevEnd)];
            }
            inEntity := false;
            entStart := None;
        }
        prevEnd := ts[i].end;
      }
      if wasOpen {
        if !Continues(ts[i]) {
          assert RunEnd(ts, s + 1) == i;
          EntityClosed(ts, s, i, reported);
        }
      }
      if !Special(ts[i]) && ts[i].tag == B {
        s := i;
      }
    }
    if inEntity && entStart.Some? {
      assert RunEnd(ts, s + 1) == |ts|;
      EntityClosed(ts, s, |ts|, entities);
      entities := entities + [Span(entStart.value, ts[|ts| - 1].end)];
    }
  }

  /** Closing the entity opened at s accounts for every position up to the closing one. */
  lemma EntityClosed(ts: seq<Token>, s: nat, i: nat, entities: seq<Span>)
    requires s < i <= |ts| && !Special(ts[s]) && ts[s].tag == B && RunEnd(ts, s + 1) == i
    requires entities == SpansBefore(ts, s) && forall k :: s < k < i ==> Continues(ts[k])
    ensures SpansBefore(ts, i) ==
      entities + if i < |ts| && Special(ts[i]) then [] else [Span(ts[s].start, ts[i - 1].end)]
  {
    NothingReported(ts, s + 1, i);
  }

  // ----- Order and disjointness -----

  /** Offsets of a tokenizer: real tokens come in text order and do not overlap. */
  ghost predicate Monotone(ts: seq<Token>) {
    && (forall i :: 0 <= i < |ts| ==> ts[i].start <= ts[i].end)
    && (forall i, j :: 0 <= i < j < |ts| && !Special(ts[i]) && !Special(ts[j]) ==> ts[i].end <= ts[j].start)
  }

  ghost predicate Disjoint(a: Span, b: Span) {
    a.end <= b.start || b.end <= a.start
  }

  /** Every span ends before the next one starts. */
  ghost predicate Ordered(spans: seq<Span>) {
    && (forall i :: 0 <= i < |spans| ==> spans[i].start <= spans[i].end)
    && (forall i, j :: 0 <= i < j < |spans| ==> spans[i].end <= spans[j].start)
  }

  /** A reported span ends before any later entity opens. */
  lemma SpanBeforeOpening(ts: seq<Token>, i: nat, k: nat)
    requires Monotone(ts) && i < k < |ts| && Reported(ts, i) && Reported(ts, k)
    ensures SpanAt(ts, i).start <= SpanAt(ts, i).end <= ts[k].start
  {
    var e := RunEnd(ts, i + 1);
    assert e <= k;
    assert e - 1 == i || Continues(ts[e - 1]);
  }

  lemma SpanProper(ts: seq<Token>, i: nat)
    requires Monotone(ts) && i < |ts| && Reported(ts, i)
    ensures SpanAt(ts, i).start <= SpanAt(ts, i).end
  {
    var e := RunEnd(ts, i + 1);
    assert e - 1 == i || Continues(ts[e - 1]);
  }

  /** Every reported span comes from a position that reports it. */
  lemma {:induction false} SpanSource(ts: seq<Token>, n: nat, a: Span) returns (i: nat)
    requires n <= |ts| && a in SpansBefore(ts, n)
    ensures i < n && Reported(ts, i) && a == SpanAt(ts, i)
  {
    if a in SpansBefore(ts, n - 1) {
      i := SpanSource(ts, n - 1, a);
    } else {
      i := n - 1;
    }
  }

  /** The spans of one teacher are in text order and do not overlap. */
  lemma {:induction false} TeacherOrdered(ts: seq<Token>, n: nat)
    requires Monotone(ts) && n <= |ts|
    ensures Ordered(SpansBefore(ts, n))
  {
    if n > 0 {
      TeacherOrdered(ts, n - 1);
      if Reported(ts, n - 1) {
        var before, last := SpansBefore(ts, n - 1), SpanAt(ts, n - 1);
        SpanProper(ts, n - 1);
        forall k | 0 <= k < |before| ensures before[k].end <= last.start {
          var i := SpanSource(ts, n - 1, before[k]);
          SpanBeforeOpening(ts, i, n - 1);
        }
        assert SpansBefore(ts, n) == before + [last];
      }
    }
  }

  // ----- A special token at the end -----

  /** The entity opened at s reaches the last token. */
  ghost predicate OpenAtEnd(ts: seq<Token>, s: nat) {
    s < |ts| && !Special(ts[s]) && ts[s].tag == B && RunEnd(ts, s + 1) == |ts|
  }

  lemma {:induction false} RunEndAppend(ts: seq<Token>, t: Token, k: nat)
    requires k <= |ts| && Special(t)
    ensures RunEnd(ts + [t], k) == RunEnd(ts, k)
    decreases |ts| - k
  {
    if k < |ts| && Continues(ts[k]) {
      RunEndAppend(ts, t, k + 1);
    }
  }

  /** Up to position n, a special token at the end changes nothing if no entity before n reaches the end. */
  lemma {:induction false} SpansAppend(ts: seq<Token>, t: Token, n: nat)
    requires n <= |ts| && Special(t) && forall i: nat :: i < n ==> !OpenAtEnd(ts, i)
    ensures SpansBefore(ts + [t], n) == SpansBefore(ts, n)
  {
    if n > 0 {
      SpansAppend(ts, t, n - 1);
      RunEndAppend(ts, t, n);
      assert !OpenAtEnd(ts, n - 1);
    }
  }

  /** Without an open entity, a special token at the end loses nothing. */
  lemma NothingLost(ts: seq<Token>, t: Token)
    requires Special(t) && forall i: nat :: !OpenAtEnd(ts, i)
    ensures SpansBefore(ts + [t], |ts| + 1) == SpansBefore(ts, |ts|)
  {
    SpansAppend(ts, t, |ts|);
  }

  /** The open entity is reported at the end, but not before a special token. */
  lemma OpenReports(ts: seq<Token>, t: Token, s: nat)
    requires Special(t) && OpenAtEnd(ts, s)
    ensures SpansBefore(ts, s + 1) == SpansBefore(ts, s) + [SpanAt(ts, s)]
    ensures SpansBefore(ts + [t], s + 1) == SpansBefore(ts + [t], s)
  {
    RunEndAppend(ts, t, s + 1);
    assert Reported(ts, s) && !Reported(ts + [t], s);
  }

  lemma RunStops(ts: seq<Token>, k: nat, s: nat)
    requires k <= s < |ts| && !Continues(ts[s])
    ensures RunEnd(ts, k) <= s
  {
  }

  /** Tokens that continue an entity report nothing. */
  lemma ContinuedReports(ts: seq<Token>, a: nat, b: nat)
    requires a <= b <= |ts| && forall k :: a <= k < b ==> Continues(ts[k]) || Special(ts[k])
    ensures SpansBefore(ts, b) == SpansBefore(ts, a)
  {
    hide SpansBefore, RunEnd;
    NothingReported(ts, a, b);
  }

  /**
   * A special token at the end, as tokenizers append it, loses the entity that reaches the
   * last real token, and only that one: the code after the loop never reports it.
   */
  lemma LastEntityLost(ts: seq<Token>, t: Token, s: nat)
    requires Special(t) && OpenAtEnd(ts, s)
    ensures SpansBefore(ts, |ts|) == SpansBefore(ts + [t], |ts| + 1) + [SpanAt(ts, s)]
  {
    var all := ts + [t];
    hide SpansBefore, RunEnd, SpanAt;
    OpenReports(ts, t, s);
    forall i: nat | i < s ensures !OpenAtEnd(ts, i) {
      RunStops(ts, i + 1, s);
    }
    SpansAppend(ts, t, s);
    assert forall k :: s < k < |ts| ==> all[k] == ts[k];
    ContinuedReports(ts, s + 1, |ts|);
    ContinuedReports(all, s + 1, |all|);
  }

  /** "New York" at the end of a text is reported only if no special token follows. */
  lemma LostEntityExample()
    ensures var ts := [Token(B, 0, 3), Token(I, 4, 8)];
      && Monotone(ts + [Token(O, 0, 0)])
      && SpansBefore(ts, 2) == [Span(0, 8)] && SpansBefore(ts + [Token(O, 0, 0)], 3) == []
  {
    var ts := [Token(B, 0, 3), Token(I, 4, 8)];
    assert RunEnd(ts, 2) == 2 && RunEnd(ts, 1) == 2;
    assert OpenAtEnd(ts, 0);
    assert SpansBefore(ts, 1) == [Span(0, 8)] && SpansBefore(ts, 2) == [Span(0, 8)];
    LastEntityLost(ts, Token(O, 0, 0), 0);
    assert |SpansBefore(ts + [Token(O, 0, 0)], 3)| == 0;
  }
}
