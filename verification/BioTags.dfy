/**
 * From merged spans to token labels: the span part of load_consensus in
 * scripts/collapse_train.py, and the whole labelling pipeline from teacher
 * predictions to BIO tags.
 */
module BioTags {
  import opened ConsensusVote
  import opened TeacherSpans
  import opened Wrappers

  // ----- Words of a text -----

  /** str.split(): maximal runs of characters that are not white space. */
  function Split(text: string, space: char -> bool): (words: seq<string>)
    ensures text != [] && !space(text[|text| - 1]) ==> words != []
  {
    if text == [] then []
    else
      var init, c := text[..|text| - 1], text[|text| - 1];
      var words := Split(init, space);
      if space(c) then words
      else if init == [] || space(init[|init| - 1]) then words + [[c]]
      else words[..|words| - 1] + [words[|words| - 1] + [c]]
  }

  /** text[:k], which Python cuts at the end of the text. */
  function Prefix(text: string, k: nat): string {
    text[..if k <= |text| then k else |text|]
  }

  function WordsBefore(text: string, space: char -> bool, k: nat): nat {
    |Split(Prefix(text, k), space)|
  }

  /** Prefix word counts are monotone and never exceed the number of words. */
  lemma {:induction false} WordsMonotone(text: string, space: char -> bool, j: nat, k: nat)
    requires j <= k
    ensures WordsBefore(text, space, j) <= WordsBefore(text, space, k) <= |Split(text, space)|
    decreases k - j, if k < |text| then |text| - k else 0
  {
    assert text[..|text|] == text;
    if j < k {
      WordsMonotone(text, space, j, k - 1);
      if k <= |text| {
        assert Prefix(text, k)[..k - 1] == Prefix(text, k - 1);
        WordsGrow(text, space, k);
      }
    } else {
      WordsGrow(text, space, k);
    }
  }

  lemma {:induction false} WordsGrow(text: string, space: char -> bool, k: nat)
    ensures WordsBefore(text, space, k) <= |Split(text, space)|
    decreases if k < |text| then |text| - k else 0
  {
    assert text[..|text|] == text;
    if k < |text| {
      WordsGrow(text, space, k + 1);
      assert Prefix(text, k + 1)[..k] == Prefix(text, k);
    }
  }

  // ----- Ranges -----

  datatype Range = Range(start: nat, end: nat)

  /** The token range of a span; the loop also cuts it at the number of tokens. */
  ghost function TokenRange(text: string, space: char -> bool, sp: Span): Range {
    var n := |Split(text, space)|;
    var tend := WordsBefore(text, space, sp.end);
    Range(WordsBefore(text, space, sp.start), if tend <= n then tend else n)
  }

  // ----- Which words a range holds -----

  /** A word starts at position p: a character that is not white space, after none that is part of a word. */
  ghost predicate StartsWord(text: string, space: char -> bool, p: nat) {
    p < |text| && !space(text[p]) && (p == 0 || space(text[p - 1]))
  }

  /** The number of words that start before position k. */
  ghost function Starts(text: string, space: char -> bool, k: nat): nat {
    if k == 0 then 0 else Starts(text, space, k - 1) + if StartsWord(text, space, k - 1) then 1 else 0
  }

  /** Splitting a prefix counts the words that start in it. */
  lemma {:induction false} WordsAreStarts(text: string, space: char -> bool, k: nat)
    ensures WordsBefore(text, space, k) == Starts(text, space, k)
  {
    if k > 0 {
      WordsAreStarts(text, space, k - 1);
      if k <= |text| {
        assert Prefix(text, k)[..k - 1] == Prefix(text, k - 1);
      }
    }
  }

  lemma {:induction false} StartsMonotone(text: string, space: char -> bool, j: nat, k: nat)
    requires j <= k
    ensures Starts(text, space, j) <= Starts(text, space, k)
  {
    if j < k {
      StartsMonotone(text, space, j, k - 1);
    }
  }

  /** The word with number i starts at some position. */
  lemma {:induction false} FindStart(text: string, space: char -> bool, lo: nat, hi: nat, i: nat) returns (p: nat)
    requires Starts(text, space, lo) <= i < Starts(text, space, hi)
    ensures lo <= p < hi && StartsWord(text, space, p) && Starts(text, space, p) == i
    decreases hi
  {
    if hi <= lo {
      StartsMonotone(text, space, hi, lo);
    } else if i < Starts(text, space, hi - 1) {
      p := FindStart(text, space, lo, hi - 1, i);
    } else {
      p := hi - 1;
    }
  }

  /** If no word starts from lo to a character of a word at p, that word starts before lo. */
  lemma {:induction false} RunningWord(text: string, space: char -> bool, lo: nat, p: nat)
    requires lo <= p < |text| && !space(text[p]) && Starts(text, space, p + 1) == Starts(text, space, lo)
    ensures lo > 0 && !space(text[lo]) && !space(text[lo - 1])
    decreases p
  {
    StartsMonotone(text, space, lo, p);
    if lo < p {
      RunningWord(text, space, lo, p - 1);
    }
  }

  /** A character of the word with number i lies in the span. */
  ghost predicate Touches(text: string, space: char -> bool, sp: Span, i: nat) {
    exists p: nat :: sp.start <= p < sp.end && p < |text| && !space(text[p]) && Starts(text, space, p + 1) == i + 1
  }

  /** The span starts strictly inside a word. */
  ghost predicate StartsInside(text: string, space: char -> bool, sp: Span) {
    sp.start < sp.end && 0 < sp.start < |text| && !space(text[sp.start - 1]) && !space(text[sp.start])
  }

  ghost predicate InRange(r: Range, i: nat) {
    r.start <= i < r.end
  }

  lemma RangeStarts(text: string, space: char -> bool, sp: Span)
    ensures TokenRange(text, space, sp) == Range(Starts(text, space, sp.start), Starts(text, space, sp.end))
  {
    hide Split;
    WordsAreStarts(text, space, sp.start);
    WordsAreStarts(text, space, sp.end);
    WordsGrow(text, space, sp.end);
  }

  /** A word of the range touches the span. */
  lemma RangeTouches(text: string, space: char -> bool, sp: Span, i: nat)
    requires InRange(TokenRange(text, space, sp), i)
    ensures Touches(text, space, sp, i)
  {
    hide TokenRange, Starts;
    RangeStarts(text, space, sp);
    var p := FindStart(text, space, sp.start, sp.end, i);
    StartCounts(text, space, p);
  }

  lemma StartCounts(text: string, space: char -> bool, p: nat)
    ensures Starts(text, space, p + 1) == Starts(text, space, p) + if StartsWord(text, space, p) then 1 else 0
  {
  }

  /** A touched word is in the range, unless the span starts inside it. */
  lemma TouchedInRange(text: string, space: char -> bool, sp: Span, i: nat)
    requires Touches(text, space, sp, i)
    ensures var r := TokenRange(text, space, sp);
      InRange(r, i) || (StartsInside(text, space, sp) && i + 1 == r.start)
  {
    hide TokenRange, Starts;
    RangeStarts(text, space, sp);
    var p: nat :| sp.start <= p < sp.end && p < |text| && !space(text[p]) && Starts(text, space, p + 1) == i + 1;
    StartsMonotone(text, space, p + 1, sp.end);
    StartsMonotone(text, space, sp.start, p + 1);
    if Starts(text, space, p + 1) == Starts(text, space, sp.start) {
      RunningWord(text, space, sp.start, p);
    }
  }

  /** The word that a span starts inside is touched, but comes before the range. */
  lemma CutWordLost(text: string, space: char -> bool, sp: Span)
    requires StartsInside(text, space, sp)
    ensures var r := TokenRange(text, space, sp);
      r.start > 0 && Touches(text, space, sp, r.start - 1) && !InRange(r, r.start - 1)
  {
    hide TokenRange, Starts;
    RangeStarts(text, space, sp);
    StartCounts(text, space, sp.start);
    WordHasStart(text, space, sp.start - 1);
  }

  lemma {:induction false} WordHasStart(text: string, space: char -> bool, p: nat)
    requires p < |text| && !space(text[p])
    ensures Starts(text, space, p + 1) > 0
  {
    if !StartsWord(text, space, p) {
      WordHasStart(text, space, p - 1);
    }
  }

  /** The range holds exactly the words that the span touches if and only if the span does not start inside a word. */
  lemma RangeExactIff(text: string, space: char -> bool, sp: Span)
    ensures (forall i: nat :: InRange(TokenRange(text, space, sp), i) <==> Touches(text, space, sp, i))
      <==> !StartsInside(text, space, sp)
  {
    hide TokenRange, Touches, StartsInside, InRange;
    if StartsInside(text, space, sp) {
      CutWordLost(text, space, sp);
    } else {
      forall i: nat ensures InRange(TokenRange(text, space, sp), i) <==> Touches(text, space, sp, i) {
        if InRange(TokenRange(text, space, sp), i) {
          RangeTouches(text, space, sp, i);
        }
        if Touches(text, space, sp, i) {
          TouchedInRange(text, space, sp, i);
        }
      }
    }
  }

  /** In "(Jo Li)" the span of "Jo" starts after the bracket, and its range is empty. */
  lemma CutWordExample(space: char -> bool)
    requires forall c :: space(c) <==> c == ' '
    ensures TokenRange("(Jo Li)", space, Span(1, 3)) == Range(1, 1)
  {
    RangeStarts("(Jo Li)", space, Span(1, 3));
    assert Starts("(Jo Li)", space, 1) == 1;
  }

  // ----- Painting -----

  /** The labels after one span has overwritten its range. */
  ghost function Paint(bio: seq<Tag>, r: Range): (b: seq<Tag>)
    ensures |b| == |bio|
    ensures forall i :: 0 <= i < |bio| ==> b[i] == if r.start <= i < r.end then if i == r.start then B else I else bio[i]
  {
    seq(|bio|, i requires 0 <= i < |bio| => if r.start <= i < r.end then if i == r.start then B else I else bio[i])
  }

  /** The labels after all spans, later spans overwriting earlier ones. */
  ghost function PaintAll(n: nat, ranges: seq<Range>): (b: seq<Tag>)
    ensures |b| == n
  {
    if ranges == [] then seq(n, _ => O) else Paint(PaintAll(n, ranges[..|ranges| - 1]), ranges[|ranges| - 1])
  }

  ghost function Ranges(text: string, space: char -> bool, spans: seq<Span>): (rs: seq<Range>)
    ensures |rs| == |spans| && forall i :: 0 <= i < |rs| ==> rs[i] == TokenRange(text, space, spans[i])
  {
    seq(|spans|, i requires 0 <= i < |spans| => TokenRange(text, space, spans[i]))
  }

  /** The inner loop for one span. */
  method PaintInPlace(bio: array<Tag>, tstart: nat, stop: nat)
    requires stop <= bio.Length
    modifies bio
    ensures bio[..] == Paint(old(bio[..]), Range(tstart, stop))
  {
    ghost var before := bio[..];
    var ti := tstart;
    while ti < stop
      invariant tstart <= ti && (ti <= stop || ti == tstart)
      invariant forall i :: 0 <= i < bio.Length ==>
        bio[i] == if tstart <= i < ti then if i == tstart then B else I else before[i]
    {
      bio[ti] := if ti == tstart then B else I;
      ti := ti + 1;
    }
    assert bio[..] == Paint(before, Range(tstart, stop));
  }

  /** The span loop of load_consensus for one record; a text without words yields no labels. */
  method TagSpans(text: string, space: char -> bool, spans: seq<Span>) returns (bio: array<Tag>)
    ensures bio[..] == PaintAll(|Split(text, space)|, Ranges(text, space, spans))
  {
    hide Split, Paint;
    var n := |Split(text, space)|;
    bio := new Tag[n](_ => O);
    ghost var ranges := Ranges(text, space, spans);
    assert ranges[..0] == [];
    for k := 0 to |spans|
      invariant bio[..] == PaintAll(n, ranges[..k])
    {
      var tstart := WordsBefore(text, space, spans[k].start);
      var tend := WordsBefore(text, space, spans[k].end);
      var stop := if tend <= n then tend else n;
      PaintInPlace(bio, tstart, stop);
      assert ranges[k] == Range(tstart, stop);
      assert ranges[..k + 1][..k] == ranges[..k];
    }
    assert ranges[..|spans|] == ranges;
  }

  // ----- Reading labels back -----

  /** The first position at or after k that is not labelled I. */
  ghost function RunOfI(bio: seq<Tag>, k: nat): (e: nat)
    requires k <= |bio|
    ensures k <= e <= |bio| && (forall m :: k <= m < e ==> bio[m] == I) && (e < |bio| ==> bio[e] != I)
    decreases |bio| - k
  {
    if k < |bio| && bio[k] == I then RunOfI(bio, k + 1) else k
  }

  /** The entities that start before n: each B with the run of I after it. */
  ghost function DecodeBefore(bio: seq<Tag>, n: nat): seq<Range>
    requires n <= |bio|
  {
    if n == 0 then []
    else DecodeBefore(bio, n - 1) + if bio[n - 1] == B then [Range(n - 1, RunOfI(bio, n))] else []
  }

  ghost function Decode(bio: seq<Tag>): seq<Range> {
    DecodeBefore(bio, |bio|)
  }

  /** No I without a B or I before it. */
  ghost predicate WellFormed(bio: seq<Tag>) {
    forall i :: 0 <= i < |bio| && bio[i] == I ==> i > 0 && bio[i - 1] != O
  }

  ghost function NonEmpty(ranges: seq<Range>): seq<Range> {
    if ranges == [] then []
    else
      var last := ranges[|ranges| - 1];
      NonEmpty(ranges[..|ranges| - 1]) + if last.start < last.end then [last] else []
  }

  lemma {:induction false} NoStarts(bio: seq<Tag>, a: nat, b: nat)
    requires a <= b <= |bio| && forall i :: a <= i < b ==> bio[i] != B
    ensures DecodeBefore(bio, b) == DecodeBefore(bio, a)
  {
    if a < b {
      NoStarts(bio, a, b - 1);
    }
  }

  /** Runs that stop before a position are the same in labels that agree up to there. */
  lemma {:induction false} SameBefore(x: seq<Tag>, y: seq<Tag>, n: nat, a: nat)
    requires |x| == |y| && n <= a < |x| && x[a] != I && y[a] != I
    requires forall m :: 0 <= m < a ==> x[m] == y[m]
    ensures DecodeBefore(x, n) == DecodeBefore(y, n)
  {
    if n > 0 {
      SameBefore(x, y, n - 1, a);
      SameRun(x, y, n, a);
    }
  }

  lemma {:induction false} SameRun(x: seq<Tag>, y: seq<Tag>, n: nat, a: nat)
    requires |x| == |y| && n <= a < |x| && x[a] != I && y[a] != I
    requires forall m :: n <= m < a ==> x[m] == y[m]
    ensures RunOfI(x, n) == RunOfI(y, n)
    decreases a - n
  {
    if n < a {
      SameRun(x, y, n + 1, a);
    }
  }

  lemma {:induction false} RunIs(bio: seq<Tag>, k: nat, e: nat)
    requires k <= e <= |bio| && (forall m :: k <= m < e ==> bio[m] == I) && (e < |bio| ==> bio[e] != I)
    ensures RunOfI(bio, k) == e
    decreases e - k
  {
    if k < e {
      RunIs(bio, k + 1, e);
    }
  }

  /** Painting a range after everything already painted adds exactly that range. */
  lemma PaintAppends(bio: seq<Tag>, r: Range)
    requires r.start < r.end <= |bio| && forall i :: r.start <= i < |bio| ==> bio[i] == O
    requires WellFormed(bio)
    ensures Decode(Paint(bio, r)) == Decode(bio) + [r]
    ensures WellFormed(Paint(bio, r))
  {
    var new' := Paint(bio, r);
    SameBefore(bio, new', r.start, r.start);
    NoStarts(bio, r.start, |bio|);
    NoStarts(new', r.start + 1, |bio|);
    assert forall m :: r.start < m < r.end ==> new'[m] == I;
    RunIs(new', r.start + 1, r.end);
  }

  /** Ranges in order: empty ones anywhere, others without overlap. */
  ghost predicate Tiled(ranges: seq<Range>) {
    forall i, j :: 0 <= i < j < |ranges| && ranges[i].start < ranges[i].end && ranges[j].start < ranges[j].end ==>
      ranges[i].end <= ranges[j].start
  }

  /** Position t lies in one of the ranges. */
  ghost predicate Covered(ranges: seq<Range>, t: nat) {
    exists i :: 0 <= i < |ranges| && ranges[i].start <= t < ranges[i].end
  }

  lemma CoveredSnoc(ranges: seq<Range>, t: nat)
    requires ranges != []
    ensures var last := ranges[|ranges| - 1];
      Covered(ranges, t) <==> Covered(ranges[..|ranges| - 1], t) || last.start <= t < last.end
  {
    var init, last := ranges[..|ranges| - 1], ranges[|ranges| - 1];
    if Covered(init, t) {
      var i :| 0 <= i < |init| && init[i].start <= t < init[i].end;
      assert ranges[i].start <= t < ranges[i].end;
    }
    if last.start <= t < last.end {
      assert ranges[|ranges| - 1].start <= t < ranges[|ranges| - 1].end;
    }
    if Covered(ranges, t) {
      var i :| 0 <= i < |ranges| && ranges[i].start <= t < ranges[i].end;
      assert i == |ranges| - 1 || init[i] == ranges[i];
    }
  }

  /** A token is labelled exactly if some range covers it. */
  lemma {:induction false} LabelledIffCovered(n: nat, ranges: seq<Range>, t: nat)
    requires t < n
    ensures PaintAll(n, ranges)[t] != O <==> Covered(ranges, t)
  {
    if ranges == [] {
    } else {
      LabelledIffCovered(n, ranges[..|ranges| - 1], t);
      CoveredSnoc(ranges, t);
    }
  }

  /** Nothing is labelled from the start of a later range on. */
  lemma TailUnlabelled(n: nat, init: seq<Range>, last: Range)
    requires Tiled(init + [last]) && last.start < last.end
    ensures forall t :: last.start <= t < n ==> PaintAll(n, init)[t] == O
  {
    var ranges := init + [last];
    forall i | 0 <= i < |init| && init[i].start < init[i].end ensures init[i].end <= last.start {
      assert ranges[i] == init[i] && ranges[|init|] == last;
    }
    forall t: nat | last.start <= t < n ensures PaintAll(n, init)[t] == O {
      LabelledIffCovered(n, init, t);
    }
  }

  lemma PaintNothing(bio: seq<Tag>, r: Range)
    requires r.start >= r.end
    ensures Paint(bio, r) == bio
  {
  }

  /** Decoding the labels of ordered ranges returns the non-empty ranges. */
  lemma {:induction false} DecodeInvertsPaint(n: nat, ranges: seq<Range>)
    requires Tiled(ranges) && forall i :: 0 <= i < |ranges| ==> ranges[i].end <= n
    ensures Decode(PaintAll(n, ranges)) == NonEmpty(ranges)
    ensures WellFormed(PaintAll(n, ranges))
  {
    if ranges == [] {
      NoStarts(PaintAll(n, []), 0, n);
    } else {
      var init, last := ranges[..|ranges| - 1], ranges[|ranges| - 1];
      assert ranges == init + [last];
      DecodeInvertsPaint(n, init);
      PaintOneMore(n, init, last);
    }
  }

  lemma PaintOneMore(n: nat, init: seq<Range>, last: Range)
    requires Tiled(init + [last]) && last.end <= n
    requires Decode(PaintAll(n, init)) == NonEmpty(init) && WellFormed(PaintAll(n, init))
    ensures Decode(PaintAll(n, init + [last])) == NonEmpty(init + [last])
    ensures WellFormed(PaintAll(n, init + [last]))
  {
    hide Decode, WellFormed, Paint;
    assert (init + [last])[..|init|] == init;
    if last.start < last.end {
      TailUnlabelled(n, init, last);
      PaintAppends(PaintAll(n, init), last);
    } else {
      PaintNothing(PaintAll(n, init), last);
    }
  }

  /** Sorted, pairwise disjoint character spans have ordered token ranges. */
  lemma RangesTiled(text: string, space: char -> bool, spans: seq<Span>)
    requires Layered(spans)
    ensures Tiled(Ranges(text, space, spans))
    ensures forall i :: 0 <= i < |spans| ==>
      && Ranges(text, space, spans)[i].end == WordsBefore(text, space, spans[i].end)
      && Ranges(text, space, spans)[i].end <= |Split(text, space)|
  {
    var ranges := Ranges(text, space, spans);
    forall i | 0 <= i < |spans|
      ensures ranges[i].end == WordsBefore(text, space, spans[i].end)
      ensures ranges[i].end <= |Split(text, space)|
    {
      WordsMonotone(text, space, spans[i].start, spans[i].end);
    }
    forall i, j | 0 <= i < j < |ranges| && ranges[i].start < ranges[i].end && ranges[j].start < ranges[j].end
      ensures ranges[i].end <= ranges[j].start
    {
      var a, b := spans[i], spans[j];
      assert Disjoint(a, b) && a.start <= b.start;
      if a.end <= b.start {
        WordsMonotone(text, space, a.end, b.start);
      } else {
        WordsMonotone(text, space, b.end, b.start);
        assert false;
      }
    }
  }

  // ----- The whole pipeline -----

  /** What one teacher reports about the text, if it has a file. */
  ghost function TeacherFile(text: string, tokens: Option<seq<Token>>): Option<File> {
    match tokens
    case None => None
    case Some(ts) => Some(File(text, SpansBefore(ts, |ts|)))
  }

  ghost function TeacherFiles(text: string, predictions: seq<Option<seq<Token>>>): (files: seq<Option<File>>)
    ensures |files| == |predictions|
    ensures forall i :: 0 <= i < |files| ==> files[i] == TeacherFile(text, predictions[i])
  {
    seq(|predictions|, i requires 0 <= i < |predictions| => TeacherFile(text, predictions[i]))
  }

  /**
   * cmd_teach for every teacher, cmd_merge, load_consensus: reading the labels back
   * yields the non-empty token ranges of exactly the majority spans.
   */
  method Label(text: string, space: char -> bool, predictions: seq<Option<seq<Token>>>)
    returns (bio: Option<array<Tag>>, ghost spans: seq<Span>)
    requires forall p: seq<Token> :: Some(p) in predictions ==> Monotone(p)
    ensures bio.None? <==> text == "" || predictions == [] || predictions[0].None?
    ensures bio.Some? ==>
      && SortedByStart(spans) && NoDuplicates(spans)
      && (forall sp :: sp in spans <==> HasMajority(TeacherFiles(text, predictions), sp))
      && (forall i, j :: 0 <= i < j < |spans| ==> Disjoint(spans[i], spans[j]))
      && WellFormed(bio.value[..])
      && Decode(bio.value[..]) == NonEmpty(Ranges(text, space, spans))
  {
    var files: seq<Option<File>> := [];
    for i := 0 to |predictions|
      invariant |files| == i && forall k :: 0 <= k < i ==> files[k] == TeacherFile(text, predictions[k])
    {
      match predictions[i]
      case None =>
        files := files + [None];
      case Some(ts) =>
        var entities := TeachSpans(ts);
        files := files + [Some(File(text, entities))];
    }
    assert files == TeacherFiles(text, predictions);
    spans := [];
    var record := Merge(files);
    if record.None? {
      return None, spans;
    }
    spans := record.value.entities;
    TeachersOrdered(text, predictions);
    MergeLayered(files, spans);
    RangesTiled(text, space, spans);
    DecodeInvertsPaint(|Split(text, space)|, Ranges(text, space, spans));
    var tags := TagSpans(text, space, record.value.entities);
    bio := Some(tags);
  }

  lemma TeachersOrdered(text: string, predictions: seq<Option<seq<Token>>>)
    requires forall p: seq<Token> :: Some(p) in predictions ==> Monotone(p)
    ensures forall f: File :: Some(f) in TeacherFiles(text, predictions) ==> Ordered(f.entities)
  {
    var files := TeacherFiles(text, predictions);
    forall f: File | Some(f) in files ensures Ordered(f.entities) {
      var i :| 0 <= i < |files| && files[i] == Some(f);
      assert predictions[i].Some? && Some(predictions[i].value) in predictions;
      TeacherOrdered(predictions[i].value, |predictions[i].value|);
    }
  }
}
