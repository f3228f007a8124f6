/**
 * The sliding windows of evaluate_perplexity (scripts/fpq_legal_bench.py): which target
 * positions are scored, and when they add up to the number of tokens divided by.
 */
module PerplexityWindows {

  /** The target positions scored in one window. */
  datatype Range = Range(start: nat, end: nat)

  datatype Outcome = NotANumber | Scored(ranges: seq<Range>)

  ghost function Length(ranges: seq<Range>): int {
    if ranges == [] then 0
    else Length(ranges[..|ranges| - 1]) + ranges[|ranges| - 1].end - ranges[|ranges| - 1].start
  }

  /** Non-empty, in order and without overlap, up to position n. */
  ghost predicate Ordered(ranges: seq<Range>, n: nat) {
    && (forall i :: 0 <= i < |ranges| ==> ranges[i].start < ranges[i].end <= n)
    && (forall i, j :: 0 <= i < j < |ranges| ==> ranges[i].end <= ranges[j].start)
  }

  /** The ranges follow one another from 0 to n without a gap. */
  ghost predicate Tile(ranges: seq<Range>, n: nat) {
    if ranges == [] then n == 0
    else
      var last := ranges[|ranges| - 1];
      last.start < last.end == n && Tile(ranges[..|ranges| - 1], last.start)
  }

  lemma {:induction false} TileLength(ranges: seq<Range>, n: nat)
    requires Tile(ranges, n)
    ensures Length(ranges) == n && Ordered(ranges, n)
  {
    if ranges != [] {
      TileLength(ranges[..|ranges| - 1], ranges[|ranges| - 1].start);
      assert forall i :: 0 <= i < |ranges| - 1 ==> ranges[i] == ranges[..|ranges| - 1][i];
    }
  }

  ghost function Min(a: nat, b: nat): nat {
    if a <= b then a else b
  }

  ghost function Max(a: nat, b: nat): nat {
    if a >= b then a else b
  }

  /** The target ranges of the windows that start at begin, begin + stride, ... */
  ghost function TargetsFrom(seqLen: nat, maxLength: nat, stride: nat, begin: nat, prevEnd: nat): seq<Range>
    requires stride > 0
    decreases if begin < seqLen then seqLen - begin else 0
  {
    if begin >= seqLen then []
    else
      var end := Min(begin + maxLength, seqLen);
      var from := Max(begin, prevEnd);
      if end <= from then TargetsFrom(seqLen, maxLength, stride, begin + stride, end)
      else if end == seqLen then [Range(from, end)]
      else [Range(from, end)] + TargetsFrom(seqLen, maxLength, stride, begin + stride, end)
  }

  /** Scoring one more window after position prevEnd. */
  lemma ScoreWindow(ranges: seq<Range>, prevEnd: nat, from: nat, end: nat)
    requires Ordered(ranges, prevEnd) && prevEnd <= from < end
    ensures Ordered(ranges + [Range(from, end)], end)
    ensures Length(ranges + [Range(from, end)]) == Length(ranges) + end - from
    ensures Tile(ranges, prevEnd) && from == prevEnd ==> Tile(ranges + [Range(from, end)], end)
  {
    assert (ranges + [Range(from, end)])[..|ranges|] == ranges;
  }

  lemma OrderedLater(ranges: seq<Range>, m: nat, n: nat)
    requires Ordered(ranges, m) && m <= n
    ensures Ordered(ranges, n)
  {
  }

  lemma NothingScored()
    ensures Ordered([], 0) && Tile([], 0) && Length([]) == 0
  {
  }

  /** One step of the window loop, as the target ranges see it. */
  lemma NextTarget(ranges: seq<Range>, seqLen: nat, maxLength: nat, stride: nat, begin: nat, prevEnd: nat)
    requires stride > 0 && begin < seqLen
    ensures var end, from := Min(begin + maxLength, seqLen), Max(begin, prevEnd);
      var all, next := ranges + TargetsFrom(seqLen, maxLength, stride, begin, prevEnd), TargetsFrom(seqLen, maxLength, stride, begin + stride, end);
      if end <= from then all == ranges + next
      else if end == seqLen then all == ranges + [Range(from, end)]
      else all == (ranges + [Range(from, end)]) + next
  {
    var end, from := Min(begin + maxLength, seqLen), Max(begin, prevEnd);
    if from < end < seqLen {
      var next := TargetsFrom(seqLen, maxLength, stride, begin + stride, end);
      assert ranges + ([Range(from, end)] + next) == (ranges + [Range(from, end)]) + next;
    }
  }

  /**
   * Where the loop stands before the window at begin: what is scored up to prevEnd, and
   * whether some position between two windows is left out.
   */
  ghost predicate Scanned(ranges: seq<Range>, seqLen: nat, maxLength: nat, stride: nat, begin: nat, prevEnd: nat)
    requires stride > 0
  {
    && Ordered(ranges, prevEnd) && prevEnd < seqLen && Length(ranges) <= prevEnd
    && TargetsFrom(seqLen, maxLength, stride, 0, 0) == ranges + TargetsFrom(seqLen, maxLength, stride, begin, prevEnd)
    && (if begin == 0 then prevEnd == 0 && Length(ranges) == 0 else begin >= stride && prevEnd == begin - stride + maxLength)
    && (stride <= maxLength || begin == 0 ==> Tile(ranges, prevEnd))
    && (stride > maxLength && begin > stride ==> Length(ranges) < prevEnd)
  }

  /** What is scored in the end, which is everything exactly if the windows leave no gap. */
  ghost predicate AllScored(ranges: seq<Range>, seqLen: nat, maxLength: nat, stride: nat)
    requires stride > 0
  {
    && ranges == TargetsFrom(seqLen, maxLength, stride, 0, 0)
    && Ordered(ranges, seqLen) && Length(ranges) <= seqLen
    && (Tile(ranges, seqLen) <==> stride <= maxLength || seqLen <= maxLength)
    && (Length(ranges) == seqLen <==> stride <= maxLength || seqLen <= maxLength)
  }

  lemma StartScan(seqLen: nat, maxLength: nat, stride: nat)
    requires stride > 0 && seqLen > 0
    ensures Scanned([], seqLen, maxLength, stride, 0, 0)
  {
    NothingScored();
    var all := TargetsFrom(seqLen, maxLength, stride, 0, 0);
    assert [] + all == all;
  }

  /** A window without a position of its own. */
  lemma SkipWindow(ranges: seq<Range>, seqLen: nat, maxLength: nat, stride: nat, begin: nat, prevEnd: nat)
    requires stride > 0 && begin < seqLen && Scanned(ranges, seqLen, maxLength, stride, begin, prevEnd)
    requires Min(begin + maxLength, seqLen) <= Max(begin, prevEnd)
    ensures var end := Min(begin + maxLength, seqLen);
      Scanned(ranges, seqLen, maxLength, stride, begin + stride, end)
  {
    hide Ordered, Tile, Length, TargetsFrom;
    NextTarget(ranges, seqLen, maxLength, stride, begin, prevEnd);
    OrderedLater(ranges, prevEnd, Min(begin + maxLength, seqLen));
  }

  /** A window that scores its positions, and is not the last one. */
  lemma TakeWindow(ranges: seq<Range>, seqLen: nat, maxLength: nat, stride: nat, begin: nat, prevEnd: nat)
    requires stride > 0 && begin < seqLen && Scanned(ranges, seqLen, maxLength, stride, begin, prevEnd)
    requires Max(begin, prevEnd) < Min(begin + maxLength, seqLen) < seqLen
    ensures var end, from := Min(begin + maxLength, seqLen), Max(begin, prevEnd);
      Scanned(ranges + [Range(from, end)], seqLen, maxLength, stride, begin + stride, end)
  {
    hide Ordered, Tile, Length, TargetsFrom;
    NextTarget(ranges, seqLen, maxLength, stride, begin, prevEnd);
    ScoreWindow(ranges, prevEnd, Max(begin, prevEnd), Min(begin + maxLength, seqLen));
  }

  /** The window that reaches the end of the text. */
  lemma LastWindow(ranges: seq<Range>, seqLen: nat, maxLength: nat, stride: nat, begin: nat, prevEnd: nat)
    requires stride > 0 && begin < seqLen && Scanned(ranges, seqLen, maxLength, stride, begin, prevEnd)
    requires Max(begin, prevEnd) < Min(begin + maxLength, seqLen) == seqLen
    ensures AllScored(ranges + [Range(Max(begin, prevEnd), seqLen)], seqLen, maxLength, stride)
  {
    hide Ordered, Tile, Length, TargetsFrom;
    var from := Max(begin, prevEnd);
    var all := ranges + [Range(from, seqLen)];
    NextTarget(ranges, seqLen, maxLength, stride, begin, prevEnd);
    ScoreWindow(ranges, prevEnd, from, seqLen);
    if Tile(all, seqLen) {
      TileLength(all, seqLen);
    }
  }

  /** No window reaches the end of the text. */
  lemma PastTheEnd(ranges: seq<Range>, seqLen: nat, maxLength: nat, stride: nat, begin: nat, prevEnd: nat)
    requires stride > 0 && begin >= seqLen > 0 && Scanned(ranges, seqLen, maxLength, stride, begin, prevEnd)
    ensures AllScored(ranges, seqLen, maxLength, stride)
  {
    assert TargetsFrom(seqLen, maxLength, stride, begin, prevEnd) == [] && ranges + [] == ranges;
    hide Ordered, Tile, Length, TargetsFrom;
    OrderedLater(ranges, prevEnd, seqLen);
    if Tile(ranges, seqLen) {
      TileLength(ranges, seqLen);
    }
  }

  /** The window loop: which positions are scored, and when they are all positions of the text. */
  method Windows(seqLen: nat, maxLength: nat, stride: nat) returns (r: Outcome)
    requires stride > 0
    ensures r.NotANumber? <==> seqLen < 4
    ensures r.Scored? ==> AllScored(r.ranges, seqLen, maxLength, stride)
  {
    if seqLen < 4 {
      return NotANumber;
    }
    hide Ordered, Tile, Length, TargetsFrom, Scanned, AllScored;
    var ranges: seq<Range> := [];
    var prevEnd: nat, begin: nat := 0, 0;
    StartScan(seqLen, maxLength, stride);
    while begin < seqLen
      invariant Scanned(ranges, seqLen, maxLength, stride, begin, prevEnd)
      decreases seqLen - begin
    {
      var end := if begin + maxLength <= seqLen then begin + maxLength else seqLen;
      var from := if begin >= prevEnd then begin else prevEnd;
      if end - from <= 0 {
        SkipWindow(ranges, seqLen, maxLength, stride, begin, prevEnd);
        prevEnd := end;
        begin := begin + stride;
        continue;
      }
      if end == seqLen {
        LastWindow(ranges, seqLen, maxLength, stride, begin, prevEnd);
        return Scored(ranges + [Range(from, end)]);
      }
      TakeWindow(ranges, seqLen, maxLength, stride, begin, prevEnd);
      ranges := ranges + [Range(from, end)];
      prevEnd := end;
      begin := begin + stride;
    }
    PastTheEnd(ranges, seqLen, maxLength, stride, begin, prevEnd);
    r := Scored(ranges);
  }

  /** Windows of 2 positions at a stride of 4 score only 6 of 10 positions. */
  lemma GapsExample()
    ensures var ranges := TargetsFrom(10, 2, 4, 0, 0);
      ranges == [Range(0, 2), Range(4, 6), Range(8, 10)] && Length(ranges) == 6 && !Tile(ranges, 10)
  {
    assert TargetsFrom(10, 2, 4, 8, 6) == [Range(8, 10)];
    assert TargetsFrom(10, 2, 4, 4, 2) == [Range(4, 6), Range(8, 10)];
    var none: seq<Range> := [];
    var one := none + [Range(0, 2)];
    var two := one + [Range(4, 6)];
    var ranges := two + [Range(8, 10)];
    assert TargetsFrom(10, 2, 4, 0, 0) == ranges;
    hide Length, Ordered, Tile;
    NothingScored();
    ScoreWindow(none, 0, 0, 2);
    ScoreWindow(one, 2, 4, 6);
    ScoreWindow(two, 6, 8, 10);
    if Tile(ranges, 10) {
      TileLength(ranges, 10);
    }
  }
}
