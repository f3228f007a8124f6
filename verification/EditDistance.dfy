/**
 * Word error rate of scripts/demo.py and scripts/demo_speech_loop.py: the table filled
 * by the two loops holds the minimum cost of an edit script, and that minimum is a metric.
 */
module EditDistance {

  type Word = string
  type Words = seq<Word>

  // ----- Edit scripts: the independent meaning of the distance -----

  datatype Edit = Keep | Delete | Insert(word: Word) | Substitute(word: Word)

  /** The script, read from its last edit backwards, turns h into r. */
  ghost predicate Transforms(script: seq<Edit>, h: Words, r: Words)
    decreases |script|
  {
    if script == [] then h == [] && r == []
    else
      var e, rest := script[|script| - 1], script[..|script| - 1];
      match e
      case Keep => h != [] && r != [] && Last(h) == Last(r) && Transforms(rest, Init(h), Init(r))
      case Delete => h != [] && Transforms(rest, Init(h), r)
      case Insert(w) => r != [] && Last(r) == w && Transforms(rest, h, Init(r))
      case Substitute(w) => h != [] && r != [] && Last(r) == w && Transforms(rest, Init(h), Init(r))
  }

  /** Every edit but Keep costs one. */
  ghost function ScriptCost(script: seq<Edit>): nat {
    if script == [] then 0
    else (if script[|script| - 1] == Keep then 0 else 1) + ScriptCost(script[..|script| - 1])
  }

  function Last(s: Words): Word
    requires s != []
  {
    s[|s| - 1]
  }

  function Init(s: Words): Words
    requires s != []
  {
    s[..|s| - 1]
  }

  // ----- The recurrence of the table -----

  function Min(a: nat, b: nat): nat {
    if a <= b then a else b
  }

  function Distance(h: Words, r: Words): nat
    decreases |h| + |r|
  {
    if h == [] then |r|
    else if r == [] then |h|
    else if Last(h) == Last(r) then Distance(Init(h), Init(r))
    else 1 + Min(Min(Distance(Init(h), r), Distance(h, Init(r))), Distance(Init(h), Init(r)))
  }

  lemma {:induction false} Symmetric(h: Words, r: Words)
    ensures Distance(h, r) == Distance(r, h)
    decreases |h| + |r|
  {
    if h == [] || r == [] {
    } else if Last(h) == Last(r) {
      Symmetric(Init(h), Init(r));
    } else {
      Symmetric(Init(h), r);
      Symmetric(h, Init(r));
      Symmetric(Init(h), Init(r));
    }
  }

  /** Dropping the last word of one side changes the distance by at most one. */
  lemma {:induction false} DropLast(h: Words, r: Words)
    requires h != []
    ensures Distance(Init(h), r) - 1 <= Distance(h, r) <= 1 + Distance(Init(h), r)
    decreases |h| + |r|, 0
  {
    if r == [] {
    } else {
      DropLastRight(Init(h), r);
      DropLast(h, Init(r));
    }
  }

  lemma {:induction false} DropLastRight(h: Words, r: Words)
    requires r != []
    ensures Distance(h, Init(r)) - 1 <= Distance(h, r) <= 1 + Distance(h, Init(r))
    decreases |h| + |r|, 1
  {
    Symmetric(h, r);
    Symmetric(h, Init(r));
    DropLast(r, h);
  }

  /** Substituting costs at most one, and nothing if the last words agree. */
  lemma DropBoth(h: Words, r: Words)
    requires h != [] && r != []
    ensures Distance(h, r) <= Distance(Init(h), Init(r)) + if Last(h) == Last(r) then 0 else 1
  {
  }

  // ----- Minimality -----

  /** Some script attains the distance. */
  lemma {:induction false} Attained(h: Words, r: Words) returns (script: seq<Edit>)
    ensures Transforms(script, h, r) && ScriptCost(script) == Distance(h, r)
    decreases |h| + |r|
  {
    var e: Edit, rest: seq<Edit>;
    if h == [] && r == [] {
      return [];
    } else if h == [] || (r != [] && Last(h) != Last(r) && Distance(h, r) == 1 + Distance(h, Init(r))) {
      rest := Attained(h, Init(r));
      e := Insert(Last(r));
    } else if r == [] || (Last(h) != Last(r) && Distance(h, r) == 1 + Distance(Init(h), r)) {
      rest := Attained(Init(h), r);
      e := Delete;
    } else {
      rest := Attained(Init(h), Init(r));
      e := if Last(h) == Last(r) then Keep else Substitute(Last(r));
    }
    script := rest + [e];
    assert script[..|script| - 1] == rest;
  }

  /** A script turns a sequence into at most one other. */
  lemma {:induction false} ScriptDetermines(script: seq<Edit>, h: Words, r: Words, s: Words)
    requires Transforms(script, h, r) && Transforms(script, h, s)
    ensures r == s
    decreases |script|
  {
    if script != [] {
      var e, rest := script[|script| - 1], script[..|script| - 1];
      match e
      case Keep => ScriptDetermines(rest, Init(h), Init(r), Init(s));
      case Delete => ScriptDetermines(rest, Init(h), r, s);
      case Insert(_) => ScriptDetermines(rest, h, Init(r), Init(s));
      case Substitute(_) => ScriptDetermines(rest, Init(h), Init(r), Init(s));
      if !e.Delete? {
        assert r == Init(r) + [Last(r)] && s == Init(s) + [Last(s)];
      }
    }
  }

  /** No script is cheaper than the distance. */
  lemma {:induction false} NoneCheaper(script: seq<Edit>, h: Words, r: Words)
    requires Transforms(script, h, r)
    ensures Distance(h, r) <= ScriptCost(script)
    decreases |script|
  {
    if script == [] {
    } else {
      var e, rest := script[|script| - 1], script[..|script| - 1];
      match e
      case Keep => NoneCheaper(rest, Init(h), Init(r));
      case Delete => NoneCheaper(rest, Init(h), r); DropLast(h, r);
      case Insert(_) => NoneCheaper(rest, h, Init(r)); DropLastRight(h, r);
      case Substitute(_) => NoneCheaper(rest, Init(h), Init(r)); DropBoth(h, r);
    }
  }

  /** The number d is the least cost of a script that turns h into r. */
  ghost predicate IsMinimum(d: nat, h: Words, r: Words) {
    && (exists script :: Transforms(script, h, r) && ScriptCost(script) == d)
    && (forall script :: Transforms(script, h, r) ==> d <= ScriptCost(script))
  }

  lemma DistanceIsMinimum(h: Words, r: Words)
    ensures IsMinimum(Distance(h, r), h, r)
  {
    var script := Attained(h, r);
    forall s | Transforms(s, h, r) ensures Distance(h, r) <= ScriptCost(s) {
      NoneCheaper(s, h, r);
    }
  }

  // ----- The distance is a metric -----

  lemma {:induction false} ZeroIffEqual(h: Words, r: Words)
    ensures Distance(h, r) == 0 <==> h == r
    decreases |h| + |r|
  {
    if h != [] {
      assert h == Init(h) + [Last(h)];
    }
    if r != [] {
      assert r == Init(r) + [Last(r)];
    }
    if h != [] && r != [] && Last(h) == Last(r) {
      ZeroIffEqual(Init(h), Init(r));
    }
  }

  lemma {:induction false} Triangle(a: Words, b: Words, c: Words)
    ensures Distance(a, c) <= Distance(a, b) + Distance(b, c)
    decreases |a| + |b| + |c|
  {
    if a != [] {
      Triangle(Init(a), b, c);
      DropLast(a, c);
    }
    if c != [] {
      Triangle(a, b, Init(c));
      DropLastRight(a, c);
    }
    if b != [] {
      Triangle(a, Init(b), c);
      if c != [] { Triangle(a, Init(b), Init(c)); }
      if a != [] { Triangle(Init(a), Init(b), c); }
    }
    if a != [] && b != [] && c != [] {
      Triangle(Init(a), Init(b), Init(c));
      DropBoth(a, c);
    }
  }

  lemma {:induction false} Bounds(h: Words, r: Words)
    ensures |h| - |r| <= Distance(h, r) && |r| - |h| <= Distance(h, r)
    ensures Distance(h, r) <= if |h| <= |r| then |r| else |h|
    decreases |h| + |r|
  {
    if h == [] || r == [] {
    } else {
      Bounds(Init(h), Init(r));
      Bounds(Init(h), r);
      Bounds(h, Init(r));
    }
  }

  // ----- The table -----

  /** The recurrence of the table in terms of prefixes. */
  lemma CellValue(h: Words, r: Words, i: nat, j: nat)
    requires i <= |h| && j <= |r|
    ensures i == 0 ==> Distance(h[..i], r[..j]) == j
    ensures j == 0 ==> Distance(h[..i], r[..j]) == i
    ensures i > 0 && j > 0 && h[i - 1] == r[j - 1] ==> Distance(h[..i], r[..j]) == Distance(h[..i - 1], r[..j - 1])
    ensures i > 0 && j > 0 && h[i - 1] != r[j - 1] ==>
      Distance(h[..i], r[..j]) ==
      1 + Min(Min(Distance(h[..i - 1], r[..j]), Distance(h[..i], r[..j - 1])), Distance(h[..i - 1], r[..j - 1]))
  {
    if i > 0 && j > 0 {
      assert Init(h[..i]) == h[..i - 1] && Init(r[..j]) == r[..j - 1];
    }
  }

  /** The nested loops over d[i][j], filled in place. */
  method FillTable(h: Words, r: Words) returns (d: array2<int>)
    ensures fresh(d) && d.Length0 == |h| + 1 && d.Length1 == |r| + 1
    ensures forall i, j :: 0 <= i <= |h| && 0 <= j <= |r| ==> d[i, j] == Distance(h[..i], r[..j])
  {
    hide Distance;
    d := new int[|h| + 1, |r| + 1]((_, _) => 0);
    for i := 0 to |h| + 1
      invariant forall k :: 0 <= k < i ==> d[k, 0] == k
    {
      d[i, 0] := i;
    }
    for j := 0 to |r| + 1
      invariant forall k :: 0 <= k <= |h| ==> d[k, 0] == k
      invariant forall k :: 0 <= k < j ==> d[0, k] == k
    {
      d[0, j] := j;
    }
    forall l | 0 <= l <= |r| ensures d[0, l] == Distance(h[..0], r[..l]) {
      CellValue(h, r, 0, l);
    }
    for i := 1 to |h| + 1
      invariant forall k :: 0 <= k <= |h| ==> d[k, 0] == k
      invariant forall k, l :: 0 <= k < i && 0 <= l <= |r| ==> d[k, l] == Distance(h[..k], r[..l])
    {
      CellValue(h, r, i, 0);
      for j := 1 to |r| + 1
        invariant forall k :: 0 <= k <= |h| ==> d[k, 0] == k
        invariant forall k, l :: 0 <= k < i && 0 <= l <= |r| ==> d[k, l] == Distance(h[..k], r[..l])
        invariant forall l :: 0 <= l < j ==> d[i, l] == Distance(h[..i], r[..l])
      {
        CellValue(h, r, i, j);
        if h[i - 1] == r[j - 1] {
          d[i, j] := d[i - 1, j - 1];
        } else {
          d[i, j] := 1 + Min(Min(d[i - 1, j], d[i, j - 1]), d[i - 1, j - 1]);
        }
      }
    }
  }

  /** compute_wer on tokenised texts, before rounding. */
  method ComputeWer(h: Words, r: Words) returns (wer: real)
    ensures r == [] ==> wer == if h == [] then 0.0 else 1.0
    ensures r != [] ==> wer == Distance(h, r) as real / |r| as real && IsMinimum(Distance(h, r), h, r)
    ensures 0.0 <= wer
    ensures wer == 0.0 <==> h == r
    ensures r != [] && |h| <= |r| ==> wer <= 1.0
    ensures r != [] && |h| > |r| ==> (|h| - |r|) as real / |r| as real <= wer <= |h| as real / |r| as real
  {
    if r == [] {
      return if h == [] then 0.0 else 1.0;
    }
    var table := FillTable(h, r);
    var d := table[|h|, |r|];
    assert h[..|h|] == h && r[..|r|] == r;
    DistanceIsMinimum(h, r);
    ZeroIffEqual(h, r);
    Bounds(h, r);
    wer := d as real / |r| as real;
    DivideMonotone(0, d, |r|);
    DivideMonotone(d, if |h| <= |r| then |r| else |h|, |r|);
    DivideMonotone(if |h| > |r| then |h| - |r| else 0, d, |r|);
  }

  lemma DivideMonotone(a: nat, b: nat, n: nat)
    requires n > 0 && a <= b
    ensures a as real / n as real <= b as real / n as real
    ensures b as real / n as real == 0.0 <==> b == 0
    ensures n as real / n as real == 1.0
  {
    var q := b as real / n as real;
    assert q * n as real == b as real;
  }
}
