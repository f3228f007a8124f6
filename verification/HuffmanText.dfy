/**
 * Texts under a Huffman code (scripts/lambda_codebook.py): packing into bytes,
 * decoding by walking the tree, and the size of the encoding of a counted corpus.
 */
module HuffmanText {
  import opened Costs
  import opened GreedyMerge
  import opened HuffmanCode
  import opened HuffmanTree
  import opened Kraft
  import opened Powers
  import opened Wrappers

  type Text = seq<Symbol>

  datatype Result<+T> = Success(value: T) | ValueError

  const UNK: Symbol := "<UNK>"

  /** The symbol whose codeword stands for c: c itself, or the unknown marker. */
  ghost function Canonical(c: Symbol, codes: Codes): Symbol {
    if c in codes then c else UNK
  }

  ghost predicate Encodable(text: Text, codes: Codes) {
    forall k :: 0 <= k < |text| ==> Canonical(text[k], codes) in codes
  }

  ghost function BitString(text: Text, codes: Codes): Bits
    requires Encodable(text, codes)
  {
    if text == [] then [] else codes[Canonical(text[0], codes)] + BitString(text[1..], codes)
  }

  /** huffman_compressed_bits: symbols without any codeword are charged eight bits. */
  ghost function CompressedBits(text: Text, codes: Codes): nat {
    if text == [] then 0
    else
      var s := Canonical(text[0], codes);
      (if s in codes then |codes[s]| else 8) + CompressedBits(text[1..], codes)
  }

  lemma {:induction false} CompressedBitsExact(text: Text, codes: Codes)
    requires Encodable(text, codes)
    ensures CompressedBits(text, codes) == |BitString(text, codes)|
  {
    if text == [] {
    } else {
      CompressedBitsExact(text[1..], codes);
    }
  }

  /** The symbols of a text that have a codeword, their own or the marker's. */
  ghost function Known(text: Text, codes: Codes): (known: Text)
    ensures Encodable(known, codes)
  {
    if text == [] then []
    else (if text[0] in codes || UNK in codes then [text[0]] else []) + Known(text[1..], codes)
  }

  /** The predicted size is that of the encodable part, and eight bits for every other symbol. */
  lemma {:induction false} CompressedBitsSplit(text: Text, codes: Codes)
    ensures |Known(text, codes)| <= |text|
    ensures CompressedBits(text, codes) ==
      |BitString(Known(text, codes), codes)| + 8 * (|text| - |Known(text, codes)|)
    ensures UNK in codes || (forall c :: c in text ==> c in codes) ==> Known(text, codes) == text
  {
    if text != [] {
      CompressedBitsSplit(text[1..], codes);
      var c, known := text[0], Known(text[1..], codes);
      assert text == [c] + text[1..];
      if Canonical(c, codes) in codes {
        assert ([c] + known)[0] == c && ([c] + known)[1..] == known;
        assert BitString([c] + known, codes) == codes[Canonical(c, codes)] + BitString(known, codes);
      } else {
        assert [] + known == known;
      }
    }
  }

  // ----- Bytes -----

  /** int(bits, 2): the first bit is the most significant. */
  function BitsValue(bits: Bits): (v: nat)
    ensures v < Pow2(|bits|)
  {
    if bits == [] then 0
    else (if bits[0] then Pow2(|bits| - 1) else 0) + BitsValue(bits[1..])
  }

  /** The bits of v in a field of the given width, most significant first. */
  function ValueBits(v: nat, width: nat): (bits: Bits)
    requires v < Pow2(width)
    ensures |bits| == width
  {
    if width == 0 then []
    else if v >= Pow2(width - 1) then [true] + ValueBits(v - Pow2(width - 1), width - 1)
    else [false] + ValueBits(v, width - 1)
  }

  lemma {:induction false} ValueBitsInverse(bits: Bits)
    ensures ValueBits(BitsValue(bits), |bits|) == bits
  {
    if bits == [] {
    } else {
      ValueBitsInverse(bits[1..]);
      assert bits == [bits[0]] + bits[1..];
    }
  }

  ghost predicate IsBytes(bytes: seq<nat>) {
    forall k :: 0 <= k < |bytes| ==> bytes[k] < Pow2(8)
  }

  ghost function BytesToBits(bytes: seq<nat>): (bits: Bits)
    requires IsBytes(bytes)
    ensures |bits| == 8 * |bytes|
  {
    if bytes == [] then [] else ValueBits(bytes[0], 8) + BytesToBits(bytes[1..])
  }

  lemma {:induction false} BytesSnoc(bytes: seq<nat>, b: nat)
    requires IsBytes(bytes) && b < Pow2(8)
    ensures IsBytes(bytes + [b]) && BytesToBits(bytes + [b]) == BytesToBits(bytes) + ValueBits(b, 8)
  {
    if bytes == [] {
      assert (bytes + [b])[1..] == [];
    } else {
      assert (bytes + [b])[1..] == bytes[1..] + [b];
      BytesSnoc(bytes[1..], b);
    }
  }

  ghost function Zeros(n: nat): Bits {
    seq(n, _ => false)
  }

  /** The concatenation of the codewords; a missing one makes the conversion to bytes fail. */
  method Join(text: Text, codes: Codes) returns (r: Result<Bits>)
    ensures r.Success? <==> Encodable(text, codes)
    ensures r.Success? ==> r.value == BitString(text, codes)
  {
    var bits: Bits := [];
    for k := 0 to |text|
      invariant Encodable(text[..k], codes)
      invariant bits == BitString(text[..k], codes)
    {
      hide BitString;
      var s := text[k];
      if s !in codes {
        if UNK !in codes {
          return ValueError;
        }
        s := UNK;
      }
      BitStringSnoc(text[..k], text[k], codes);
      assert text[..k] + [text[k]] == text[..k + 1];
      bits := bits + codes[s];
    }
    assert text[..|text|] == text;
    r := Success(bits);
  }

  /** The byte loop, on bits padded to a multiple of eight. */
  method PackBits(bits: Bits) returns (out: seq<nat>)
    requires |bits| % 8 == 0
    ensures IsBytes(out) && BytesToBits(out) == bits
  {
    out := [];
    var i := 0;
    while i < |bits|
      invariant i == 8 * |out| && i <= |bits|
      invariant IsBytes(out) && BytesToBits(out) == bits[..i]
    {
      hide BytesToBits, BitsValue, ValueBits;
      var chunk := bits[i..i + 8];
      ValueBitsInverse(chunk);
      BytesSnoc(out, BitsValue(chunk));
      assert bits[..i + 8] == bits[..i] + chunk;
      out := out + [BitsValue(chunk)];
      i := i + 8;
    }
    assert bits[..i] == bits;
  }

  /** huffman_encode: fails exactly if a symbol has no codeword and there is no unknown marker. */
  method HuffmanEncode(text: Text, codes: Codes) returns (r: Result<seq<nat>>)
    ensures r.Success? <==> Encodable(text, codes)
    ensures r.Success? ==>
      && IsBytes(r.value)
      && |r.value| == (CompressedBits(text, codes) + 7) / 8
      && BytesToBits(r.value) == BitString(text, codes) + Zeros(8 * |r.value| - CompressedBits(text, codes))
  {
    hide BytesToBits, BitString, CompressedBits;
    var joined := Join(text, codes);
    if joined.ValueError? {
      return ValueError;
    }
    var bits := joined.value;
    CompressedBitsExact(text, codes);
    var pad := (8 - |bits| % 8) % 8;
    var zeros := seq(pad, _ => false);
    assert zeros == Zeros(pad);
    var out := PackBits(bits + zeros);
    r := Success(out);
  }

  lemma {:induction false} BitStringSnoc(text: Text, c: Symbol, codes: Codes)
    requires Encodable(text, codes) && Canonical(c, codes) in codes
    ensures Encodable(text + [c], codes)
    ensures BitString(text + [c], codes) == BitString(text, codes) + codes[Canonical(c, codes)]
  {
    if text == [] {
      assert (text + [c])[1..] == [];
    } else {
      assert (text + [c])[1..] == text[1..] + [c];
      BitStringSnoc(text[1..], c, codes);
    }
  }

  // ----- Decoding -----

  /** Follow the bits down to a leaf. */
  function Walk(t: Node, bits: Bits): Option<(Symbol, Bits)> {
    match t
    case Leaf(_, s) => Some((s, bits))
    case Inner(_, l, r) =>
      if bits == [] then None else if bits[0] then Walk(r, bits[1..]) else Walk(l, bits[1..])
  }

  /** A tree that is one leaf spends one bit on every symbol. */
  function DecodeSymbol(root: Node, bits: Bits): Option<(Symbol, Bits)> {
    if root.Leaf? then if bits == [] then None else Some((root.symbol, bits[1..]))
    else Walk(root, bits)
  }

  function Decode(root: Node, bits: Bits, n: nat): Option<Text>
    decreases n
  {
    if n == 0 then Some([])
    else
      match DecodeSymbol(root, bits)
      case None => None
      case Some(step) =>
        match Decode(root, step.1, n - 1)
        case None => None
        case Some(rest) => Some([step.0] + rest)
  }

  lemma {:induction false} WalkFollowsCode(t: Node, p: Bits, q: Bits, s: Symbol, rest: Bits)
    requires Distinct(t) && (t.Inner? || p != []) && s in CodesOf(t, p) && CodesOf(t, p)[s] == p + q
    ensures Walk(t, q + rest) == Some((s, rest))
  {
    if t.Leaf? {
      assert q == [];
      assert q + rest == rest;
    } else {
      var b := CodeTakesBranch(t, p, q, s);
      WalkFollowsCode(if b then t.right else t.left, p + [b], q[1..], s, rest);
      assert (q + rest)[1..] == q[1..] + rest;
    }
  }

  /** The bit after the path of a node says in which child a symbol is. */
  lemma CodeTakesBranch(t: Node, p: Bits, q: Bits, s: Symbol) returns (b: bool)
    requires Distinct(t) && t.Inner? && s in CodesOf(t, p) && CodesOf(t, p)[s] == p + q
    ensures q != [] && q[0] == b
    ensures s in CodesOf(if b then t.right else t.left, p + [b])
    ensures CodesOf(if b then t.right else t.left, p + [b])[s] == p + [b] + q[1..]
  {
    b := s in CodesOf(t.right, p + [true]);
    var child := if b then t.right else t.left;
    ExtractedKeys(t.left, p + [false]);
    ExtractedKeys(t.right, p + [true]);
    ExtractedBelow(child, p + [b]);
    var code := CodesOf(child, p + [b])[s];
    assert code == p + q;
    PrefixSplit(p, b, q);
  }

  lemma PrefixSplit(p: Bits, b: bool, q: Bits)
    requires p + [b] <= p + q
    ensures q != [] && q[0] == b && p + q == p + [b] + q[1..]
  {
    assert (p + q)[|p|] == (p + [b])[|p|];
    assert q == [q[0]] + q[1..];
  }

  ghost function CanonicalText(text: Text, codes: Codes): Text {
    seq(|text|, k requires 0 <= k < |text| => Canonical(text[k], codes))
  }

  /** Decoding inverts encoding, whatever follows the encoded text. */
  lemma {:induction false} DecodeInvertsBits(tree: Node, text: Text, tail: Bits)
    requires Distinct(tree) && Encodable(text, CodesOf(tree, []))
    ensures var codes := CodesOf(tree, []);
      Decode(tree, BitString(text, codes) + tail, |text|) == Some(CanonicalText(text, codes))
  {
    var codes := CodesOf(tree, []);
    if text == [] {
    } else {
      var s := Canonical(text[0], codes);
      var rest := BitString(text[1..], codes) + tail;
      assert BitString(text, codes) + tail == codes[s] + rest;
      if tree.Inner? {
        assert codes[s] == [] + codes[s];
        WalkFollowsCode(tree, [], codes[s], s, rest);
      } else {
        assert codes[s] == [false] && (codes[s] + rest)[1..] == rest;
      }
      DecodeInvertsBits(tree, text[1..], tail);
      assert CanonicalText(text, codes) == [s] + CanonicalText(text[1..], codes);
    }
  }

  /** A text over the alphabet of the code is recovered from the padded bytes and its length. */
  lemma DecodeInvertsEncode(tree: Node, text: Text, bytes: seq<nat>)
    requires Distinct(tree) && Encodable(text, CodesOf(tree, [])) && IsBytes(bytes)
    requires exists n: nat :: BytesToBits(bytes) == BitString(text, CodesOf(tree, [])) + Zeros(n)
    ensures Decode(tree, BytesToBits(bytes), |text|) == Some(CanonicalText(text, CodesOf(tree, [])))
    ensures (forall c :: c in text ==> c in CodesOf(tree, [])) ==> Decode(tree, BytesToBits(bytes), |text|) == Some(text)
  {
    var codes := CodesOf(tree, []);
    var n: nat :| BytesToBits(bytes) == BitString(text, codes) + Zeros(n);
    DecodeInvertsBits(tree, text, Zeros(n));
    if forall c :: c in text ==> c in codes {
      assert CanonicalText(text, codes) == text;
    }
  }

  // ----- Counting a corpus -----

  /** The keys of a dictionary. */
  ghost function Keys(items: seq<Item>): set<Symbol> {
    set i | 0 <= i < |items| :: items[i].0
  }

  /** Counter.update with one symbol, on the dictionary in insertion order. */
  function Bump(items: seq<Item>, c: Symbol): seq<Item> {
    if items == [] then [(c, 1)]
    else if items[0].0 == c then [(c, items[0].1 + 1)] + items[1..]
    else [items[0]] + Bump(items[1..], c)
  }

  ghost predicate AllPositive(items: seq<Item>) {
    forall i :: 0 <= i < |items| ==> items[i].1 > 0
  }

  lemma {:induction false} BumpCounts(items: seq<Item>, c: Symbol)
    requires IsDict(items) && AllPositive(items)
    ensures var r := Bump(items, c); IsDict(r) && AllPositive(r) && Keys(r) == Keys(items) + {c}
  {
    if items == [] {
      KeysCons((c, 1), []);
      assert [(c, 1)] + [] == [(c, 1)];
    } else {
      var tail := items[1..];
      KeysCons(items[0], tail);
      assert items == [items[0]] + tail;
      if items[0].0 == c {
        KeysCons((c, items[0].1 + 1), tail);
      } else {
        BumpCounts(tail, c);
        KeysCons(items[0], Bump(tail, c));
        forall j | 0 <= j < |Bump(tail, c)| ensures Bump(tail, c)[j].0 != items[0].0 {
          assert Bump(tail, c)[j].0 in Keys(tail) + {c};
        }
      }
    }
  }

  lemma KeysCons(e: Item, items: seq<Item>)
    ensures Keys([e] + items) == {e.0} + Keys(items)
  {
    var all := [e] + items;
    forall s | s in {e.0} + Keys(items) ensures s in Keys(all) {
      if s == e.0 {
        assert all[0].0 == s;
      } else {
        var i :| 0 <= i < |items| && items[i].0 == s;
        assert all[i + 1].0 == s;
      }
    }
  }

  lemma {:induction false} BumpTotal(items: seq<Item>, c: Symbol, codes: Codes)
    ensures TotalBits(Bump(items, c), codes) == TotalBits(items, codes) + CodeLength(codes, c)
  {
    if items == [] {
      assert [(c, 1)][1..] == [];
    } else if items[0].0 == c {
      assert ([(c, items[0].1 + 1)] + items[1..])[1..] == items[1..];
      TimesSucc(CodeLength(codes, c), items[0].1);
    } else {
      BumpTotal(items[1..], c, codes);
      assert ([items[0]] + Bump(items[1..], c))[1..] == Bump(items[1..], c);
    }
  }

  /** What it means for a table to hold the symbol counts of a text. */
  ghost predicate Counts(items: seq<Item>, text: Text) {
    && IsDict(items) && AllPositive(items)
    && (forall s :: s in Keys(items) <==> s in text)
    && forall codes: Codes :: (forall c :: c in text ==> c in codes) ==> TotalBits(items, codes) == CompressedBits(text, codes)
  }

  lemma CountsSnoc(items: seq<Item>, text: Text, c: Symbol)
    requires Counts(items, text)
    ensures Counts(Bump(items, c), text + [c])
  {
    BumpCounts(items, c);
    forall codes: Codes | forall d :: d in text + [c] ==> d in codes
      ensures TotalBits(Bump(items, c), codes) == CompressedBits(text + [c], codes)
    {
      assert forall d :: d in text ==> d in text + [c];
      assert c in text + [c];
      BumpTotal(items, c, codes);
      CompressedBitsSnoc(text, c, codes);
    }
  }

  lemma {:induction false} CompressedBitsSnoc(text: Text, c: Symbol, codes: Codes)
    requires c in codes
    ensures CompressedBits(text + [c], codes) == CompressedBits(text, codes) + CodeLength(codes, c)
  {
    if text == [] {
      assert (text + [c])[1..] == [];
    } else {
      assert (text + [c])[1..] == text[1..] + [c];
      CompressedBitsSnoc(text[1..], c, codes);
    }
  }

  /** char_freq. */
  method CharFreq(texts: seq<Text>) returns (items: seq<Item>)
    ensures Counts(items, Concat(texts))
  {
    items := [];
    ghost var corpus: Text := [];
    for i := 0 to |texts|
      invariant corpus == Concat(texts[..i]) && Counts(items, corpus)
    {
      ghost var before := corpus;
      for k := 0 to |texts[i]|
        invariant corpus == before + texts[i][..k] && Counts(items, corpus)
      {
        CountsSnoc(items, corpus, texts[i][k]);
        items, corpus := Bump(items, texts[i][k]), corpus + [texts[i][k]];
      }
      ConcatSnoc(texts[..i], texts[i]);
      assert texts[..i + 1] == texts[..i] + [texts[i]];
      assert texts[i][..|texts[i]|] == texts[i];
    }
    assert texts[..|texts|] == texts;
  }

  ghost function Concat(texts: seq<Text>): Text {
    if texts == [] then [] else texts[0] + Concat(texts[1..])
  }

  lemma {:induction false} ConcatSnoc(texts: seq<Text>, t: Text)
    ensures Concat(texts + [t]) == Concat(texts) + t
  {
    if texts == [] {
      assert (texts + [t])[1..] == [];
    } else {
      assert (texts + [t])[1..] == texts[1..] + [t];
      ConcatSnoc(texts[1..], t);
    }
  }

  lemma {:induction false} PositiveIdentity(items: seq<Item>)
    requires AllPositive(items)
    ensures Positive(items) == items
  {
    if items == [] {
    } else {
      PositiveIdentity(items[1..]);
    }
  }

  /**
   * The codebook of a corpus: with at least two different symbols, no prefix code
   * for the corpus compresses the corpus into fewer bits.
   */
  method BuildCodebook(texts: seq<Text>) returns (codes: Codes, ghost tree: Node)
    ensures Distinct(tree) && codes == CodesOf(tree, [])
    ensures forall c :: c in Concat(texts) ==> c in codes
    ensures forall other: Codes ::
      && PrefixFree(other)
      && (forall c :: c in Concat(texts) ==> c in other)
      && ([] in other.Values ==> exists c, d :: c in Concat(texts) && d in Concat(texts) && c != d)
      ==> CompressedBits(Concat(texts), codes) <= CompressedBits(Concat(texts), other)
  {
    var items := CharFreq(texts);
    ghost var corpus := Concat(texts);
    PositiveIdentity(items);
    codes, tree := HuffmanCodes(items);
    forall c | c in corpus ensures c in codes {
      assert c in Keys(items);
    }
    forall other: Codes |
      && PrefixFree(other)
      && (forall c :: c in corpus ==> c in other)
      && ([] in other.Values ==> exists c, d :: c in corpus && d in corpus && c != d)
      ensures CompressedBits(corpus, codes) <= CompressedBits(corpus, other)
    {
      forall i | 0 <= i < |items| ensures items[i].0 in other {
        assert items[i].0 in Keys(items);
      }
      if [] in other.Values {
        var c, d :| c in corpus && d in corpus && c != d;
        assert c in Keys(items) && d in Keys(items);
        assert |items| != 1;
      }
    }
  }
}
