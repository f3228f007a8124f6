/**
 * Bit packing of quantised codes: pack_codes of scripts/vecf_e8.py and the unpackers of
 * scripts/hybrid_search.py and scripts/moe_router.py. Numbers are related to the bits they
 * hold, least significant first; the shift and mask operators act on the numbers.
 */
module BitPacking {
  import opened Powers

  type Byte = b: nat | b < 256

  // ----- Numbers and bits -----

  /** The number with the given bits, least significant first. */
  ghost function Val(bits: Bits): (v: nat)
    ensures v < Pow2(|bits|)
  {
    if bits == [] then 0 else (if bits[0] then 1 else 0) + 2 * Val(bits[1..])
  }

  ghost function ToBits(v: nat, width: nat): (bits: Bits)
    ensures |bits| == width
  {
    if width == 0 then [] else [v % 2 == 1] + ToBits(v / 2, width - 1)
  }

  lemma {:induction false} ValToBits(v: nat, width: nat)
    requires v < Pow2(width)
    ensures Val(ToBits(v, width)) == v
  {
    if width == 0 {
    } else {
      ValToBits(v / 2, width - 1);
      assert ToBits(v, width)[1..] == ToBits(v / 2, width - 1);
    }
  }

  lemma {:induction false} ToBitsVal(bits: Bits)
    ensures ToBits(Val(bits), |bits|) == bits
  {
    if bits == [] {
    } else {
      ToBitsVal(bits[1..]);
      assert bits == [bits[0]] + bits[1..];
    }
  }

  /** x << n. */
  function Shl(x: nat, n: nat): nat {
    if n == 0 then x else 2 * Shl(x, n - 1)
  }

  /** x >> n. */
  function Shr(x: nat, n: nat): nat
    decreases n
  {
    if n == 0 then x else Shr(x / 2, n - 1)
  }

  /** x | y, bit by bit. */
  function BitOr(x: nat, y: nat): nat
    decreases x
  {
    if x == 0 then y
    else (if x % 2 == 1 || y % 2 == 1 then 1 else 0) + 2 * BitOr(x / 2, y / 2)
  }

  /** x & y, bit by bit. */
  function BitAnd(x: nat, y: nat): nat
    decreases x
  {
    if x == 0 then 0
    else (if x % 2 == 1 && y % 2 == 1 then 1 else 0) + 2 * BitAnd(x / 2, y / 2)
  }

  lemma {:induction false} ValZero(a: Bits, b: Bits)
    requires Val(a) == 0
    ensures Val(a + b) == Shl(Val(b), |a|)
  {
    if a == [] {
      assert a + b == b;
    } else {
      ValZero(a[1..], b);
      assert (a + b)[1..] == a[1..] + b;
    }
  }

  /** x | y acts on each bit of two numbers of one width. */
  lemma {:induction false} OrBitwise(a: Bits, b: Bits, c: Bits)
    requires |a| == |b| == |c| && forall i :: 0 <= i < |c| ==> c[i] == (a[i] || b[i])
    ensures BitOr(Val(a), Val(b)) == Val(c)
  {
    if a != [] {
      OrBitwise(a[1..], b[1..], c[1..]);
    }
  }

  /** x & y acts on each bit of two numbers of one width. */
  lemma {:induction false} AndBitwise(a: Bits, b: Bits, c: Bits)
    requires |a| == |b| == |c| && forall i :: 0 <= i < |c| ==> c[i] == (a[i] && b[i])
    ensures BitAnd(Val(a), Val(b)) == Val(c)
  {
    if a != [] {
      AndBitwise(a[1..], b[1..], c[1..]);
    }
  }

  /** Or-ing a shifted number above the bits already held appends its bits. */
  lemma {:induction false} OrAppends(a: Bits, b: Bits)
    ensures BitOr(Val(a), Shl(Val(b), |a|)) == Val(a + b)
  {
    if Val(a) == 0 {
      ValZero(a, b);
    } else {
      OrAppends(a[1..], b);
      assert (a + b)[1..] == a[1..] + b;
      assert Shl(Val(b), |a|) == 2 * Shl(Val(b), |a| - 1);
    }
  }

  /** Masking with 2^n - 1 keeps the lowest n bits. */
  lemma {:induction false} MaskTakes(a: Bits, n: nat)
    requires n <= |a|
    ensures BitAnd(Val(a), Pow2(n) - 1) == Val(a[..n])
    decreases |a|
  {
    if Val(a) == 0 {
      ZeroPrefix(a, n);
    } else if n == 0 {
      AndZero(Val(a));
    } else {
      MaskTakes(a[1..], n - 1);
      assert a[..n][1..] == a[1..][..n - 1];
      assert (Pow2(n) - 1) / 2 == Pow2(n - 1) - 1;
    }
  }

  lemma {:induction false} AndZero(x: nat)
    ensures BitAnd(x, 0) == 0
  {
    if x > 0 {
      AndZero(x / 2);
    }
  }

  lemma {:induction false} ZeroPrefix(a: Bits, n: nat)
    requires n <= |a| && Val(a) == 0
    ensures Val(a[..n]) == 0
  {
    if n > 0 {
      ZeroPrefix(a[1..], n - 1);
      assert a[..n][1..] == a[1..][..n - 1];
    }
  }

  /** Shifting right by n drops the lowest n bits. */
  lemma {:induction false} ShiftDrops(a: Bits, n: nat)
    requires n <= |a|
    ensures Shr(Val(a), n) == Val(a[n..])
  {
    if n > 0 {
      ShiftDrops(a[1..], n - 1);
      assert a[1..][n - 1..] == a[n..];
    }
  }

  /** Zero bits above do not change a number. */
  lemma {:induction false} PadKeepsVal(a: Bits, n: nat)
    ensures Val(a + Zeros(n)) == Val(a)
  {
    if a == [] {
      assert a + Zeros(n) == Zeros(n);
      ZerosVal(n);
    } else {
      PadKeepsVal(a[1..], n);
      assert (a + Zeros(n))[1..] == a[1..] + Zeros(n);
    }
  }

  function Zeros(n: nat): (z: Bits)
    ensures |z| == n
  {
    seq(n, _ => false)
  }

  lemma {:induction false} ZerosVal(n: nat)
    ensures Val(Zeros(n)) == 0
  {
    if n > 0 {
      ZerosVal(n - 1);
      assert Zeros(n)[1..] == Zeros(n - 1);
    }
  }

  // ----- Byte strings and code sequences as bit streams -----

  ghost function Stream(data: seq<Byte>): (bits: Bits)
    ensures |bits| == 8 * |data|
  {
    if data == [] then [] else Stream(data[..|data| - 1]) + ToBits(data[|data| - 1], 8)
  }

  /** The offset that makes the codes of a field non-negative. */
  ghost function MaxCode(bits: nat): int
    requires bits > 0
  {
    Pow2(bits - 1) - 1
  }

  /** The values a field of the given width can hold after the offset is removed. */
  ghost predicate InField(code: int, bits: nat)
    requires bits > 0
  {
    0 <= code + MaxCode(bits) < Pow2(bits)
  }

  ghost predicate AllInField(codes: seq<int>, bits: nat)
    requires bits > 0
  {
    forall k :: 0 <= k < |codes| ==> InField(codes[k], bits)
  }

  ghost function Field(code: int, bits: nat): (b: Bits)
    requires bits > 0 && InField(code, bits)
    ensures |b| == bits
  {
    ToBits(code + MaxCode(bits), bits)
  }

  /** The fields of all codes, one after another. */
  ghost function CodeBits(codes: seq<int>, bits: nat): (b: Bits)
    requires bits > 0 && AllInField(codes, bits)
    ensures |b| == bits * |codes|
  {
    if codes == [] then []
    else
      assert InField(codes[|codes| - 1], bits);
      CodeBits(codes[..|codes| - 1], bits) + Field(codes[|codes| - 1], bits)
  }

  lemma CodeBitsSnoc(codes: seq<int>, code: int, bits: nat)
    requires bits > 0 && AllInField(codes, bits) && InField(code, bits)
    ensures AllInField(codes + [code], bits)
    ensures CodeBits(codes + [code], bits) == CodeBits(codes, bits) + Field(code, bits)
  {
    assert (codes + [code])[..|codes|] == codes;
  }

  lemma SplitEqual(a: Bits, b: Bits, c: Bits, d: Bits)
    requires a + b == c + d && |a| == |c|
    ensures a == c && b == d
  {
    assert a == (a + b)[..|a|] && c == (c + d)[..|a|];
    assert b == (a + b)[|a|..] && d == (c + d)[|a|..];
  }

  lemma FieldInjective(x: int, y: int, bits: nat)
    requires bits > 0 && InField(x, bits) && InField(y, bits) && Field(x, bits) == Field(y, bits)
    ensures x == y
  {
    ValToBits(x + MaxCode(bits), bits);
    ValToBits(y + MaxCode(bits), bits);
  }

  /** A bit stream determines the codes it starts with. */
  lemma {:induction false} CodeBitsInjective(x: seq<int>, y: seq<int>, bits: nat)
    requires bits > 0 && |x| == |y| && AllInField(x, bits) && AllInField(y, bits)
    requires CodeBits(x, bits) == CodeBits(y, bits)
    ensures x == y
  {
    if x != [] {
      hide CodeBits, Field, InField;
      var n := |x| - 1;
      assert x == x[..n] + [x[n]] && y == y[..n] + [y[n]];
      CodeBitsSnoc(x[..n], x[n], bits);
      CodeBitsSnoc(y[..n], y[n], bits);
      SplitEqual(CodeBits(x[..n], bits), Field(x[n], bits), CodeBits(y[..n], bits), Field(y[n], bits));
      CodeBitsInjective(x[..n], y[..n], bits);
      FieldInjective(x[n], y[n], bits);
    }
  }

  /** Field number k of the stream, at bits wide each, holds the number v. */
  ghost predicate FieldIs(stream: Bits, bits: nat, k: nat, v: int) {
    0 <= bits * k <= bits * (k + 1) <= |stream| && Val(stream[bits * k..bits * (k + 1)]) == v
  }

  /** Field number k of a stream that starts with the fields of the codes is the code plus the offset. */
  lemma {:induction false} FieldOfStream(codes: seq<int>, bits: nat, stream: Bits, k: nat)
    requires bits > 0 && AllInField(codes, bits) && CodeBits(codes, bits) <= stream && k < |codes|
    ensures FieldIs(stream, bits, k, codes[k] + (Pow2(bits - 1) - 1))
  {
    var n := |codes| - 1;
    hide Val, ToBits;
    assert codes == codes[..n] + [codes[n]];
    CodeBitsSnoc(codes[..n], codes[n], bits);
    assert bits * (n + 1) == bits * n + bits;
    if k < n {
      FieldOfStream(codes[..n], bits, stream, k);
    } else {
      assert stream[bits * n..bits * (n + 1)] == Field(codes[n], bits);
      ValToBits(codes[n] + MaxCode(bits), bits);
    }
  }

  lemma FieldsOf(codes: seq<int>, bits: nat, stream: Bits)
    requires bits > 0 && AllInField(codes, bits) && CodeBits(codes, bits) <= stream
    ensures forall k :: 0 <= k < |codes| ==> FieldIs(stream, bits, k, codes[k] + (Pow2(bits - 1) - 1))
  {
    hide *;
    forall k | 0 <= k < |codes| ensures FieldIs(stream, bits, k, codes[k] + (Pow2(bits - 1) - 1)) {
      FieldOfStream(codes, bits, stream, k);
    }
  }

  /** The one code of three bits in the byte 3 is 0. */
  lemma ByteThree(code: int)
    ensures FieldIs(Stream([3]), 3, 0, code + (Pow2(3 - 1) - 1)) ==> code == 0
  {
    LowBitsOfThree();
    hide Stream, Val;
    assert Pow2(2) == 4;
  }

  lemma LowBitsOfThree()
    ensures Stream([3])[..3] == Stream([3])[0..3] && Val(Stream([3])[..3]) == 3
  {
    hide Val;
    assert [3][..0] == [] && [3][0] == 3 && Stream([]) == [];
    assert Stream([3]) == ToBits(3, 8);
    assert ToBits(3, 8) == [true] + ToBits(1, 7) && ToBits(1, 7) == [true] + ToBits(0, 6) && ToBits(0, 6) == [false] + ToBits(0, 5);
    assert ToBits(3, 8)[..3] == [true, true, false];
    ThreeIs();
  }

  lemma ThreeIs()
    ensures Val([true, true, false]) == 3
  {
    assert [true, true, false][1..] == [true, false] && [true, false][1..] == [false] && [false][1..] == [];
    assert Val([false]) == 0 && Val([true, false]) == 1;
  }

  // ----- Unpacking -----

  datatype Result<+T> = Success(value: T) | StopIteration | NegativeShift

  /** The bytes read so far are the fields taken out so far and the pending bits, which the buffer holds. */
  ghost predicate Reading(data: seq<Byte>, pos: nat, codes: seq<int>, bits: nat, buf: nat, bitsInBuf: nat, pending: Bits)
    requires bits > 0
  {
    && pos <= |data| && AllInField(codes, bits)
    && Stream(data[..pos]) == CodeBits(codes, bits) + pending
    && buf == Val(pending) && bitsInBuf == |pending|
  }

  /**
   * _unpack_codes. It succeeds exactly if the data holds n fields, and then it has read no
   * more bytes than these fields touch.
   */
  method UnpackCodes(data: seq<Byte>, n: nat, bits: int) returns (r: Result<seq<int>>, ghost consumed: nat)
    ensures r.NegativeShift? <==> bits <= 0
    ensures bits > 0 ==> (r.Success? <==> bits * n <= 8 * |data|)
    ensures r.Success? ==>
      && |r.value| == n && AllInField(r.value, bits)
      && CodeBits(r.value, bits) <= Stream(data)
      && consumed == (bits * n + 7) / 8
    ensures r.Success? ==> forall k :: 0 <= k < n ==> FieldIs(Stream(data), bits, k, r.value[k] + (Pow2(bits - 1) - 1))
  {
    hide CodeBits, Val, Stream, AllInField, FieldIs, Pow2;
    consumed := 0;
    if bits <= 0 {
      return NegativeShift, consumed;
    }
    var maxC, mask := Pow2(bits - 1) - 1, Pow2(bits) - 1;
    var codes: seq<int> := [];
    var buf: nat, bitsInBuf: nat, pos: nat := 0, 0, 0;
    ghost var pending: Bits := [];
    StartReading(data, bits);
    for k := 0 to n
      invariant |codes| == k && Reading(data, pos, codes, bits, buf, bitsInBuf, pending) && bitsInBuf < 8
    {
      while bitsInBuf < bits
        invariant Reading(data, pos, codes, bits, buf, bitsInBuf, pending) && bitsInBuf < bits + 8
        decreases bits - bitsInBuf
      {
        if pos == |data| {
          assert data[..pos] == data;
          FieldsNotHeld(bits, k, n, |data|, bitsInBuf);
          return StopIteration, consumed;
        }
        NextByte(data, pos, CodeBits(codes, bits), pending);
        buf := BitOr(buf, Shl(data[pos], bitsInBuf));
        pending := pending + ToBits(data[pos], 8);
        pos := pos + 1;
        bitsInBuf := bitsInBuf + 8;
      }
      CutField(pending, bits);
      TakeField(codes, pending[..bits], pending[bits..], bits);
      codes := codes + [BitAnd(buf, mask) - maxC];
      buf := Shr(buf, bits);
      pending := pending[bits..];
      bitsInBuf := bitsInBuf - bits;
    }
    consumed := pos;
    StreamPrefix(data, pos);
    assert 8 * pos == bits * n + bitsInBuf;
    r := Success(codes);
    FieldsOf(codes, bits, Stream(data));
  }

  lemma StartReading(data: seq<Byte>, bits: nat)
    requires bits > 0
    ensures Reading(data, 0, [], bits, 0, 0, [])
  {
    assert data[..0] == [];
  }

  lemma FieldsNotHeld(bits: nat, k: nat, n: nat, len: nat, held: nat)
    requires k < n && 8 * len == bits * k + held && held < bits
    ensures 8 * len < bits * n
  {
    assert bits * (n - k - 1) >= 0;
    assert bits * n == bits * k + bits + bits * (n - k - 1);
  }

  lemma NextByte(data: seq<Byte>, pos: nat, head: Bits, pending: Bits)
    requires pos < |data| && Stream(data[..pos]) == head + pending
    ensures Stream(data[..pos + 1]) == head + (pending + ToBits(data[pos], 8))
    ensures BitOr(Val(pending), Shl(data[pos], |pending|)) == Val(pending + ToBits(data[pos], 8))
  {
    hide Val, Shl, BitOr, ToBits, Stream, Pow2;
    StreamSnoc(data, pos);
    Regroup(head, pending, ToBits(data[pos], 8));
    Pow2Eight();
    ValToBits(data[pos], 8);
    OrAppends(pending, ToBits(data[pos], 8));
  }

  lemma StreamSnoc(data: seq<Byte>, pos: nat)
    requires pos < |data|
    ensures Stream(data[..pos + 1]) == Stream(data[..pos]) + ToBits(data[pos], 8)
  {
    hide ToBits;
    assert data[..pos + 1][..pos] == data[..pos];
  }

  lemma Regroup(a: Bits, b: Bits, c: Bits)
    ensures (a + b) + c == a + (b + c)
  {
  }

  lemma TakeField(codes: seq<int>, head: Bits, rest: Bits, bits: nat)
    requires bits > 0 && |head| == bits && AllInField(codes, bits)
    ensures var code := BitAnd(Val(head + rest), Pow2(bits) - 1) - MaxCode(bits);
      && AllInField(codes + [code], bits)
      && CodeBits(codes + [code], bits) + rest == CodeBits(codes, bits) + (head + rest)
    ensures Shr(Val(head + rest), bits) == Val(rest)
  {
    hide *;
    Halves(head, rest);
    MaskTakes(head + rest, bits);
    ShiftDrops(head + rest, bits);
    TakeParts(codes, Val(head) - MaxCode(bits), head, rest, bits);
  }

  lemma Halves(a: Bits, b: Bits)
    ensures (a + b)[..|a|] == a && (a + b)[|a|..] == b
  {
  }

  lemma CutField(pending: Bits, n: nat)
    requires n <= |pending|
    ensures pending == pending[..n] + pending[n..]
  {
  }

  lemma TakeParts(codes: seq<int>, code: int, head: Bits, rest: Bits, bits: nat)
    requires bits > 0 && |head| == bits && AllInField(codes, bits) && code == Val(head) - MaxCode(bits)
    ensures AllInField(codes + [code], bits)
    ensures CodeBits(codes + [code], bits) + rest == CodeBits(codes, bits) + (head + rest)
  {
    hide *;
    FieldOfVal(head);
    CodeBitsSnoc(codes, code, bits);
    Regroup(CodeBits(codes, bits), head, rest);
  }

  /** Bits are the field of the code that their number stands for. */
  lemma FieldOfVal(b: Bits)
    requires b != []
    ensures InField(Val(b) - MaxCode(|b|), |b|) && Field(Val(b) - MaxCode(|b|), |b|) == b
  {
    hide Val, ToBits, Pow2;
    ToBitsVal(b);
  }

  lemma {:induction false} StreamPrefix(data: seq<Byte>, pos: nat)
    requires pos <= |data|
    ensures Stream(data[..pos]) <= Stream(data)
    decreases |data|
  {
    if pos == |data| {
      assert data[..pos] == data;
    } else {
      var init := data[..|data| - 1];
      assert init[..pos] == data[..pos];
      StreamPrefix(init, pos);
    }
  }

  // ----- Packing -----

  /** The codes pack_codes is documented for: symmetric around zero. */
  ghost predicate AllInRange(codes: seq<int>, bits: nat)
    requires bits > 0
  {
    forall k :: 0 <= k < |codes| ==> 1 - Pow2(bits - 1) <= codes[k] <= Pow2(bits - 1) - 1
  }

  lemma RangeInField(codes: seq<int>, bits: nat)
    requires bits > 0 && AllInRange(codes, bits)
    ensures AllInField(codes, bits)
  {
    assert Pow2(bits) == 2 * Pow2(bits - 1);
  }

  /** The bytes written so far and the pending bits are the fields of the first k codes. */
  ghost predicate Writing(codes: seq<int>, k: nat, bits: nat, out: seq<Byte>, buf: nat, bitsInBuf: nat, pending: Bits)
    requires bits > 0
  {
    && k <= |codes| && AllInField(codes[..k], bits)
    && CodeBits(codes[..k], bits) == Stream(out) + pending && buf == Val(pending) && bitsInBuf == |pending|
  }

  /**
   * pack_codes: the fields, then zero bits up to the next whole byte. Every field is the
   * code plus the offset that makes all codes of the documented range non-negative.
   */
  method PackCodes(codes: seq<int>, bits: nat) returns (out: seq<Byte>)
    requires bits > 0 && AllInRange(codes, bits)
    ensures PackedInto(codes, bits, out)
  {
    RangeInField(codes, bits);
    var maxC := Pow2(bits - 1) - 1;
    assert maxC == MaxCode(bits);
    hide CodeBits, Val, Stream, Field, FieldIs, Writing, BitAnd, BitOr, Shl, Shr, MaxCode, Pow2, AllInField, InField, AllInRange, PackedInto;
    out := [];
    var buf: nat, bitsInBuf: nat := 0, 0;
    ghost var pending: Bits := [];
    StartWriting(codes, bits);
    for k := 0 to |codes|
      invariant Writing(codes, k, bits, out, buf, bitsInBuf, pending) && bitsInBuf < 8
    {
      FieldWritten(codes, k, bits, out, buf, bitsInBuf, pending);
      buf := BitOr(buf, Shl(codes[k] + maxC, bitsInBuf));
      pending := pending + Field(codes[k], bits);
      bitsInBuf := bitsInBuf + bits;
      while bitsInBuf >= 8
        invariant Writing(codes, k + 1, bits, out, buf, bitsInBuf, pending)
      {
        ByteWritten(codes, k + 1, bits, out, buf, bitsInBuf, pending);
        out := out + [BitAnd(buf, 0xFF)];
        buf := Shr(buf, 8);
        pending := pending[8..];
        bitsInBuf := bitsInBuf - 8;
      }
    }
    AllWritten(codes, bits, out, buf, bitsInBuf, pending);
    if bitsInBuf > 0 {
      out := out + [BitAnd(buf, 0xFF)];
    }
  }

  /** The fields, zero bits up to the next whole byte, and nothing else. */
  ghost predicate PackedInto(codes: seq<int>, bits: nat, out: seq<Byte>)
    requires bits > 0
  {
    && AllInField(codes, bits) && |out| == (bits * |codes| + 7) / 8
    && Stream(out) == CodeBits(codes, bits) + Zeros(8 * |out| - bits * |codes|)
    && forall k :: 0 <= k < |codes| ==> FieldIs(Stream(out), bits, k, codes[k] + (Pow2(bits - 1) - 1))
  }

  lemma AllWritten(codes: seq<int>, bits: nat, out: seq<Byte>, buf: nat, bitsInBuf: nat, pending: Bits)
    requires bits > 0 && Writing(codes, |codes|, bits, out, buf, bitsInBuf, pending) && bitsInBuf < 8
    ensures bitsInBuf == 0 ==> PackedInto(codes, bits, out)
    ensures bitsInBuf > 0 ==> BitAnd(buf, 0xFF) < 256 && PackedInto(codes, bits, out + [BitAnd(buf, 0xFF)])
  {
    hide CodeBits, Val, Stream, FieldIs, BitAnd, AllInField, Pow2, Writing;
    WrittenSoFar(codes, bits, out, buf, bitsInBuf, pending);
    if bitsInBuf > 0 {
      PadLastByte(out, pending);
      var last := out + [BitAnd(buf, 0xFF)];
      LengthRounds(bits * |codes|, |last|);
      FieldsOf(codes, bits, Stream(last));
    } else {
      LengthRounds(bits * |codes|, |out|);
      FieldsOf(codes, bits, Stream(out));
    }
  }

  lemma WrittenSoFar(codes: seq<int>, bits: nat, out: seq<Byte>, buf: nat, bitsInBuf: nat, pending: Bits)
    requires bits > 0 && Writing(codes, |codes|, bits, out, buf, bitsInBuf, pending)
    ensures AllInField(codes, bits)
    ensures CodeBits(codes, bits) == Stream(out) + pending && buf == Val(pending) && bitsInBuf == |pending|
    ensures bits * |codes| == 8 * |out| + bitsInBuf
  {
    assert codes[..|codes|] == codes;
  }

  lemma FieldWritten(codes: seq<int>, k: nat, bits: nat, out: seq<Byte>, buf: nat, bitsInBuf: nat, pending: Bits)
    requires bits > 0 && k < |codes| && AllInField(codes, bits)
    requires Writing(codes, k, bits, out, buf, bitsInBuf, pending)
    ensures codes[k] + MaxCode(bits) >= 0 && InField(codes[k], bits)
    ensures Writing(codes, k + 1, bits, out, BitOr(buf, Shl(codes[k] + MaxCode(bits), bitsInBuf)), bitsInBuf + bits,
      pending + Field(codes[k], bits))
  {
    hide CodeBits, Val, BitOr, Shl, Stream, Field, MaxCode, Pow2;
    assert codes[..k + 1] == codes[..k] + [codes[k]];
    AddField(codes[..k], codes[k], bits, pending);
    Regroup(Stream(out), pending, Field(codes[k], bits));
  }

  lemma ByteWritten(codes: seq<int>, k: nat, bits: nat, out: seq<Byte>, buf: nat, bitsInBuf: nat, pending: Bits)
    requires bits > 0 && bitsInBuf >= 8 && Writing(codes, k, bits, out, buf, bitsInBuf, pending)
    ensures BitAnd(buf, 0xFF) < 256 && |pending| >= 8
    ensures Writing(codes, k, bits, out + [BitAnd(buf, 0xFF)], Shr(buf, 8), bitsInBuf - 8, pending[8..])
  {
    hide CodeBits, Val, BitAnd, Shr, Stream, AllInField;
    TakeByte(out, pending);
  }

  /** The last byte holds the bits that are left, with zeros above them. */
  lemma PadLastByte(out: seq<Byte>, pending: Bits)
    requires 0 < |pending| < 8
    ensures BitAnd(Val(pending), 0xFF) < 256
    ensures Stream(out + [BitAnd(Val(pending), 0xFF)]) == Stream(out) + pending + Zeros(8 - |pending|)
  {
    hide Val, BitAnd, Stream;
    var full := pending + Zeros(8 - |pending|);
    PadKeepsVal(pending, 8 - |pending|);
    TakeByte(out, full);
    assert full[8..] == [];
    Regroup(Stream(out), pending, Zeros(8 - |pending|));
  }

  lemma LengthRounds(n: nat, bytes: nat)
    requires n <= 8 * bytes < n + 8
    ensures bytes == (n + 7) / 8
  {
  }

  lemma StartWriting(codes: seq<int>, bits: nat)
    requires bits > 0
    ensures Writing(codes, 0, bits, [], 0, 0, [])
  {
  }

  lemma AddField(codes: seq<int>, code: int, bits: nat, pending: Bits)
    requires bits > 0 && AllInField(codes, bits) && InField(code, bits)
    ensures AllInField(codes + [code], bits)
    ensures CodeBits(codes + [code], bits) == CodeBits(codes, bits) + Field(code, bits)
    ensures BitOr(Val(pending), Shl(code + MaxCode(bits), |pending|)) == Val(pending + Field(code, bits))
  {
    hide CodeBits, Val, BitOr, Shl;
    CodeBitsSnoc(codes, code, bits);
    ValToBits(code + MaxCode(bits), bits);
    OrAppends(pending, Field(code, bits));
  }

  lemma TakeByte(out: seq<Byte>, pending: Bits)
    requires |pending| >= 8
    ensures BitAnd(Val(pending), 0xFF) < 256
    ensures Stream(out + [BitAnd(Val(pending), 0xFF)]) + pending[8..] == Stream(out) + pending
    ensures Shr(Val(pending), 8) == Val(pending[8..])
  {
    hide Val, Shr, BitAnd, ToBits;
    Pow2Eight();
    MaskTakes(pending, 8);
    ShiftDrops(pending, 8);
    ToBitsVal(pending[..8]);
    var b := BitAnd(Val(pending), 0xFF);
    assert (out + [b])[..|out|] == out;
    assert pending == pending[..8] + pending[8..];
  }

  /** Unpacking inverts packing, whatever follows the packed block. */
  lemma UnpackInvertsPack(codes: seq<int>, bits: nat, data: seq<Byte>, unpacked: seq<int>)
    requires bits > 0 && |unpacked| == |codes| && AllInField(codes, bits) && AllInField(unpacked, bits)
    requires CodeBits(codes, bits) <= Stream(data) && CodeBits(unpacked, bits) <= Stream(data)
    ensures unpacked == codes
  {
    hide CodeBits, Stream;
    var n := bits * |codes|;
    assert CodeBits(codes, bits) == Stream(data)[..n];
    assert CodeBits(unpacked, bits) == Stream(data)[..n];
    CodeBitsInjective(codes, unpacked, bits);
  }
}
