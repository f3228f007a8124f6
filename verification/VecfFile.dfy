/**
 * The VECF2 embedding file: written by encode of scripts/vecf_e8.py, read by _load_vecf2
 * of scripts/hybrid_search.py and scripts/moe_router.py. A block is its two scale bytes
 * and its quantised codes; the float arithmetic that joins them is not modelled.
 */
module VecfFile {
  import opened BitPacking
  import opened Powers

  type Bytes = seq<Byte>

  datatype Block = Block(lo: Byte, hi: Byte, codes: seq<int>)
  datatype Record = Record(id: Bytes, blocks: seq<Block>)

  /** The header fields that follow the magic number. */
  datatype Header = Header(version: nat, dims: nat, blockDim: nat, bits: nat, count: nat, nBlocks: nat)

  const MAGIC: Bytes := [0x56, 0x43, 0x46, 0x32]

  // ----- Little-endian integers -----

  function LittleEndian(v: nat, width: nat): (b: Bytes)
    ensures |b| == width
  {
    if width == 0 then [] else [v % 256] + LittleEndian(v / 256, width - 1)
  }

  function FromLittleEndian(b: Bytes): nat {
    if b == [] then 0 else b[0] + 256 * FromLittleEndian(b[1..])
  }

  ghost function Limit(width: nat): (n: nat)
    ensures n >= 1
  {
    if width == 0 then 1 else 256 * Limit(width - 1)
  }

  lemma {:induction false} LittleEndianInverse(v: nat, width: nat)
    requires v < Limit(width)
    ensures FromLittleEndian(LittleEndian(v, width)) == v
  {
    if width > 0 {
      LittleEndianInverse(v / 256, width - 1);
      assert LittleEndian(v, width)[1..] == LittleEndian(v / 256, width - 1);
    }
  }

  // ----- Packed codes as a function -----

  /** The bytes of a bit string whose length is a multiple of eight. */
  ghost function BytesOf(bits: Bits): (b: Bytes)
    requires |bits| % 8 == 0
    ensures |b| == |bits| / 8
    decreases |bits|
  {
    if bits == [] then []
    else
      Pow2Eight();
      BytesOf(bits[..|bits| - 8]) + [Val(bits[|bits| - 8..])]
  }

  lemma BytesOfSnoc(a: Bits, b: Bits)
    requires |a| % 8 == 0 && |b| == 8
    ensures Val(b) < 256 && BytesOf(a + b) == BytesOf(a) + [Val(b)]
  {
    hide Val;
    Pow2Eight();
    assert (a + b)[..|a + b| - 8] == a && (a + b)[|a + b| - 8..] == b;
  }

  lemma {:induction false} BytesOfStream(data: Bytes)
    ensures BytesOf(Stream(data)) == data
  {
    if data != [] {
      hide BytesOf, Val, ToBits, Stream;
      var init, last := data[..|data| - 1], data[|data| - 1];
      StreamSnoc(data, |data| - 1);
      assert data[..|data| - 1 + 1] == data;
      BytesOfStream(init);
      Pow2Eight();
      ValToBits(last, 8);
      BytesOfSnoc(Stream(init), ToBits(last, 8));
    }
  }

  ghost function PackedSize(n: nat, bits: nat): nat {
    (n * bits + 7) / 8
  }

  ghost function PackedBits(codes: seq<int>, bits: nat): (b: Bits)
    requires bits > 0 && AllInField(codes, bits)
    ensures |b| == 8 * PackedSize(|codes|, bits)
  {
    assert bits * |codes| == |codes| * bits;
    CodeBits(codes, bits) + Zeros(8 * PackedSize(|codes|, bits) - bits * |codes|)
  }

  /** The bytes that pack_codes writes. */
  ghost function Packed(codes: seq<int>, bits: nat): (b: Bytes)
    requires bits > 0 && AllInField(codes, bits)
    ensures |b| == PackedSize(|codes|, bits)
  {
    BytesOf(PackedBits(codes, bits))
  }

  lemma PackedIs(codes: seq<int>, bits: nat, out: Bytes)
    requires bits > 0 && PackedInto(codes, bits, out)
    ensures out == Packed(codes, bits)
  {
    hide Stream, CodeBits, BytesOf, FieldIs;
    assert bits * |codes| == |codes| * bits;
    BytesOfStream(out);
  }

  /** What the unpacker finds in packed codes. */
  lemma PackedStream(codes: seq<int>, bits: nat)
    requires bits > 0 && AllInRange(codes, bits)
    ensures AllInField(codes, bits) && CodeBits(codes, bits) <= Stream(Packed(codes, bits))
  {
    RangeInField(codes, bits);
    StreamBytesOf(PackedBits(codes, bits));
  }

  lemma {:induction false} StreamBytesOf(bits: Bits)
    requires |bits| % 8 == 0
    ensures Stream(BytesOf(bits)) == bits
    decreases |bits|
  {
    hide *;
    if bits == [] {
      StreamOfNothing();
    } else {
      CutByte(bits);
      StreamBytesOf(bits[..|bits| - 8]);
      StreamBytesOfStep(bits[..|bits| - 8], bits[|bits| - 8..]);
    }
  }

  lemma StreamOfNothing()
    ensures Stream(BytesOf([])) == []
  {
  }

  lemma CutByte(bits: Bits)
    requires |bits| >= 8
    ensures bits == bits[..|bits| - 8] + bits[|bits| - 8..]
  {
  }

  lemma StreamBytesOfStep(init: Bits, last: Bits)
    requires |init| % 8 == 0 && |last| == 8 && Stream(BytesOf(init)) == init
    ensures Stream(BytesOf(init + last)) == init + last
  {
    hide *;
    BytesOfSnoc(init, last);
    StreamOfSnoc(BytesOf(init), Val(last));
    ToBitsVal(last);
  }

  lemma StreamOfSnoc(data: Bytes, b: Byte)
    ensures Stream(data + [b]) == Stream(data) + ToBits(b, 8)
  {
    hide ToBits;
    assert (data + [b])[..|data|] == data;
  }

  // ----- The layout -----

  ghost predicate GoodBlock(b: Block, h: Header) {
    h.bits > 0 && |b.codes| == h.blockDim && AllInRange(b.codes, h.bits) && AllInField(b.codes, h.bits)
  }

  ghost predicate GoodRecord(r: Record, h: Header) {
    |r.id| < 65536 && |r.blocks| == h.nBlocks && forall k :: 0 <= k < |r.blocks| ==> GoodBlock(r.blocks[k], h)
  }

  /** Fields that fit their widths, and a record list as long as the header says. */
  ghost predicate GoodFile(h: Header, records: seq<Record>) {
    && h.bits > 0 && |records| == h.count && h.dims == h.nBlocks * h.blockDim
    && h.version < Limit(4) && h.dims < Limit(4) && h.blockDim < Limit(4)
    && h.bits < Limit(4) && h.count < Limit(4) && h.nBlocks < Limit(4)
    && forall k :: 0 <= k < |records| ==> GoodRecord(records[k], h)
  }

  ghost function BlockBytes(b: Block, h: Header): (s: Bytes)
    requires GoodBlock(b, h)
    ensures |s| == 2 + PackedSize(h.blockDim, h.bits)
  {
    [b.lo, b.hi] + Packed(b.codes, h.bits)
  }

  ghost function BlocksBytes(bs: seq<Block>, h: Header): Bytes
    requires forall k :: 0 <= k < |bs| ==> GoodBlock(bs[k], h)
  {
    if bs == [] then [] else BlockBytes(bs[0], h) + BlocksBytes(bs[1..], h)
  }

  ghost function RecordBytes(r: Record, h: Header): Bytes
    requires GoodRecord(r, h)
  {
    LittleEndian(|r.id|, 2) + r.id + BlocksBytes(r.blocks, h)
  }

  ghost function RecordsBytes(rs: seq<Record>, h: Header): Bytes
    requires forall k :: 0 <= k < |rs| ==> GoodRecord(rs[k], h)
  {
    if rs == [] then [] else RecordBytes(rs[0], h) + RecordsBytes(rs[1..], h)
  }

  ghost function HeaderBytes(h: Header): (s: Bytes)
    ensures |s| == 28
  {
    MAGIC + LittleEndian(h.version, 4) + LittleEndian(h.dims, 4) + LittleEndian(h.blockDim, 4)
    + LittleEndian(h.bits, 4) + LittleEndian(h.count, 4) + LittleEndian(h.nBlocks, 4)
  }

  ghost function FileBytes(h: Header, rs: seq<Record>): Bytes
    requires GoodFile(h, rs)
  {
    HeaderBytes(h) + RecordsBytes(rs, h)
  }

  // ----- Writing -----

  lemma {:induction false} BlocksSnoc(bs: seq<Block>, b: Block, h: Header)
    requires GoodBlock(b, h) && forall k :: 0 <= k < |bs| ==> GoodBlock(bs[k], h)
    ensures BlocksBytes(bs + [b], h) == BlocksBytes(bs, h) + BlockBytes(b, h)
  {
    hide BlockBytes;
    if bs == [] {
      assert (bs + [b])[1..] == [];
    } else {
      assert (bs + [b])[1..] == bs[1..] + [b];
      BlocksSnoc(bs[1..], b, h);
    }
  }

  lemma {:induction false} RecordsSnoc(rs: seq<Record>, r: Record, h: Header)
    requires GoodRecord(r, h) && forall k :: 0 <= k < |rs| ==> GoodRecord(rs[k], h)
    ensures RecordsBytes(rs + [r], h) == RecordsBytes(rs, h) + RecordBytes(r, h)
  {
    hide RecordBytes;
    if rs == [] {
      assert (rs + [r])[1..] == [];
    } else {
      assert (rs + [r])[1..] == rs[1..] + [r];
      RecordsSnoc(rs[1..], r, h);
    }
  }

  method EncodeRecord(r: Record, h: Header) returns (out: Bytes)
    requires GoodRecord(r, h)
    ensures out == RecordBytes(r, h)
  {
    hide GoodBlock, Packed, BlocksBytes, BlockBytes;
    var body: Bytes := [];
    StartBlocks(h);
    assert r.blocks[..0] == [];
    for b := 0 to |r.blocks|
      invariant body == BlocksBytes(r.blocks[..b], h)
    {
      var chunk := EncodeBlock(r.blocks[b], h);
      BlocksSnoc(r.blocks[..b], r.blocks[b], h);
      assert r.blocks[..b + 1] == r.blocks[..b] + [r.blocks[b]];
      body := body + chunk;
    }
    assert r.blocks[..|r.blocks|] == r.blocks;
    out := LittleEndian(|r.id|, 2) + r.id + body;
  }

  lemma StartBlocks(h: Header)
    ensures BlocksBytes([], h) == []
  {
  }

  method EncodeBlock(b: Block, h: Header) returns (out: Bytes)
    requires GoodBlock(b, h)
    ensures out == BlockBytes(b, h)
  {
    hide Packed, PackedInto, AllInRange, AllInField;
    var packed := PackCodes(b.codes, h.bits);
    PackedIs(b.codes, h.bits, packed);
    out := [b.lo, b.hi] + packed;
  }

  /** encode, for records that are already quantised. */
  method Encode(h: Header, records: seq<Record>) returns (out: Bytes)
    requires GoodFile(h, records)
    ensures out == FileBytes(h, records)
  {
    hide GoodRecord, RecordBytes;
    var body: Bytes := [];
    assert records[..0] == [];
    for k := 0 to |records|
      invariant body == RecordsBytes(records[..k], h)
    {
      var chunk := EncodeRecord(records[k], h);
      RecordsSnoc(records[..k], records[k], h);
      assert records[..k + 1] == records[..k] + [records[k]];
      body := body + chunk;
    }
    assert records[..|records|] == records;
    var header := MAGIC + LittleEndian(h.version, 4) + LittleEndian(h.dims, 4) + LittleEndian(h.blockDim, 4)
      + LittleEndian(h.bits, 4) + LittleEndian(h.count, 4) + LittleEndian(h.nBlocks, 4);
    out := header + body;
  }

  // ----- What a file holds -----

  /** The header fields that the loader uses. */
  datatype Layout = Layout(dims: nat, blockDim: nat, bits: nat, count: nat, nBlocks: nat)

  /** data[start:start + n], which Python cuts at the end of the data. */
  ghost function Slice(data: Bytes, start: nat, n: nat): Bytes {
    if start >= |data| then [] else data[start..if start + n <= |data| then start + n else |data|]
  }

  /** The size of a block with its scale. */
  ghost function BlockSize(l: Layout): nat {
    2 + (l.blockDim * l.bits + 7) / 8
  }

  ghost function Offset(start: nat, size: nat, k: nat): nat {
    if k == 0 then start else Offset(start, size, k - 1) + size
  }

  /** At off the data continue with the scale and the packed codes of the block. */
  ghost predicate BlockAt(data: Bytes, off: nat, l: Layout, b: Block) {
    && l.bits >= 2 && off + 2 <= |data| && b.lo == data[off] && b.hi == data[off + 1]
    && |b.codes| == l.blockDim && AllInField(b.codes, l.bits)
    && CodeBits(b.codes, l.bits) <= Stream(Slice(data, off + 2, PackedSize(l.blockDim, l.bits)))
  }

  ghost predicate BlocksAt(data: Bytes, off: nat, l: Layout, bs: seq<Block>) {
    forall k :: 0 <= k < |bs| ==> BlockAt(data, Offset(off, BlockSize(l), k), l, bs[k])
  }

  /** The first k blocks have a place in the row of a vector, or are broadcast into it. */
  ghost predicate Fits(l: Layout, k: nat) {
    k == 0 || l.blockDim == 1 || k * l.blockDim <= l.dims
  }

  ghost function IdLength(data: Bytes, off: nat): nat {
    if off + 2 <= |data| then FromLittleEndian(data[off..off + 2]) else 0
  }

  ghost predicate RecordAt(data: Bytes, off: nat, l: Layout, r: Record) {
    && off + 2 <= |data| && r.id == Slice(data, off + 2, IdLength(data, off))
    && |r.blocks| == l.nBlocks && Fits(l, l.nBlocks)
    && BlocksAt(data, off + 2 + IdLength(data, off), l, r.blocks)
  }

  ghost function RecordEnd(data: Bytes, off: nat, l: Layout): nat {
    Offset(off + 2 + IdLength(data, off), BlockSize(l), l.nBlocks)
  }

  /** Where the record with number k starts. */
  ghost function RecordStart(data: Bytes, off: nat, l: Layout, k: nat): nat {
    if k == 0 then off else RecordEnd(data, RecordStart(data, off, l, k - 1), l)
  }

  ghost predicate RecordsAt(data: Bytes, off: nat, l: Layout, rs: seq<Record>) {
    forall k :: 0 <= k < |rs| ==> RecordAt(data, RecordStart(data, off, l, k), l, rs[k])
  }

  ghost predicate HasMagic(data: Bytes) {
    |data| >= 4 && data[..4] == MAGIC
  }

  ghost function LayoutOf(data: Bytes): Layout
    requires |data| >= 28
  {
    Layout(FromLittleEndian(data[8..12]), FromLittleEndian(data[12..16]), FromLittleEndian(data[16..20]),
           FromLittleEndian(data[20..24]), FromLittleEndian(data[24..28]))
  }

  /** The data are a file that holds these records. */
  ghost predicate FileAt(data: Bytes, rs: seq<Record>) {
    && HasMagic(data) && |data| >= 28 && LayoutOf(data).bits > 0
    && |rs| == LayoutOf(data).count && RecordsAt(data, 28, LayoutOf(data), rs)
  }

  /** The codes of a block are the numbers in its fields, less the offset of their width. */
  lemma LoadedCodes(data: Bytes, off: nat, l: Layout, b: Block)
    requires BlockAt(data, off, l, b)
    ensures forall k :: 0 <= k < l.blockDim ==>
      FieldIs(Stream(Slice(data, off + 2, PackedSize(l.blockDim, l.bits))), l.bits, k, b.codes[k] + (Pow2(l.bits - 1) - 1))
  {
    hide CodeBits, Stream, AllInField, FieldIs;
    FieldsOf(b.codes, l.bits, Stream(Slice(data, off + 2, PackedSize(l.blockDim, l.bits))));
  }

  // ----- Data hold at most one list of records -----

  lemma BlockUnique(data: Bytes, off: nat, l: Layout, a: Block, b: Block)
    requires BlockAt(data, off, l, a) && BlockAt(data, off, l, b)
    ensures a == b
  {
    hide CodeBits, Stream, AllInField;
    var stream := Stream(Slice(data, off + 2, PackedSize(l.blockDim, l.bits)));
    var x, y := CodeBits(a.codes, l.bits), CodeBits(b.codes, l.bits);
    assert x == stream[..|x|] == y;
    CodeBitsInjective(a.codes, b.codes, l.bits);
  }

  lemma RecordUnique(data: Bytes, off: nat, l: Layout, a: Record, b: Record)
    requires RecordAt(data, off, l, a) && RecordAt(data, off, l, b)
    ensures a == b
  {
    hide BlockAt;
    forall k | 0 <= k < l.nBlocks ensures a.blocks[k] == b.blocks[k] {
      BlockUnique(data, Offset(off + 2 + IdLength(data, off), BlockSize(l), k), l, a.blocks[k], b.blocks[k]);
    }
  }

  /** No data can be read as two different lists of records. */
  lemma FileUnique(data: Bytes, a: seq<Record>, b: seq<Record>)
    requires FileAt(data, a) && FileAt(data, b)
    ensures a == b
  {
    hide RecordAt;
    var l := LayoutOf(data);
    forall k | 0 <= k < |a| ensures a[k] == b[k] {
      RecordUnique(data, RecordStart(data, 28, l, k), l, a[k], b[k]);
    }
  }

  // ----- Reading -----

  datatype Error = BadMagic | NegativeShift | Truncated | ZeroDivision | ShapeMismatch
  datatype Loaded<+T> = Ok(value: T) | Failed(error: Error)

  /** One block: the scale, then the slice of bytes_per_block bytes; its codes are divided by the largest one. */
  method LoadBlock(data: Bytes, off: nat, l: Layout) returns (r: Loaded<Block>)
    requires l.bits > 0
    ensures r.Ok? ==> BlockAt(data, off, l, r.value)
    ensures r.Failed? ==> forall b :: !BlockAt(data, off, l, b)
    ensures r.Failed? ==> r.error == Truncated || (r.error == ZeroDivision && l.bits == 1)
  {
    hide CodeBits, Stream, AllInField;
    if off + 2 > |data| {
      return Failed(Truncated);
    }
    var bytesPerBlock := (l.blockDim * l.bits + 7) / 8;
    var slice := if off + 2 + bytesPerBlock <= |data| then data[off + 2..off + 2 + bytesPerBlock] else data[off + 2..];
    BlockNeedsBits(data, off, l);
    var codes, consumed := UnpackCodes(slice, l.blockDim, l.bits);
    if !codes.Success? {
      return Failed(Truncated);
    }
    if l.bits == 1 {
      return Failed(ZeroDivision);
    }
    r := Ok(Block(data[off], data[off + 1], codes.value));
  }

  lemma BlockNeedsBits(data: Bytes, off: nat, l: Layout)
    ensures forall b :: BlockAt(data, off, l, b) ==>
      l.bits * l.blockDim <= 8 * |Slice(data, off + 2, PackedSize(l.blockDim, l.bits))|
  {
    hide CodeBits, Stream, AllInField, Slice;
    forall b | BlockAt(data, off, l, b)
      ensures l.bits * l.blockDim <= 8 * |Slice(data, off + 2, PackedSize(l.blockDim, l.bits))|
    {
      assert |CodeBits(b.codes, l.bits)| == l.bits * l.blockDim;
    }
  }

  /** The blocks of one vector. */
  method LoadBlocks(data: Bytes, off: nat, l: Layout) returns (r: Loaded<seq<Block>>, end: nat)
    requires l.bits > 0
    ensures r.Ok? ==> |r.value| == l.nBlocks && BlocksAt(data, off, l, r.value) && Fits(l, l.nBlocks)
    ensures r.Ok? ==> end == Offset(off, BlockSize(l), l.nBlocks)
    ensures r.Failed? ==> forall bs :: |bs| == l.nBlocks && BlocksAt(data, off, l, bs) ==> !Fits(l, l.nBlocks)
    ensures r.Failed? ==>
      || r.error == Truncated
      || (r.error == ZeroDivision && l.bits == 1)
      || (r.error == ShapeMismatch && !Fits(l, l.nBlocks))
  {
    hide BlockAt, Fits;
    var blocks: seq<Block> := [];
    end := off;
    NothingToFit(l);
    for b := 0 to l.nBlocks
      invariant |blocks| == b && BlocksAt(data, off, l, blocks) && Fits(l, b)
      invariant end == Offset(off, BlockSize(l), b)
    {
      var block := LoadBlock(data, end, l);
      if block.Failed? {
        return Failed(block.error), end;
      }
      FitsNext(l, b, l.nBlocks);
      if l.blockDim != 1 && (b + 1) * l.blockDim > l.dims {
        return Failed(ShapeMismatch), end;
      }
      blocks := blocks + [block.value];
      end := end + 2 + (l.blockDim * l.bits + 7) / 8;
    }
    r := Ok(blocks);
  }

  lemma NothingToFit(l: Layout)
    ensures Fits(l, 0)
  {
  }

  /** A block without a place in the row leaves none for the whole vector. */
  lemma FitsNext(l: Layout, k: nat, n: nat)
    requires k < n
    ensures Fits(l, k + 1) <==> l.blockDim == 1 || (k + 1) * l.blockDim <= l.dims
    ensures Fits(l, n) ==> Fits(l, k + 1)
  {
    TimesMonotone(k + 1, n, l.blockDim);
  }

  lemma TimesMonotone(j: nat, n: nat, d: nat)
    requires j <= n
    ensures j * d <= n * d
  {
    assert n * d == j * d + (n - j) * d;
  }

  method LoadRecord(data: Bytes, off: nat, l: Layout) returns (r: Loaded<Record>, end: nat)
    requires l.bits > 0
    ensures r.Ok? ==> RecordAt(data, off, l, r.value) && end == RecordEnd(data, off, l)
    ensures r.Failed? ==> forall x :: !RecordAt(data, off, l, x)
    ensures r.Failed? ==>
      || r.error == Truncated
      || (r.error == ZeroDivision && l.bits == 1)
      || (r.error == ShapeMismatch && !Fits(l, l.nBlocks))
  {
    hide BlocksAt, Fits, FromLittleEndian;
    end := off;
    if off + 2 > |data| {
      return Failed(Truncated), end;
    }
    var idLen := FromLittleEndian(data[off..off + 2]);
    var id := if off + 2 + idLen <= |data| then data[off + 2..off + 2 + idLen] else data[off + 2..];
    var blocks;
    blocks, end := LoadBlocks(data, off + 2 + idLen, l);
    if blocks.Failed? {
      return Failed(blocks.error), end;
    }
    r := Ok(Record(id, blocks.value));
  }

  /** What the loader promises about its result. */
  ghost predicate LoadedFrom(data: Bytes, r: Loaded<seq<Record>>) {
    match r
    case Ok(rs) => FileAt(data, rs)
    case Failed(e) =>
      && (forall rs :: !FileAt(data, rs))
      && (e == BadMagic <==> !HasMagic(data))
      && (e == Error.NegativeShift <==> HasMagic(data) && |data| >= 28 && LayoutOf(data).bits == 0)
      && (e == ZeroDivision ==> |data| >= 28 && LayoutOf(data).bits == 1)
      && (e == ShapeMismatch ==> |data| >= 28 && !Fits(LayoutOf(data), LayoutOf(data).nBlocks))
  }

  /** _load_vecf2: it returns the records that the data hold, and fails exactly if they hold none. */
  method LoadVecf2(data: Bytes) returns (r: Loaded<seq<Record>>)
    ensures LoadedFrom(data, r)
  {
    hide RecordAt, RecordEnd, Fits, FromLittleEndian;
    if |data| < 4 || data[..4] != MAGIC {
      return Failed(BadMagic);
    }
    if |data| < 28 {
      return Failed(Truncated);
    }
    var l := Layout(FromLittleEndian(data[8..12]), FromLittleEndian(data[12..16]), FromLittleEndian(data[16..20]),
                    FromLittleEndian(data[20..24]), FromLittleEndian(data[24..28]));
    if l.bits == 0 {
      return Failed(Error.NegativeShift);
    }
    var records: seq<Record> := [];
    var pos: nat := 28;
    for i := 0 to l.count
      invariant |records| == i && RecordsAt(data, 28, l, records) && pos == RecordStart(data, 28, l, i)
    {
      var one, next := LoadRecord(data, pos, l);
      if one.Failed? {
        return Failed(one.error);
      }
      records := records + [one.value];
      pos := next;
    }
    r := Ok(records);
  }

  // ----- Reading inverts writing -----

  /** At offset off, the data continues with the given bytes. */
  ghost predicate At(data: Bytes, off: nat, s: Bytes) {
    off + |s| <= |data| && data[off..off + |s|] == s
  }

  lemma AtSplit(data: Bytes, off: nat, s: Bytes, t: Bytes)
    requires At(data, off, s + t)
    ensures At(data, off, s) && At(data, off + |s|, t)
  {
    var whole := data[off..off + |s + t|];
    assert s == (s + t)[..|s|] && t == (s + t)[|s|..];
    assert data[off..off + |s|] == whole[..|s|];
    assert data[off + |s|..off + |s| + |t|] == whole[|s|..];
  }

  ghost function LayoutFor(h: Header): Layout {
    Layout(h.dims, h.blockDim, h.bits, h.count, h.nBlocks)
  }

  lemma WrittenBlock(data: Bytes, off: nat, h: Header, b: Block)
    requires GoodBlock(b, h) && h.bits >= 2 && At(data, off, BlockBytes(b, h))
    ensures BlockAt(data, off, LayoutFor(h), b)
  {
    hide Packed, CodeBits, Stream;
    AtSplit(data, off, [b.lo, b.hi], Packed(b.codes, h.bits));
    PackedStream(b.codes, h.bits);
    assert Slice(data, off + 2, PackedSize(h.blockDim, h.bits)) == Packed(b.codes, h.bits);
    assert data[off..off + 2][0] == b.lo && data[off..off + 2][1] == b.hi;
  }

  lemma {:induction false} OffsetShift(start: nat, size: nat, k: nat)
    ensures Offset(start + size, size, k) == Offset(start, size, k + 1)
  {
    if k > 0 {
      OffsetShift(start, size, k - 1);
    }
  }

  lemma {:induction false} WrittenBlocks(data: Bytes, off: nat, h: Header, bs: seq<Block>)
    requires (forall k :: 0 <= k < |bs| ==> GoodBlock(bs[k], h)) && At(data, off, BlocksBytes(bs, h))
    ensures h.bits >= 2 ==> BlocksAt(data, off, LayoutFor(h), bs)
    ensures off + |BlocksBytes(bs, h)| == Offset(off, BlockSize(LayoutFor(h)), |bs|)
    decreases |bs|
  {
    hide BlockAt, BlockBytes, GoodBlock;
    if bs != [] {
      var l, size := LayoutFor(h), BlockSize(LayoutFor(h));
      AtSplit(data, off, BlockBytes(bs[0], h), BlocksBytes(bs[1..], h));
      WrittenBlocks(data, off + size, h, bs[1..]);
      OffsetShift(off, size, |bs| - 1);
      if h.bits >= 2 {
        WrittenBlock(data, off, h, bs[0]);
        forall k | 0 <= k < |bs| ensures BlockAt(data, Offset(off, size, k), l, bs[k]) {
          if k > 0 {
            OffsetShift(off, size, k - 1);
            assert bs[k] == bs[1..][k - 1];
          }
        }
      }
    }
  }

  /** A file of one-bit codes cannot be loaded once it has a block. */
  ghost predicate Loadable(h: Header) {
    h.bits >= 2 || h.nBlocks == 0
  }

  lemma WrittenRecord(data: Bytes, off: nat, h: Header, r: Record)
    requires GoodRecord(r, h) && h.dims == h.nBlocks * h.blockDim && At(data, off, RecordBytes(r, h))
    ensures Loadable(h) ==> RecordAt(data, off, LayoutFor(h), r)
    ensures off + |RecordBytes(r, h)| == RecordEnd(data, off, LayoutFor(h))
  {
    hide BlocksBytes, GoodBlock, LittleEndian, FromLittleEndian, BlockAt;
    var len := LittleEndian(|r.id|, 2);
    AtSplit(data, off, len + r.id, BlocksBytes(r.blocks, h));
    AtSplit(data, off, len, r.id);
    TwoByteLimit();
    LittleEndianInverse(|r.id|, 2);
    WrittenBlocks(data, off + 2 + |r.id|, h, r.blocks);
  }

  lemma TwoByteLimit()
    ensures Limit(2) == 65536
  {
    assert Limit(1) == 256;
  }

  lemma {:induction false} RecordStartShift(data: Bytes, off: nat, l: Layout, k: nat)
    ensures RecordStart(data, RecordEnd(data, off, l), l, k) == RecordStart(data, off, l, k + 1)
  {
    hide RecordEnd;
    if k > 0 {
      RecordStartShift(data, off, l, k - 1);
    }
  }

  lemma {:induction false} WrittenRecords(data: Bytes, off: nat, h: Header, rs: seq<Record>)
    requires (forall k :: 0 <= k < |rs| ==> GoodRecord(rs[k], h)) && h.dims == h.nBlocks * h.blockDim
    requires At(data, off, RecordsBytes(rs, h))
    ensures Loadable(h) ==> RecordsAt(data, off, LayoutFor(h), rs)
    ensures off + |RecordsBytes(rs, h)| == RecordStart(data, off, LayoutFor(h), |rs|)
    decreases |rs|
  {
    hide RecordAt, RecordEnd, RecordBytes, GoodRecord, Loadable;
    if rs != [] {
      var l := LayoutFor(h);
      var next := RecordEnd(data, off, l);
      AtSplit(data, off, RecordBytes(rs[0], h), RecordsBytes(rs[1..], h));
      WrittenRecord(data, off, h, rs[0]);
      WrittenRecords(data, next, h, rs[1..]);
      RecordStartShift(data, off, l, |rs| - 1);
      if Loadable(h) {
        forall k | 0 <= k < |rs| ensures RecordAt(data, RecordStart(data, off, l, k), l, rs[k]) {
          if k > 0 {
            RecordStartShift(data, off, l, k - 1);
            assert rs[k] == rs[1..][k - 1];
          }
        }
      }
    }
  }

  lemma FieldAt(data: Bytes, off: nat, v: nat, rest: Bytes)
    requires v < Limit(4) && At(data, off, LittleEndian(v, 4) + rest)
    ensures off + 4 <= |data| && FromLittleEndian(data[off..off + 4]) == v && At(data, off + 4, rest)
  {
    hide LittleEndian, FromLittleEndian;
    AtSplit(data, off, LittleEndian(v, 4), rest);
    LittleEndianInverse(v, 4);
  }

  lemma HeaderRead(data: Bytes, h: Header, sent: seq<Record>)
    requires GoodFile(h, sent) && data == FileBytes(h, sent)
    ensures HasMagic(data) && |data| >= 28 && LayoutOf(data) == LayoutFor(h)
    ensures At(data, 28, RecordsBytes(sent, h)) && |data| == 28 + |RecordsBytes(sent, h)|
  {
    hide LittleEndian, FromLittleEndian, RecordsBytes, GoodRecord;
    var body := RecordsBytes(sent, h);
    var f6 := LittleEndian(h.nBlocks, 4) + body;
    var f5 := LittleEndian(h.count, 4) + f6;
    var f4 := LittleEndian(h.bits, 4) + f5;
    var f3 := LittleEndian(h.blockDim, 4) + f4;
    var f2 := LittleEndian(h.dims, 4) + f3;
    var f1 := LittleEndian(h.version, 4) + f2;
    assert data == MAGIC + f1;
    assert data[0..0 + |MAGIC + f1|] == data;
    AtSplit(data, 0, MAGIC, f1);
    FieldAt(data, 4, h.version, f2);
    FieldAt(data, 8, h.dims, f3);
    FieldAt(data, 12, h.blockDim, f4);
    FieldAt(data, 16, h.bits, f5);
    FieldAt(data, 20, h.count, f6);
    FieldAt(data, 24, h.nBlocks, body);
  }

  /** A file with a block has codes of at least two bits. */
  lemma BlocksNeedTwoBits(data: Bytes, rs: seq<Record>)
    requires FileAt(data, rs) && rs != [] && rs[0].blocks != []
    ensures LayoutOf(data).bits >= 2
  {
    hide FromLittleEndian;
    var l := LayoutOf(data);
    assert RecordAt(data, RecordStart(data, 28, l, 0), l, rs[0]);
    assert BlockAt(data, Offset(28 + 2 + IdLength(data, 28), BlockSize(l), 0), l, rs[0].blocks[0]);
  }

  lemma UnloadableFails(data: Bytes, h: Header, r: Loaded<seq<Record>>)
    requires LoadedFrom(data, r) && |data| >= 28 && LayoutOf(data) == LayoutFor(h) && h.count > 0
    ensures r.Ok? ==> Loadable(h)
  {
    hide FromLittleEndian, BlocksAt;
    if r.Ok? && r.value[0].blocks != [] {
      BlocksNeedTwoBits(data, r.value);
    } else if r.Ok? {
      assert RecordAt(data, RecordStart(data, 28, LayoutFor(h), 0), LayoutFor(h), r.value[0]);
    }
  }

  /**
   * Loading inverts encoding: the result of the loader on an encoded file is the encoded
   * records, and the file ends with the last of them, except that one-bit codes fail.
   */
  lemma LoadInvertsEncode(h: Header, sent: seq<Record>, r: Loaded<seq<Record>>)
    requires GoodFile(h, sent)
    ensures LoadedFrom(FileBytes(h, sent), r) ==>
      && (r.Ok? <==> Loadable(h) || h.count == 0)
      && (r.Ok? ==> r.value == sent)
    ensures RecordStart(FileBytes(h, sent), 28, LayoutFor(h), h.count) == |FileBytes(h, sent)|
  {
    hide RecordAt, RecordEnd, RecordsBytes, GoodRecord, Loadable, FromLittleEndian;
    var data := FileBytes(h, sent);
    HeaderRead(data, h, sent);
    WrittenRecords(data, 28, h, sent);
    if LoadedFrom(data, r) {
      if Loadable(h) || h.count == 0 {
        assert FileAt(data, sent);
        if r.Ok? {
          FileUnique(data, r.value, sent);
        }
      } else {
        UnloadableFails(data, h, r);
      }
    }
  }

  /** One vector of one one-bit code can be written, and the written file cannot be loaded. */
  lemma OneBitExample(r: Loaded<seq<Record>>)
    ensures var h, sent := Header(2, 1, 1, 1, 1, 1), [Record([], [Block(0, 0, [0])])];
      GoodFile(h, sent) && (LoadedFrom(FileBytes(h, sent), r) ==> r.Failed?)
  {
    var h, sent := Header(2, 1, 1, 1, 1, 1), [Record([], [Block(0, 0, [0])])];
    assert Pow2(0) == 1;
    RangeInField([0], 1);
    assert GoodBlock(sent[0].blocks[0], h);
    TwoByteLimit();
    LoadInvertsEncode(h, sent, r);
  }
}
