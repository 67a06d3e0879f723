/** The bit packer: each index as its own big-endian field, most significant bit first. */
module Packing {
  import opened Bytes
  import opened Words

  /** Bit `b` of `x`, counted from the least significant. */
  function BitOf(x: nat, b: nat): bool {
    (x / Pow2(b)) % 2 == 1
  }

  predicate BitSet(b: bv8, s: nat)
    requires s < 8
  {
    (b >> s) & 1 == 1
  }

  /** Bit `pos` of a byte string, counted from the most significant bit of the first byte. */
  predicate GetBit(bytes: Hash, pos: nat)
    requires pos < 8 * |bytes|
  {
    BitSet(bytes[pos / 8], 7 - pos % 8)
  }

  function BitNumber(one: bool): nat {
    if one then 1 else 0
  }

  /** `b | ((bit as u8) << s)` */
  function OrBit(b: bv8, bit: nat, s: nat): bv8
    requires bit < 2 && s < 8
  {
    b | ((bit as bv8) << s)
  }

  lemma OrBitSets(b: bv8, bit: nat, s: nat, t: nat)
    requires bit < 2 && s < 8 && t < 8 && !BitSet(b, s)
    ensures BitSet(OrBit(b, bit, s), t) == if t == s then bit == 1 else BitSet(b, t)
  {
    if t == s {
      OrBitHere(b, bit, s);
    } else {
      OrBitElsewhere(b, bit, s, t);
    }
  }

  lemma OrBitHere(b: bv8, bit: nat, s: nat)
    requires bit < 2 && s < 8 && !BitSet(b, s)
    ensures BitSet(OrBit(b, bit, s), s) == (bit == 1)
  {}

  lemma OrBitElsewhere(b: bv8, bit: nat, s: nat, t: nat)
    requires bit < 2 && s < 8 && t < 8 && s != t
    ensures BitSet(OrBit(b, bit, s), t) == BitSet(b, t)
  {}

  lemma BitsMakeByte(a: bv8, b: bv8)
    requires BitSet(a, 0) == BitSet(b, 0) && BitSet(a, 1) == BitSet(b, 1)
    requires BitSet(a, 2) == BitSet(b, 2) && BitSet(a, 3) == BitSet(b, 3)
    requires BitSet(a, 4) == BitSet(b, 4) && BitSet(a, 5) == BitSet(b, 5)
    requires BitSet(a, 6) == BitSet(b, 6) && BitSet(a, 7) == BitSet(b, 7)
    ensures a == b
  {}

  /** Bit `pos` of the packed stream: field `pos / width`, most significant bit first. */
  predicate StreamBit(indices: seq<nat>, width: nat, pos: nat) {
    width > 0 && pos / width < |indices| && BitOf(indices[pos / width], width - 1 - pos % width)
  }

  /** The packing of `indices` into fields of `width` bits, padded with zero bits to whole bytes. */
  ghost predicate Packed(indices: seq<nat>, width: nat, bytes: Hash) {
    && |bytes| == CeilDiv8(width * |indices|)
    && forall pos: nat :: pos < 8 * |bytes| ==> GetBit(bytes, pos) == StreamBit(indices, width, pos)
  }

  lemma FieldFits(i: nat, n: nat, width: nat)
    requires i < n
    ensures 0 <= i * width <= (i + 1) * width <= width * n
    ensures (i + 1) * width == i * width + width
  {
    MulLe(i + 1, n, width);
  }

  /** Field `i` spells index `i`. */
  lemma StreamBitOfField(indices: seq<nat>, width: nat, i: nat, t: nat)
    requires i < |indices| && t < width
    ensures i * width + t < width * |indices|
    ensures StreamBit(indices, width, i * width + t) == BitOf(indices[i], width - 1 - t)
  {
    FieldFits(i, |indices|, width);
    DivUnique(i * width + t, width, i, t);
  }

  /** Past the last field the stream is zero. */
  lemma StreamPadding(indices: seq<nat>, width: nat, pos: nat)
    ensures StreamBit(indices, width, pos) ==> pos < width * |indices|
  {
    if StreamBit(indices, width, pos) {
      var i, t := pos / width, pos % width;
      assert pos == i * width + t;
      FieldFits(i, |indices|, width);
    }
  }

  // ---- Writing -----------------------------------------------------------------------------

  /** ORing one bit into a byte string changes that bit only. */
  lemma OrBitInBytes(before: Hash, after: Hash, pos: nat, bit: nat, q: nat)
    requires bit < 2 && pos < 8 * |before| && q < 8 * |before| && !GetBit(before, pos)
    requires after == before[pos / 8 := OrBit(before[pos / 8], bit, 7 - pos % 8)]
    ensures GetBit(after, q) == if q == pos then bit == 1 else GetBit(before, q)
  {
    if q / 8 == pos / 8 {
      OrBitSets(before[pos / 8], bit, 7 - pos % 8, 7 - q % 8);
    }
  }

  /** The first `pos` bits are those of the stream; the rest are still zero. */
  ghost predicate WrittenTo(indices: seq<nat>, width: nat, bytes: Hash, pos: nat) {
    && |bytes| == CeilDiv8(width * |indices|)
    && forall q: nat :: q < 8 * |bytes| ==> GetBit(bytes, q) == (q < pos && StreamBit(indices, width, q))
  }

  lemma WriteBit(indices: seq<nat>, width: nat, before: Hash, pos: nat, bit: nat)
    requires pos < width * |indices| && WrittenTo(indices, width, before, pos)
    requires bit == BitNumber(StreamBit(indices, width, pos))
    ensures pos / 8 < |before|
    ensures WrittenTo(indices, width, before[pos / 8 := OrBit(before[pos / 8], bit, 7 - pos % 8)], pos + 1)
  {
    var after := before[pos / 8 := OrBit(before[pos / 8], bit, 7 - pos % 8)];
    forall q: nat | q < 8 * |before|
      ensures GetBit(after, q) == if q == pos then bit == 1 else GetBit(before, q)
    {
      OrBitInBytes(before, after, pos, bit, q);
    }
  }

  lemma AllWritten(indices: seq<nat>, width: nat, bytes: Hash)
    requires WrittenTo(indices, width, bytes, width * |indices|)
    ensures Packed(indices, width, bytes)
  {
    forall pos: nat | pos < 8 * |bytes| ensures GetBit(bytes, pos) == StreamBit(indices, width, pos) {
      StreamPadding(indices, width, pos);
    }
  }

  /** The two loops of `compress_indices` and of `compress_indices_96_5`. */
  method PackIndices(indices: seq<u32>, width: nat, out: array<bv8>)
    requires out.Length == CeilDiv8(width * |indices|)
    requires WrittenTo(indices, width, out[..], 0)
    modifies out
    ensures Packed(indices, width, out[..])
  {
    var pos := 0;
    for i := 0 to |indices|
      invariant pos == i * width
      invariant WrittenTo(indices, width, out[..], pos)
    {
      pos := PackIndex(indices, width, i, pos, out);
      FieldFits(i, |indices|, width);
    }
    assert pos == width * |indices|;
    AllWritten(indices, width, out[..]);
  }

  /** The inner loop: the bits of one index, from bit `width - 1` down. */
  method PackIndex(indices: seq<u32>, width: nat, i: nat, pos: nat, out: array<bv8>) returns (pos': nat)
    requires i < |indices| && pos == i * width && WrittenTo(indices, width, out[..], pos)
    modifies out
    ensures pos' == pos + width && WrittenTo(indices, width, out[..], pos')
  {
    var idx := indices[i];
    pos' := pos;
    for b := width downto 0
      invariant pos' == pos + (width - b)
      invariant WrittenTo(indices, width, out[..], pos')
    {
      ghost var before := out[..];
      var bit := (idx / Pow2(b)) % 2;
      StreamBitOfField(indices, width, i, width - 1 - b);
      WriteBit(indices, width, before, pos', bit);
      var byte, shift := pos' / 8, 7 - pos' % 8;
      out[byte] := OrBit(out[byte], bit, shift);
      assert out[..] == before[byte := OrBit(before[byte], bit, shift)];
      pos' := pos' + 1;
    }
  }

  lemma NothingWritten(indices: seq<nat>, width: nat, bytes: Hash)
    requires |bytes| == CeilDiv8(width * |indices|)
    requires forall i :: 0 <= i < |bytes| ==> bytes[i] == 0
    ensures WrittenTo(indices, width, bytes, 0)
  {
    forall pos: nat | pos < 8 * |bytes| ensures !GetBit(bytes, pos) {
      ZeroByte(7 - pos % 8);
    }
  }

  lemma ZeroByte(s: nat)
    requires s < 8
    ensures !BitSet(0, s)
  {}

  method CompressIndices(cbits: nat, indices: seq<u32>) returns (bytes: Hash)
    ensures Packed(indices, cbits + 1, bytes)
  {
    var bitsPer := cbits + 1;
    var totalBytes := CeilDiv8(bitsPer * |indices|);
    var out := new bv8[totalBytes](_ => 0);
    NothingWritten(indices, bitsPer, out[..]);
    PackIndices(indices, bitsPer, out);
    bytes := out[..];
  }

  /** Bits per index at (96, 5). */
  const FIELD_BITS: nat := 17

  /** The GPU host's packer, whose buffer is sized for 32 indices. */
  method CompressIndices96_5(indices: seq<u32>) returns (bytes: Hash)
    requires |indices| == 32
    ensures Packed(indices, FIELD_BITS, bytes) && |bytes| == 68
  {
    var totalBytes := CeilDiv8(FIELD_BITS * 32);
    var out := new bv8[totalBytes](_ => 0);
    NothingWritten(indices, FIELD_BITS, out[..]);
    PackIndices(indices, FIELD_BITS, out);
    bytes := out[..];
  }

  // ---- Reading back ------------------------------------------------------------------------

  /** The big-endian number in bits start..start + width. */
  function ReadField(bytes: Hash, start: nat, width: nat): (x: nat)
    requires start + width <= 8 * |bytes|
  {
    if width == 0 then 0
    else 2 * ReadField(bytes, start, width - 1) + BitNumber(GetBit(bytes, start + width - 1))
  }

  /** `count` fields of `width` bits. */
  function Unpack(bytes: Hash, width: nat, count: nat): (indices: seq<nat>)
    requires width * count <= 8 * |bytes|
    ensures |indices| == count
  {
    seq(count, i requires 0 <= i < count => (FieldFits(i, count, width); ReadField(bytes, i * width, width)))
  }

  lemma HalfOf(x: nat, b: nat)
    ensures x / Pow2(b) == 2 * (x / Pow2(b + 1)) + BitNumber(BitOf(x, b))
  {
    var p := Pow2(b);
    assert Pow2(b + 1) == 2 * p;
    DivDiv(x, p);
  }

  /** The first `w` bits of field `i` are the leading bits of index `i`. */
  lemma {:induction false} ReadPrefix(indices: seq<nat>, width: nat, bytes: Hash, i: nat, w: nat)
    requires Packed(indices, width, bytes) && i < |indices| && w <= width && indices[i] < Pow2(width)
    ensures i * width + w <= 8 * |bytes| && ReadField(bytes, i * width, w) == indices[i] / Pow2(width - w)
  {
    FieldFits(i, |indices|, width);
    if w == 0 {
      DivUnique(indices[i], Pow2(width), 0, indices[i]);
    } else {
      ReadPrefix(indices, width, bytes, i, w - 1);
      HalfOf(indices[i], width - w);
      StreamBitOfField(indices, width, i, w - 1);
      assert GetBit(bytes, i * width + (w - 1)) == StreamBit(indices, width, i * width + (w - 1));
    }
  }

  /** Packing is lossless: the field reader undoes it. */
  lemma UnpackPacked(indices: seq<nat>, width: nat, bytes: Hash)
    requires Packed(indices, width, bytes)
    requires forall i :: 0 <= i < |indices| ==> indices[i] < Pow2(width)
    ensures Unpack(bytes, width, |indices|) == indices
  {
    forall i | 0 <= i < |indices| ensures Unpack(bytes, width, |indices|)[i] == indices[i] {
      FieldFits(i, |indices|, width);
      ReadPrefix(indices, width, bytes, i, width);
      assert indices[i] / 1 == indices[i];
    }
  }

  /** Packing is injective. */
  lemma PackingInjective(a: seq<nat>, b: seq<nat>, width: nat, bytes: Hash)
    requires |a| == |b| && Packed(a, width, bytes) && Packed(b, width, bytes)
    requires forall i :: 0 <= i < |a| ==> a[i] < Pow2(width) && b[i] < Pow2(width)
    ensures a == b
  {
    UnpackPacked(a, width, bytes);
    UnpackPacked(b, width, bytes);
  }

  /** The packed bytes are determined: both packers give the same bytes for the same indices. */
  lemma PackedUnique(indices: seq<nat>, width: nat, a: Hash, b: Hash)
    requires Packed(indices, width, a) && Packed(indices, width, b)
    ensures a == b
  {
    forall pos: nat | pos < 8 * |a| ensures GetBit(a, pos) == GetBit(b, pos) {
      assert GetBit(a, pos) == StreamBit(indices, width, pos);
    }
    forall i | 0 <= i < |a| ensures a[i] == b[i] {
      forall s: nat | s < 8 ensures BitSet(a[i], s) == BitSet(b[i], s) {
        assert GetBit(a, 8 * i + (7 - s)) == GetBit(b, 8 * i + (7 - s));
      }
      BitsMakeByte(a[i], b[i]);
    }
  }
}
