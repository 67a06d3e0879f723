/** How the searches lay rows out: 16-byte hash records beside one flat index buffer. */
module Storage {
  import opened Bytes
  import opened CountingSort
  import opened Equihash
  import opened KeySort
  import opened Pairs
  import opened Words

  const HASH_PAD: nat := 16
  const CBYTES: nat := 2

  /** `[u8; FP_HASH_PAD]` */
  type FixedHash = h: Hash | |h| == HASH_PAD witness Zeros(HASH_PAD)

  /** The record holds the row's hash followed by zero padding. */
  ghost predicate HoldsHash(h: FixedHash, hashBytes: nat, row: Row) {
    && |row.hash| == hashBytes
    && forall b: nat :: b < HASH_PAD ==> h[b] == ByteAt(row.hash, b)
  }

  ghost predicate StoresRow(h: FixedHash, slice: seq<u32>, hashBytes: nat, row: Row) {
    slice == row.indices && HoldsHash(h, hashBytes, row)
  }

  /** Where row `i` starts in the flat index buffer: `i * stride`. */
  function Offset(i: nat, stride: nat): nat {
    if i == 0 then 0 else Offset(i - 1, stride) + stride
  }

  lemma {:induction false} OffsetIsProduct(i: nat, stride: nat)
    ensures Offset(i, stride) == i * stride
  {
    if i > 0 {
      OffsetIsProduct(i - 1, stride);
    }
  }

  lemma {:induction false} SliceFits(i: nat, n: nat, stride: nat)
    requires i < n
    ensures Offset(i, stride) + stride <= Offset(n, stride)
  {
    if i < n - 1 {
      SliceFits(i, n - 1, stride);
    }
  }

  /** `indices[i * stride..(i + 1) * stride]` */
  function Slice(indices: seq<u32>, n: nat, stride: nat, i: nat): (s: seq<u32>)
    requires |indices| == Offset(n, stride) && i < n
    ensures |s| == stride
  {
    SliceFits(i, n, stride);
    indices[Offset(i, stride)..Offset(i, stride) + stride]
  }

  ghost predicate Stores(hashes: seq<FixedHash>, indices: seq<u32>, stride: nat, hashBytes: nat, rows: seq<Row>) {
    && |hashes| == |rows|
    && |indices| == Offset(|rows|, stride)
    && forall i: nat :: i < |rows| ==> StoresRow(hashes[i], Slice(indices, |rows|, stride, i), hashBytes, rows[i])
  }

  lemma StoredKeys(hashes: seq<FixedHash>, indices: seq<u32>, stride: nat, hashBytes: nat, rows: seq<Row>)
    requires Stores(hashes, indices, stride, hashBytes, rows)
    ensures Keys(hashes) == RowKeys(rows)
  {
    forall i: nat | i < |rows| ensures KeyOf(hashes[i]) == KeyOf(rows[i].hash) {
      assert StoresRow(hashes[i], Slice(indices, |rows|, stride, i), hashBytes, rows[i]);
      assert hashes[i][0] == ByteAt(rows[i].hash, 0) && hashes[i][1] == ByteAt(rows[i].hash, 1);
    }
  }

  lemma SliceOfAppend(indices: seq<u32>, more: seq<u32>, n: nat, stride: nat)
    requires |indices| == Offset(n, stride) && |more| == stride
    ensures |indices + more| == Offset(n + 1, stride)
    ensures forall i: nat :: i < n ==> Slice(indices + more, n + 1, stride, i) == Slice(indices, n, stride, i)
    ensures Slice(indices + more, n + 1, stride, n) == more
  {
    forall i: nat | i < n
      ensures Slice(indices + more, n + 1, stride, i) == Slice(indices, n, stride, i)
    {
      SliceFits(i, n, stride);
    }
  }

  /** Pushing one row. */
  lemma StoresAppend(hashes: seq<FixedHash>, indices: seq<u32>, stride: nat, hashBytes: nat, rows: seq<Row>,
                     h: FixedHash, slice: seq<u32>, row: Row)
    requires Stores(hashes, indices, stride, hashBytes, rows)
    requires |slice| == stride && StoresRow(h, slice, hashBytes, row)
    ensures Stores(hashes + [h], indices + slice, stride, hashBytes, rows + [row])
  {
    SliceOfAppend(indices, slice, |rows|, stride);
    forall i: nat | i < |rows| + 1
      ensures StoresRow((hashes + [h])[i], Slice(indices + slice, |rows| + 1, stride, i), hashBytes, (rows + [row])[i])
    {
      if i < |rows| {
        assert StoresRow(hashes[i], Slice(indices, |rows|, stride, i), hashBytes, rows[i]);
      }
    }
  }

  /** `hash_bytes.saturating_sub(FP_CBYTES)` */
  function Trimmed(hashBytes: nat): nat {
    if hashBytes > CBYTES then hashBytes - CBYTES else 0
  }

  /** The record a merge writes: XOR of the parents shifted left by two bytes. */
  method XorTrim(ha: FixedHash, hb: FixedHash, hashBytes: nat, ghost a: Row, ghost b: Row) returns (h: FixedHash)
    requires hashBytes <= HASH_PAD
    requires HoldsHash(ha, hashBytes, a) && HoldsHash(hb, hashBytes, b)
    ensures HoldsHash(h, Trimmed(hashBytes), Merge(16, a, b))
  {
    h := Zeros(HASH_PAD);
    ghost var x := Xor(a.hash, b.hash);
    if hashBytes > CBYTES {
      for off := 0 to hashBytes - CBYTES
        invariant forall b: nat :: b < HASH_PAD ==> h[b] == if b < off then ByteAt(x, b + CBYTES) else 0
      {
        assert ha[off + CBYTES] == ByteAt(a.hash, off + CBYTES);
        assert hb[off + CBYTES] == ByteAt(b.hash, off + CBYTES);
        XorAt(a.hash, b.hash, off + CBYTES);
        h := h[off := ha[off + CBYTES] ^ hb[off + CBYTES]];
      }
    }
    assert Merge(16, a, b).hash == Drop(x, CBYTES);
    forall b: nat | b < HASH_PAD ensures ByteAt(Drop(x, CBYTES), b) == ByteAt(x, b + CBYTES) {
      DropAt(x, CBYTES, b);
    }
  }

  /** One generation of rows: `Vec<[u8; 16]>` beside `Vec<u32>`, refilled in every other round. */
  class RowBuffer {
    var hashes: seq<FixedHash>
    var indices: seq<u32>
    /** Indices per row and meaningful hash bytes per row. */
    var stride: nat
    var hashBytes: nat
    /** The rows held. */
    ghost var rows: seq<Row>

    ghost predicate Valid()
      reads this
    {
      Stores(hashes, indices, stride, hashBytes, rows) && hashBytes <= HASH_PAD
    }

    constructor ()
      ensures Valid() && rows == []
    {
      hashes, indices, stride, hashBytes, rows := [], [], 0, 0, [];
    }

    /** `clear()` on both vectors, before rows of a new shape are pushed. */
    method Clear(stride: nat, hashBytes: nat)
      requires hashBytes <= HASH_PAD
      modifies this
      ensures Valid() && rows == [] && this.stride == stride && this.hashBytes == hashBytes
    {
      hashes, indices, rows := [], [], [];
      this.stride, this.hashBytes := stride, hashBytes;
    }

    method Push(h: FixedHash, slice: seq<u32>, ghost row: Row)
      requires Valid() && |slice| == stride && StoresRow(h, slice, hashBytes, row)
      modifies this
      ensures Valid() && rows == old(rows) + [row]
      ensures stride == old(stride) && hashBytes == old(hashBytes)
    {
      StoresAppend(hashes, indices, stride, hashBytes, rows, h, slice, row);
      hashes := hashes + [h];
      indices := indices + slice;
      rows := rows + [row];
    }

    /** The record and the index slice of row `i`. */
    method Get(i: nat) returns (h: FixedHash, slice: seq<u32>)
      requires Valid() && i < |rows|
      ensures |slice| == stride && StoresRow(h, slice, hashBytes, rows[i])
    {
      h, slice := hashes[i], Slice(indices, |hashes|, stride, i);
    }
  }

  /** Do two index slices share nothing? The source's scan with early exit. */
  method DistinctIndices(a: seq<nat>, b: seq<nat>) returns (distinct: bool)
    ensures distinct <==> Disjoint(a, b)
  {
    for i := 0 to |a|
      invariant forall k, j :: 0 <= k < i && 0 <= j < |b| ==> a[k] != b[j]
    {
      for j := 0 to |b|
        invariant forall m :: 0 <= m < j ==> a[i] != b[m]
      {
        if a[i] == b[j] {
          return false;
        }
      }
    }
    return true;
  }
}
