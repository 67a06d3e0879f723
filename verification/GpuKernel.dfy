/** The CUDA search: the CPU's rounds over fixed buffers, each cut off at 131072 rows. */
module GpuKernel {
  import opened Bytes
  import opened CountingSort
  import opened DistinctCheck
  import opened Equihash
  import opened FastRounds
  import opened KeySort
  import opened Leaves
  import opened Levels
  import opened Packing
  import opened PairLoops
  import opened Pairs
  import opened Solver
  import opened Storage
  import opened Words

  const MAX_STRIDE: nat := 32

  /** The first 131072 rows. */
  function Capped(rows: seq<Row>): (t: seq<Row>)
    ensures t <= rows && |t| == Min(|rows|, FP_N_INIT)
  {
    rows[..Min(|rows|, FP_N_INIT)]
  }

  /** Once the cap is reached, later rows change nothing. */
  lemma CappedFull(x: seq<Row>, y: seq<Row>)
    requires x <= y && |x| >= FP_N_INIT
    ensures Capped(x) == Capped(y)
  {}

  lemma CappedShort(x: seq<Row>)
    requires |x| <= FP_N_INIT
    ensures Capped(x) == x
  {}

  /** One generation in a thread's workspace: fixed hash records and a flat index buffer. */
  class Slab {
    const hashes: array<FixedHash>
    const indices: array<u32>
    /** The rows written so far, and their shape. */
    ghost var rows: seq<Row>
    ghost var stride: nat
    ghost var hashBytes: nat

    constructor ()
      ensures Valid() && rows == [] && fresh(hashes) && fresh(indices)
    {
      hashes := new FixedHash[FP_N_INIT](_ => Zeros(HASH_PAD));
      indices := new u32[FP_N_INIT * MAX_STRIDE](_ => 0);
      rows, stride, hashBytes := [], 0, 0;
    }

    ghost predicate Valid()
      reads this, hashes, indices
    {
      && hashes.Length == FP_N_INIT && indices.Length == FP_N_INIT * MAX_STRIDE
      && stride <= MAX_STRIDE && hashBytes <= HASH_PAD && |rows| <= FP_N_INIT
      && Offset(|rows|, stride) <= indices.Length
      && Stores(hashes[..|rows|], indices[..Offset(|rows|, stride)], stride, hashBytes, rows)
    }

    /** A round starts writing from the front again. */
    ghost method Restart(stride: nat, hashBytes: nat)
      requires Valid() && stride <= MAX_STRIDE && hashBytes <= HASH_PAD
      modifies this
      ensures Valid() && rows == [] && this.stride == stride && this.hashBytes == hashBytes
    {
      rows := [];
      this.stride, this.hashBytes := stride, hashBytes;
    }

    /** Row `i`: its record and the slice at `&in_indices[i * stride]`. */
    method Get(i: nat, stride: nat) returns (h: FixedHash, slice: seq<u32>)
      requires Valid() && i < |rows| && stride == this.stride
      ensures |slice| == stride && StoresRow(h, slice, hashBytes, rows[i])
    {
      SliceFits(i, |rows|, stride);
      OffsetIsProduct(i, stride);
      h, slice := hashes[i], indices[i * stride..i * stride + stride];
      SliceOfPrefix(indices[..], |rows|, stride, i);
      assert StoresRow(hashes[..|rows|][i], Slice(indices[..Offset(|rows|, stride)], |rows|, stride, i), hashBytes, rows[i]);
    }

    /** `for k { new_i[pos + k] = part[k] }` */
    method Copy(pos: nat, part: seq<u32>)
      requires pos + |part| <= indices.Length
      modifies indices
      ensures indices[..pos] == old(indices[..pos]) && indices[pos..pos + |part|] == part
    {
      ghost var before := indices[..pos];
      for k := 0 to |part|
        invariant indices[..pos] == before && indices[pos..pos + k] == part[..k]
      {
        indices[pos + k] := part[k];
      }
    }

    /** Leaf `n`: its record, and `indices_a[n] = n`. */
    method WriteLeaf(n: u32, h: FixedHash, ghost row: Row)
      requires Valid() && n == |rows| < FP_N_INIT && stride == 1
      requires StoresRow(h, [n], hashBytes, row)
      modifies this, hashes, indices
      ensures Valid() && rows == old(rows) + [row] && stride == old(stride) && hashBytes == old(hashBytes)
    {
      OffsetIsProduct(n, 1);
      ghost var before, kept := indices[..n], hashes[..n];
      hashes[n] := h;
      indices[n] := n;
      assert hashes[..n + 1] == kept + [h] && indices[..n + 1] == before + [n];
      StoresAppend(kept, before, 1, hashBytes, rows, h, [n], row);
      rows := rows + [row];
    }

    /** Writing row `n`: the record, then the two halves of its indices. */
    method Write(n: nat, half: nat, h: FixedHash, first: seq<u32>, second: seq<u32>, ghost row: Row)
      requires Valid() && n == |rows| < FP_N_INIT && stride == 2 * half
      requires |first| == |second| == half && StoresRow(h, first + second, hashBytes, row)
      modifies this, hashes, indices
      ensures Valid() && rows == old(rows) + [row] && stride == old(stride) && hashBytes == old(hashBytes)
    {
      var base := n * (2 * half);
      RowFits(n, 2 * half);
      ghost var before, kept := indices[..base], hashes[..n];
      Copy(base, first);
      ghost var mid := indices[..base + half];
      Copy(base + half, second);
      hashes[n] := h;
      AppendedHalves(indices[..], base, half, before, mid, first, second);
      assert hashes[..n + 1] == kept + [h];
      StoresAppend(kept, before, stride, hashBytes, rows, h, first + second, row);
      rows := rows + [row];
    }
  }

  lemma AppendedHalves(t: seq<u32>, base: nat, half: nat, before: seq<u32>, mid: seq<u32>, first: seq<u32>, second: seq<u32>)
    requires base + 2 * half <= |t| && |before| == base && |first| == |second| == half
    requires |mid| == base + half && mid[..base] == before && mid[base..] == first
    requires t[..base + half] == mid && t[base + half..base + half + half] == second
    ensures t[..base + 2 * half] == before + (first + second)
  {
    assert mid == before + first;
    assert t[..base + 2 * half] == t[..base + half] + t[base + half..base + half + half];
  }

  lemma RowFits(n: nat, stride: nat)
    requires n < FP_N_INIT && stride <= MAX_STRIDE
    ensures n * stride == Offset(n, stride) && Offset(n, stride) + stride <= FP_N_INIT * MAX_STRIDE
  {
    OffsetIsProduct(n, stride);
    OffsetIsProduct(n + 1, stride);
    MulLe(n + 1, FP_N_INIT, stride);
    MulLe(stride, MAX_STRIDE, FP_N_INIT);
  }

  lemma SliceOfPrefix(indices: seq<u32>, n: nat, stride: nat, i: nat)
    requires Offset(n, stride) <= |indices| && i < n
    ensures Offset(i, stride) + stride <= Offset(n, stride)
    ensures Slice(indices[..Offset(n, stride)], n, stride, i) == indices[Offset(i, stride)..Offset(i, stride) + stride]
  {
    SliceFits(i, n, stride);
  }

  // ---- One capped round --------------------------------------------------------------------

  /** The buffers `wagner_round` reads and writes, shaped for one another. */
  ghost predicate Ready(input: Slab, output: Slab, stride: nat, hashBytes: nat)
    reads input, input.hashes, input.indices, output, output.hashes, output.indices
  {
    && input != output && input.hashes != output.hashes && input.indices != output.indices
    && input.Valid() && output.Valid()
    && input.stride == stride && output.stride == 2 * stride
    && input.hashBytes == hashBytes && output.hashBytes == Trimmed(hashBytes)
  }

  /** The body of the inner loop. `full` says that the budget is used up. */
  method MergeInto(input: Slab, output: Slab, stride: nat, hashBytes: nat, ra: nat, rb: nat, outN: nat,
                   ghost f: Combine<Row>)
    returns (outN': nat, full: bool)
    requires Ready(input, output, stride, hashBytes) && outN == |output.rows| < FP_N_INIT
    requires ra < |input.rows| && rb < |input.rows| && SameLead(input.rows[ra].hash, input.rows[rb].hash, 16)
    requires Merges(f, 16)
    modifies output, output.hashes, output.indices
    ensures Ready(input, output, stride, hashBytes) && input.rows == old(input.rows)
    ensures output.rows == old(output.rows) + f(input.rows[ra], input.rows[rb])
    ensures outN' == |output.rows| && full == (outN' == FP_N_INIT)
  {
    var ha, ia := input.Get(ra, stride);
    var hb, ib := input.Get(rb, stride);
    ghost var a, b := input.rows[ra], input.rows[rb];
    MergesAt(f, 16, a, b);
    var distinct := DistinctIndices(ia, ib);
    if !distinct {
      assert output.rows + [] == output.rows;
      return outN, false;
    }
    var newHash := XorTrim(ha, hb, hashBytes, a, b);
    if ia[0] < ib[0] {
      output.Write(outN, stride, newHash, ia, ib, Merge(16, a, b));
    } else {
      output.Write(outN, stride, newHash, ib, ia, Merge(16, a, b));
    }
    outN' := outN + 1;
    full := outN' >= FP_N_INIT;
  }

  /** A stage that stayed within the budget has written everything wanted. */
  ghost predicate Below(got: seq<Row>, want: seq<Row>, outN: nat) {
    got == want && outN == |got| < FP_N_INIT
  }

  /** A stage that ran into the cap has written the first rows wanted. */
  ghost predicate Filled(got: seq<Row>, want: seq<Row>, outN: nat) {
    got == Capped(want) && outN == |got| == FP_N_INIT
  }

  /** Filling up settles every later stage. */
  lemma FilledStays(got: seq<Row>, x: seq<Row>, y: seq<Row>, outN: nat)
    requires Filled(got, x, outN) && x <= y
    ensures Filled(got, y, outN)
  {
    CappedFull(x, y);
  }

  /** How a row ends: with all its merges written, or with the buffer filled by the first of them. */
  ghost predicate RowDone(f: Combine<Row>, want: seq<Row>, total: seq<Row>, got: seq<Row>, s: seq<Row>, i: nat, end: nat,
                          outN: nat, full: bool)
  {
    && InRow(f, want, total, s, i, end)
    && (!full ==> Below(got, total, outN)) && (full ==> Filled(got, total, outN))
  }

  /** Filling up at partner `j` settles the whole row. */
  lemma FullRow(f: Combine<Row>, got: seq<Row>, want: seq<Row>, sofar: seq<Row>, s: seq<Row>, i: nat, j: nat,
            end: nat, outN: nat)
    returns (total: seq<Row>)
    requires i < j <= end <= |s| && InRow(f, want, sofar, s, i, j) && Filled(got, sofar, outN)
    ensures InRow(f, want, total, s, i, end) && Filled(got, total, outN)
  {
    total := want + RowLoop(f, s, i, end);
    RowGrows(f, want, sofar, total, s, i, j, end);
    FilledStays(got, sofar, total, outN);
  }

  /** One turn of the loop over j. */
  method MergePair(input: Slab, output: Slab, stride: nat, hashBytes: nat, ordered: seq<u32>, ghost start: nat,
            i: nat, j: nat, end: nat,
                   outN: nat, ghost s: seq<Row>, ghost sofar: seq<Row>, ghost f: Combine<Row>)
    returns (outN': nat, full: bool)
    requires Ready(input, output, stride, hashBytes) && Below(output.rows, sofar, outN)
    requires start <= i < j < end <= |s| && end <= |ordered|
    requires PointAt(input.rows, s, ordered, start, end) && Collide(s, start, end) && Merges(f, 16)
    modifies output, output.hashes, output.indices
    ensures Ready(input, output, stride, hashBytes) && input.rows == old(input.rows)
    ensures !full ==> Below(output.rows, sofar + f(s[i], s[j]), outN')
    ensures full ==> Filled(output.rows, sofar + f(s[i], s[j]), outN')
  {
    var ra, rb := ordered[i], ordered[j];
    assert input.rows[ra] == s[i] && input.rows[rb] == s[j];
    outN', full := MergeInto(input, output, stride, hashBytes, ra, rb, outN, f);
    CappedShort(output.rows);
  }

  /** The loop over j. `total` is all that row `i` adds to `want`. */
  method MergeRow(input: Slab, output: Slab, stride: nat, hashBytes: nat, ordered: seq<u32>, ghost start: nat, i: nat, end: nat,
                  outN: nat, ghost s: seq<Row>, ghost want: seq<Row>, ghost f: Combine<Row>)
    returns (outN': nat, full: bool, ghost total: seq<Row>)
    requires Ready(input, output, stride, hashBytes) && Below(output.rows, want, outN)
    requires start <= i < end <= |s| && end <= |ordered|
    requires PointAt(input.rows, s, ordered, start, end) && Collide(s, start, end) && Merges(f, 16)
    modifies output, output.hashes, output.indices
    ensures Ready(input, output, stride, hashBytes) && input.rows == old(input.rows)
    ensures RowDone(f, want, total, output.rows, s, i, end, outN', full)
  {
    outN', full, total := outN, false, want;
    var j := i + 1;
    RowBegins(f, want, s, i);
    while j < end
      invariant i < j <= end
      invariant !full && Ready(input, output, stride, hashBytes) && input.rows == old(input.rows)
      invariant InRow(f, want, total, s, i, j) && Below(output.rows, total, outN')
    {
      outN', full := MergePair(input, output, stride, hashBytes, ordered, start, i, j, end, outN', s, total, f);
      RowAdvances(f, want, total, s, i, j);
      total := total + f(s[i], s[j]);
      j := j + 1;
      if full {
        total := FullRow(f, output.rows, want, total, s, i, j, end, outN');
        return;
      }
    }
    assert j == end;
  }

  /** Filling up in row `i` settles the whole bucket. */
  lemma FullBucket(f: Combine<Row>, got: seq<Row>, want: seq<Row>, sofar: seq<Row>, s: seq<Row>, start: nat,
            i: nat, end: nat, outN: nat)
    requires InLoop(f, want, sofar, s, start, i, end) && Filled(got, sofar, outN)
    ensures Filled(got, want + AllPairs(f, s[start..end]), outN)
  {
    var total := want + PairLoop(f, s, start, end, end);
    LoopGrows(f, want, sofar, total, s, start, i, end, end);
    FilledStays(got, sofar, total, outN);
    LoopEnds(f, want, total, s, start, end);
  }

  /** The loop over i. */
  method MergeBucket(input: Slab, output: Slab, stride: nat, hashBytes: nat, ordered: seq<u32>, start: nat, end: nat,
                     outN: nat, ghost s: seq<Row>, ghost want: seq<Row>, ghost f: Combine<Row>)
    returns (outN': nat, full: bool)
    requires Ready(input, output, stride, hashBytes) && Below(output.rows, want, outN)
    requires start <= end <= |s| && end <= |ordered|
    requires PointAt(input.rows, s, ordered, start, end) && Collide(s, start, end) && Merges(f, 16)
    modifies output, output.hashes, output.indices
    ensures Ready(input, output, stride, hashBytes) && input.rows == old(input.rows)
    ensures !full ==> Below(output.rows, want + AllPairs(f, s[start..end]), outN')
    ensures full ==> Filled(output.rows, want + AllPairs(f, s[start..end]), outN')
  {
    outN', full := outN, false;
    var i := start;
    ghost var sofar, total := want, want;
    LoopBegins(f, want, s, start, end);
    while i < end
      invariant start <= i <= end
      invariant !full && Ready(input, output, stride, hashBytes) && input.rows == old(input.rows)
      invariant InLoop(f, want, sofar, s, start, i, end) && Below(output.rows, sofar, outN')
    {
      outN', full, total := MergeRow(input, output, stride, hashBytes, ordered, start, i, end, outN', s, sofar, f);
      LoopAdvances(f, want, sofar, total, s, start, i, end);
      sofar := total;
      i := i + 1;
      if full {
        FullBucket(f, output.rows, want, sofar, s, start, i, end, outN');
        return;
      }
    }
    assert i == end;
    LoopEnds(f, want, sofar, s, start, end);
  }

  /** What the first buckets merge begins what all merge. */
  lemma RoundPrefix(rows: seq<Row>, k: nat, s: seq<Row>, start: nat, f: Combine<Row>)
    requires s == SortByKey(rows) && start == CountBelow(RowKeys(rows), k) && Merges(f, 16)
    ensures AllPairs(f, s[..start]) <= AllPairs(f, s)
  {
    NoneAcrossBuckets(rows, k, s, start, |s|, f);
    AllPairsConcat(f, s[..start], s[start..|s|]);
    SliceSplit(s, start, |s|);
    assert s[..|s|] == s;
  }

  method MergeBucketAt(input: Slab, output: Slab, stride: nat, hashBytes: nat, bucketCount: seq<u32>,
                       ordered: seq<u32>, key: nat, outN: nat, ghost s: seq<Row>, ghost f: Combine<Row>)
    returns (outN': nat, full: bool)
    requires Ready(input, output, stride, hashBytes) && key < N_BUCKETS && s == SortByKey(input.rows)
    requires Below(output.rows, AllPairs(f, s[..CountBelow(RowKeys(input.rows), key)]), outN)
    requires IsSorted(RowKeys(input.rows), bucketCount, ordered) && Merges(f, 16)
    modifies output, output.hashes, output.indices
    ensures Ready(input, output, stride, hashBytes) && input.rows == old(input.rows)
    ensures !full ==> Below(output.rows, AllPairs(f, s[..CountBelow(RowKeys(input.rows), key + 1)]), outN')
    ensures full ==> Filled(output.rows, AllPairs(f, s[..CountBelow(RowKeys(input.rows), key + 1)]), outN')
  {
    ghost var rows, before := input.rows, output.rows;
    var start, end := bucketCount[key], bucketCount[key + 1];
    PlacedRows(rows, bucketCount, ordered, key, s, start, end);
    BucketSplit(rows, key, s, start, end, f);
    if end - start < 2 {
      ShortList(f, s[start..end]);
      assert before + [] == before;
      return outN, false;
    }
    CollidingRows(rows, key, s, start, end);
    outN', full := MergeBucket(input, output, stride, hashBytes, ordered, start, end, outN, s, before, f);
  }

  method MergeBuckets(input: Slab, output: Slab, stride: nat, hashBytes: nat, bucketCount: seq<u32>, ordered: seq<u32>,
                      ghost f: Combine<Row>)
    returns (outN: nat)
    requires Ready(input, output, stride, hashBytes) && output.rows == [] && Merges(f, 16)
    requires IsSorted(RowKeys(input.rows), bucketCount, ordered)
    modifies output, output.hashes, output.indices
    ensures Ready(input, output, stride, hashBytes) && input.rows == old(input.rows)
    ensures output.rows == Capped(AllPairs(f, SortByKey(input.rows))) && outN == |output.rows|
  {
    ghost var rows, s, keys := input.rows, SortByKey(input.rows), RowKeys(input.rows);
    outN := 0;
    var full := false;
    CountBelowTotal(keys);
    assert s[..CountBelow(keys, 0)] == [];
    var key := 0;
    while key < N_BUCKETS
      invariant key <= N_BUCKETS && !full && input.rows == rows
      invariant Ready(input, output, stride, hashBytes)
      invariant Below(output.rows, AllPairs(f, s[..CountBelow(keys, key)]), outN)
    {
      outN, full := MergeBucketAt(input, output, stride, hashBytes, bucketCount, ordered, key, outN, s, f);
      key := key + 1;
      if full {
        RoundPrefix(rows, key, s, CountBelow(keys, key), f);
        FilledStays(output.rows, AllPairs(f, s[..CountBelow(keys, key)]), AllPairs(f, s), outN);
        return;
      }
    }
    assert key == N_BUCKETS;
    assert s[..CountBelow(keys, N_BUCKETS)] == s;
    CappedShort(AllPairs(f, s));
  }

  ghost predicate Elsewhere(scratch: array<u32>, input: Slab, output: Slab) {
    scratch != input.indices && scratch != output.indices
  }

  /** The kernel's `wagner_round`: exactly the first min(131072, total) rows of the CPU's round. */
  method WagnerRound(input: Slab, nRows: nat, stride: nat, hashBytes: nat, output: Slab,
                     bucketCount: array<u32>, cursor: array<u32>, ordered: array<u32>)
    returns (outN: nat)
    requires input != output && input.hashes != output.hashes && input.indices != output.indices
    requires input.Valid() && output.Valid() && nRows == |input.rows|
    requires input.stride == stride && 2 * stride <= MAX_STRIDE && input.hashBytes == hashBytes
    requires bucketCount.Length == N_BUCKETS + 1 && cursor.Length == N_BUCKETS && ordered.Length == FP_N_INIT
    requires bucketCount != cursor && cursor != ordered && ordered != bucketCount
    requires Elsewhere(bucketCount, input, output) && Elsewhere(cursor, input, output) && Elsewhere(ordered, input, output)
    modifies output, output.hashes, output.indices, bucketCount, cursor, ordered
    ensures Ready(input, output, stride, hashBytes) && input.rows == old(input.rows)
    ensures output.rows == Capped(FastRound(input.rows)) && outN == |output.rows|
  {
    output.Restart(2 * stride, Trimmed(hashBytes));
    if nRows < 2 {
      ShortList(Merger(16), SortByKey(input.rows));
      CappedShort([]);
      return 0;
    }
    var records := input.hashes[..nRows];
    StoredKeys(records, input.indices[..Offset(nRows, stride)], stride, hashBytes, input.rows);
    SortIds(records, bucketCount, cursor, ordered);
    MergerMerges(16);
    outN := MergeBuckets(input, output, stride, hashBytes, bucketCount[..], ordered[..], Merger(16));
  }
}
