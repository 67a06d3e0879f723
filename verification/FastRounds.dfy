/** `wagner_round_96_5`: sort row ids into 16-bit buckets, then merge inside each bucket. */
module FastRounds {
  import opened Bytes
  import opened CountingSort
  import opened Equihash
  import opened KeySort
  import opened PairLoops
  import opened Pairs
  import opened Storage
  import opened Words

  // ---- One bucket --------------------------------------------------------------------------

  /** Positions start..end of the placement name the sorted rows `s`. */
  ghost predicate PointAt(rows: seq<Row>, s: seq<Row>, ordered: seq<u32>, start: nat, end: nat)
    requires end <= |ordered| && end <= |s|
  {
    forall i :: start <= i < end ==> ordered[i] < |rows| && rows[ordered[i]] == s[i]
  }

  /** Rows start..end agree on their leading 16 bits. */
  ghost predicate Collide(s: seq<Row>, start: nat, end: nat)
    requires end <= |s|
  {
    forall i, j :: start <= i < end && start <= j < end ==> SameLead(s[i].hash, s[j].hash, 16)
  }

  /** The next generation is shaped for merges of the current one. */
  ghost predicate Feeds(input: RowBuffer, output: RowBuffer)
    reads input, output
  {
    && input != output && input.Valid() && output.Valid()
    && output.stride == 2 * input.stride && output.hashBytes == Trimmed(input.hashBytes)
  }

  /** The body of the inner loop: merge rows `ra` and `rb` of one bucket unless they share an index. */
  method MergeInto(input: RowBuffer, output: RowBuffer, ra: nat, rb: nat, ghost f: Combine<Row>)
    requires Feeds(input, output) && ra < |input.rows| && rb < |input.rows|
    requires SameLead(input.rows[ra].hash, input.rows[rb].hash, 16) && Merges(f, 16)
    modifies output
    ensures Feeds(input, output)
    ensures output.rows == old(output.rows) + f(input.rows[ra], input.rows[rb])
  {
    var ha, ia := input.Get(ra);
    var hb, ib := input.Get(rb);
    MergesAt(f, 16, input.rows[ra], input.rows[rb]);
    var distinct := DistinctIndices(ia, ib);
    if !distinct {
      assert output.rows + [] == output.rows;
      return;
    }
    ghost var a, b := input.rows[ra], input.rows[rb];
    var newHash := XorTrim(ha, hb, input.hashBytes, a, b);
    var newIndices := if ia[0] < ib[0] then ia + ib else ib + ia;
    output.Push(newHash, newIndices, Merge(16, a, b));
  }

  /** The loop over j: row `i` of a bucket against the rows behind it. */
  method MergeRow(input: RowBuffer, output: RowBuffer, ordered: seq<u32>, ghost start: nat, i: nat, end: nat,
                  ghost s: seq<Row>, ghost f: Combine<Row>)
    requires Feeds(input, output) && start <= i < end <= |s| && end <= |ordered|
    requires PointAt(input.rows, s, ordered, start, end) && Collide(s, start, end) && Merges(f, 16)
    modifies output
    ensures Feeds(input, output)
    ensures InRow(f, old(output.rows), output.rows, s, i, end)
  {
    ghost var before := output.rows;
    var ra := ordered[i];
    var j := i + 1;
    RowBegins(f, before, s, i);
    while j < end
      invariant i < j <= end && Feeds(input, output)
      invariant InRow(f, before, output.rows, s, i, j)
    {
      var rb := ordered[j];
      assert input.rows[ra] == s[i] && input.rows[rb] == s[j];
      RowAdvances(f, before, output.rows, s, i, j);
      MergeInto(input, output, ra, rb, f);
      j := j + 1;
    }
    assert j == end;
  }

  /** The loop over i: all pairs of one bucket. */
  method MergeBucket(input: RowBuffer, output: RowBuffer, ordered: seq<u32>, start: nat, end: nat,
                     ghost s: seq<Row>, ghost f: Combine<Row>)
    requires Feeds(input, output) && start <= end <= |s| && end <= |ordered|
    requires PointAt(input.rows, s, ordered, start, end) && Collide(s, start, end) && Merges(f, 16)
    modifies output
    ensures Feeds(input, output)
    ensures output.rows == old(output.rows) + AllPairs(f, s[start..end])
  {
    ghost var before := output.rows;
    var i := start;
    LoopBegins(f, before, s, start, end);
    while i < end
      invariant start <= i <= end && Feeds(input, output)
      invariant InLoop(f, before, output.rows, s, start, i, end)
    {
      ghost var sofar := output.rows;
      MergeRow(input, output, ordered, start, i, end, s, f);
      LoopAdvances(f, before, sofar, output.rows, s, start, i, end);
      i := i + 1;
    }
    assert i == end;
    LoopEnds(f, before, output.rows, s, start, end);
  }

  // ---- All buckets -------------------------------------------------------------------------

  /** The pairs up to the end of a bucket are those before it and those inside it. */
  lemma BucketSplit(rows: seq<Row>, k: nat, s: seq<Row>, start: nat, end: nat, f: Combine<Row>)
    requires s == SortByKey(rows) && Merges(f, 16)
    requires start == CountBelow(RowKeys(rows), k) && end == CountBelow(RowKeys(rows), k + 1)
    ensures start <= end <= |s|
    ensures AllPairs(f, s[..end]) == AllPairs(f, s[..start]) + AllPairs(f, s[start..end])
  {
    CountBelowNext(RowKeys(rows), k);
    NoneAcrossBuckets(rows, k, s, start, end, f);
    AllPairsConcat(f, s[..start], s[start..end]);
    SliceSplit(s, start, end);
  }

  /** A row of an earlier bucket joins nothing in this one or a later one. */
  lemma NoneAcrossBuckets(rows: seq<Row>, k: nat, s: seq<Row>, start: nat, end: nat, f: Combine<Row>)
    requires s == SortByKey(rows) && start == CountBelow(RowKeys(rows), k) && start <= end <= |s| && Merges(f, 16)
    ensures NoneAcross(f, s[..start], s[start..end])
  {
    forall i, j | 0 <= i < start && start <= j < end ensures f(s[i], s[j]) == [] {
      KeyAtPosition(rows, k, i);
      KeyAtPosition(rows, k, j);
      KeyIffSameLead(s[i].hash, s[j].hash);
      MergesAt(f, 16, s[i], s[j]);
    }
    forall i | 0 <= i < start ensures NoneWith(f, s[..start][i], s[start..end]) {
      forall j | 0 <= j < end - start ensures f(s[i], s[start..end][j]) == [] {
        assert s[start..end][j] == s[start + j];
      }
    }
  }

  lemma PlacedRows(rows: seq<Row>, cells: seq<u32>, ordered: seq<u32>, k: nat, s: seq<Row>, start: nat, end: nat)
    requires IsSorted(RowKeys(rows), cells, ordered) && k < N_BUCKETS
    requires s == SortByKey(rows) && start == cells[k] && end == cells[k + 1]
    ensures start <= end <= |rows| && |rows| <= |ordered|
    ensures start == CountBelow(RowKeys(rows), k) && end == CountBelow(RowKeys(rows), k + 1)
    ensures PointAt(rows, s, ordered, start, end)
  {
    assert BucketDone(RowKeys(rows), k, ordered);
    forall i | start <= i < end ensures ordered[i] < |rows| && rows[ordered[i]] == s[i] {
      OrderedRow(rows, cells, ordered, k, i);
    }
  }

  lemma CollidingRows(rows: seq<Row>, k: nat, s: seq<Row>, start: nat, end: nat)
    requires s == SortByKey(rows) && end <= |rows|
    requires start == CountBelow(RowKeys(rows), k) && end == CountBelow(RowKeys(rows), k + 1)
    ensures Collide(s, start, end)
  {
    forall i, j | start <= i < end && start <= j < end ensures SameLead(s[i].hash, s[j].hash, 16) {
      CollideInBucket(rows, k, i, j);
    }
  }

  /** Rows of one bucket collide. */
  lemma CollideInBucket(rows: seq<Row>, k: nat, i: nat, j: nat)
    requires CountBelow(RowKeys(rows), k) <= i < CountBelow(RowKeys(rows), k + 1)
    requires CountBelow(RowKeys(rows), k) <= j < CountBelow(RowKeys(rows), k + 1)
    ensures SameLead(SortByKey(rows)[i].hash, SortByKey(rows)[j].hash, 16)
  {
    var s := SortByKey(rows);
    KeyAtPosition(rows, k, i);
    KeyAtPosition(rows, k + 1, i);
    KeyAtPosition(rows, k, j);
    KeyAtPosition(rows, k + 1, j);
    KeyIffSameLead(s[i].hash, s[j].hash);
  }

  // From here on the bucket starts and the placed ids are only read; they are passed as values.

  /** One turn of the loop over buckets. */
  method MergeBucketAt(input: RowBuffer, output: RowBuffer, bucketCount: seq<u32>, ordered: seq<u32>, key: nat,
                       ghost s: seq<Row>, ghost f: Combine<Row>)
    requires Feeds(input, output) && key < N_BUCKETS && s == SortByKey(input.rows) && Merges(f, 16)
    requires IsSorted(RowKeys(input.rows), bucketCount, ordered)
    requires output.rows == AllPairs(f, s[..CountBelow(RowKeys(input.rows), key)])
    modifies output
    ensures Feeds(input, output)
    ensures output.rows == AllPairs(f, s[..CountBelow(RowKeys(input.rows), key + 1)])
  {
    ghost var before := output.rows;
    var start, end := bucketCount[key], bucketCount[key + 1];
    PlacedRows(input.rows, bucketCount, ordered, key, s, start, end);
    BucketSplit(input.rows, key, s, start, end, f);
    if end - start < 2 {
      ShortList(f, s[start..end]);
      assert before + [] == before;
      return;
    }
    CollidingRows(input.rows, key, s, start, end);
    MergeBucket(input, output, ordered, start, end, s, f);
  }

  method MergeBuckets(input: RowBuffer, output: RowBuffer, bucketCount: seq<u32>, ordered: seq<u32>, ghost f: Combine<Row>)
    requires Feeds(input, output) && output.rows == [] && Merges(f, 16)
    requires IsSorted(RowKeys(input.rows), bucketCount, ordered)
    modifies output
    ensures Feeds(input, output) && output.rows == AllPairs(f, SortByKey(input.rows))
  {
    ghost var s, keys := SortByKey(input.rows), RowKeys(input.rows);
    CountBelowTotal(keys);
    assert s[..CountBelow(keys, 0)] == [];
    var key := 0;
    while key < N_BUCKETS
      invariant key <= N_BUCKETS && Feeds(input, output)
      invariant output.rows == AllPairs(f, s[..CountBelow(keys, key)])
    {
      MergeBucketAt(input, output, bucketCount, ordered, key, s, f);
      key := key + 1;
    }
    assert key == N_BUCKETS;
    assert s[..CountBelow(keys, N_BUCKETS)] == s;
  }

  /** The whole round. `bucketCount` is caller-provided scratch. */
  method WagnerRound(input: RowBuffer, output: RowBuffer, bucketCount: array<u32>)
    requires input != output && input.Valid() && |input.rows| < U32_LIMIT
    requires bucketCount.Length == N_BUCKETS + 1
    modifies output, bucketCount
    ensures input.Valid() && output.Valid()
    ensures output.rows == FastRound(input.rows)
    ensures output.stride == 2 * input.stride && output.hashBytes == Trimmed(input.hashBytes)
  {
    output.Clear(2 * input.stride, Trimmed(input.hashBytes));
    var nRows := |input.hashes|;
    if nRows < 2 {
      ShortList(Merger(16), SortByKey(input.rows));
      return;
    }
    StoredKeys(input.hashes, input.indices, input.stride, input.hashBytes, input.rows);
    var ordered := new u32[nRows];
    var cursor := new u32[N_BUCKETS];
    SortIds(input.hashes, bucketCount, cursor, ordered);
    MergerMerges(16);
    MergeBuckets(input, output, bucketCount[..], ordered[..], Merger(16));
  }
}
