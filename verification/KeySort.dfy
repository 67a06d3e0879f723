/** Rows in bucket order: the stable sort by leading 16 bits that the row ids are placed in. */
module KeySort {
  import opened Bytes
  import opened CountingSort
  import opened Pairs
  import opened Words

  function RowKeys(rows: seq<Row>): (keys: seq<Key>)
    ensures |keys| == |rows|
  {
    seq(|rows|, i requires 0 <= i < |rows| => KeyOf(rows[i].hash))
  }

  lemma RowKeysSnoc(rows: seq<Row>)
    requires rows != []
    ensures RowKeys(rows)[..|rows| - 1] == RowKeys(rows[..|rows| - 1])
    ensures RowKeys(rows)[|rows| - 1] == KeyOf(rows[|rows| - 1].hash)
  {}

  function InsertAt(s: seq<Row>, at: nat, e: Row): (t: seq<Row>)
    requires at <= |s|
    ensures |t| == |s| + 1
  {
    s[..at] + [e] + s[at..]
  }

  lemma InsertAtMultiset(s: seq<Row>, at: nat, e: Row)
    requires at <= |s|
    ensures multiset(InsertAt(s, at, e)) == multiset(s) + multiset{e}
  {
    assert s == s[..at] + s[at..];
  }

  /** Where row `e` goes: behind the rows whose key is no larger. */
  ghost function SlotFor(rows: seq<Row>, e: Row): (at: nat)
    ensures at <= |rows|
  {
    CountBelow(RowKeys(rows), (KeyOf(e.hash) as nat) + 1)
  }

  ghost function SortByKey(rows: seq<Row>): (s: seq<Row>)
    ensures |s| == |rows|
  {
    if rows == [] then [] else
    var n := |rows| - 1;
    InsertAt(SortByKey(rows[..n]), SlotFor(rows[..n], rows[n]), rows[n])
  }

  lemma {:induction false} SortByKeyPermutes(rows: seq<Row>)
    ensures multiset(SortByKey(rows)) == multiset(rows)
  {
    if rows != [] {
      var n := |rows| - 1;
      SortByKeyPermutes(rows[..n]);
      InsertAtMultiset(SortByKey(rows[..n]), SlotFor(rows[..n], rows[n]), rows[n]);
      assert rows == rows[..n] + [rows[n]];
    }
  }

  /** Position `i` holds a key below `k` exactly when it lies before bucket `k`. */
  lemma {:induction false} KeyAtPosition(rows: seq<Row>, k: nat, i: nat)
    requires i < |rows|
    ensures KeyOf(SortByKey(rows)[i].hash) < k <==> i < CountBelow(RowKeys(rows), k)
  {
    var n := |rows| - 1;
    RowKeysSnoc(rows);
    var key: nat := KeyOf(rows[n].hash);
    var keys := RowKeys(rows[..n]);
    var at := CountBelow(keys, key + 1);
    if key < k {
      CountBelowMonotone(keys, key + 1, k);
    } else {
      CountBelowMonotone(keys, k, key + 1);
    }
    if i < at {
      KeyAtPosition(rows[..n], k, i);
    } else if i > at {
      KeyAtPosition(rows[..n], k, i - 1);
    }
  }

  /** The rows of bucket `k`, in row order. */
  ghost function Bucket(rows: seq<Row>, k: nat): (b: seq<Row>)
    ensures |b| == |IdsWithKey(RowKeys(rows), k)|
  {
    var ids := IdsWithKey(RowKeys(rows), k);
    seq(|ids|, i requires 0 <= i < |ids| => rows[ids[i]])
  }

  lemma BucketSnoc(rows: seq<Row>, k: nat)
    requires rows != []
    ensures Bucket(rows, k)
         == Bucket(rows[..|rows| - 1], k) + if KeyOf(rows[|rows| - 1].hash) == k then [rows[|rows| - 1]] else []
  {
    RowKeysSnoc(rows);
  }

  /** Slices of a list after inserting `e` at `at`. */
  lemma InsertedSlice(s: seq<Row>, at: nat, e: Row, lo: nat, hi: nat)
    requires at <= |s| && lo <= hi <= |s|
    ensures hi <= at ==> InsertAt(s, at, e)[lo..hi] == s[lo..hi]
    ensures hi == at ==> InsertAt(s, at, e)[lo..hi + 1] == s[lo..hi] + [e]
    ensures at <= lo ==> InsertAt(s, at, e)[lo + 1..hi + 1] == s[lo..hi]
  {
    var t := InsertAt(s, at, e);
    assert forall i :: 0 <= i < |t| ==> t[i] == if i < at then s[i] else if i == at then e else s[i - 1];
  }

  /** Between the starts of buckets k and k + 1 the sorted rows are bucket `k`. */
  ghost predicate SliceIsBucket(rows: seq<Row>, k: nat) {
    var lo, hi := CountBelow(RowKeys(rows), k), CountBelow(RowKeys(rows), k + 1);
    lo <= hi && SortByKey(rows)[lo..hi] == Bucket(rows, k)
  }

  lemma {:induction false} SortedSlice(rows: seq<Row>, k: nat)
    ensures SliceIsBucket(rows, k)
  {
    CountBelowMonotone(RowKeys(rows), k, k + 1);
    if rows != [] {
      var n := |rows| - 1;
      SortedSlice(rows[..n], k);
      SortedSliceSnoc(rows, k);
    }
  }

  lemma SortedSliceSnoc(rows: seq<Row>, k: nat)
    requires rows != [] && SliceIsBucket(rows[..|rows| - 1], k)
    ensures SliceIsBucket(rows, k)
  {
    var n := |rows| - 1;
    var keys, key: nat := RowKeys(rows[..n]), KeyOf(rows[n].hash);
    RowKeysSnoc(rows);
    BucketSnoc(rows, k);
    CountBelowMonotone(RowKeys(rows), k, k + 1);
    CountBelowMonotone(keys, key + 1, if key < k then k else key + 1);
    CountBelowMonotone(keys, if k <= key then k + 1 else key + 1, key + 1);
    InsertedSlice(SortByKey(rows[..n]), SlotFor(rows[..n], rows[n]), rows[n],
                  CountBelow(keys, k), CountBelow(keys, k + 1));
  }

  lemma SortedRowAt(rows: seq<Row>, k: nat, i: nat)
    requires CountBelow(RowKeys(rows), k) <= i < CountBelow(RowKeys(rows), k + 1)
    ensures i - CountBelow(RowKeys(rows), k) < |IdsWithKey(RowKeys(rows), k)|
    ensures SortByKey(rows)[i] == rows[IdsWithKey(RowKeys(rows), k)[i - CountBelow(RowKeys(rows), k)]]
  {
    SortedSlice(rows, k);
    SliceAt(SortByKey(rows), CountBelow(RowKeys(rows), k), CountBelow(RowKeys(rows), k + 1), i);
  }

  /** What the placed row ids point at. */
  lemma OrderedRow(rows: seq<Row>, cells: seq<u32>, ordered: seq<u32>, k: nat, i: nat)
    requires IsSorted(RowKeys(rows), cells, ordered) && k < N_BUCKETS && cells[k] <= i < cells[k + 1]
    ensures i < |rows| <= |ordered| && ordered[i] < |rows| && rows[ordered[i]] == SortByKey(rows)[i]
  {
    PlacedId(RowKeys(rows), cells, ordered, k, i);
    SortedRowAt(rows, k, i);
  }

  lemma SliceAt<T>(s: seq<T>, lo: nat, hi: nat, i: nat)
    requires lo <= i < hi <= |s|
    ensures s[lo..hi][i - lo] == s[i]
  {}

  /** One round of the bucket-sorting searches: the pairs of the sorted rows, in order. */
  ghost function FastRound(rows: seq<Row>): seq<Row> {
    AllMerges(16, SortByKey(rows))
  }

  /** Bucket by bucket, the fast round merges exactly the pairs that collide on 16 bits. */
  lemma FastRoundIsRound(rows: seq<Row>)
    ensures multiset(FastRound(rows)) == multiset(AllMerges(16, rows))
  {
    SortByKeyPermutes(rows);
    AllMergesPermuted(16, SortByKey(rows), rows);
  }
}
