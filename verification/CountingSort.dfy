/** The histogram / prefix-sum / placement sort of row ids by the leading 16 bits of their hash. */
module CountingSort {
  import opened Bytes
  import opened Words

  const N_BUCKETS: nat := 65536

  type Key = k: nat | k < N_BUCKETS

  /** The leading two bytes as a big-endian number. */
  function KeyOf(h: Hash): (key: Key) {
    256 * (ByteAt(h, 0) as nat) + (ByteAt(h, 1) as nat)
  }

  /** The source computes the key by shift and or, in 16 bits. */
  lemma KeyIsShiftOr(h: Hash)
    ensures (((ByteAt(h, 0) as bv16) << 8) | (ByteAt(h, 1) as bv16)) as nat == KeyOf(h)
  {}

  /** A bucket is a collision class: equal keys mean equal leading 16 bits. */
  lemma KeyIffSameLead(a: Hash, b: Hash)
    ensures KeyOf(a) == KeyOf(b) <==> SameLead(a, b, 16)
  {
    NoBitsLeft(ByteAt(a, 2), ByteAt(b, 2));
    if KeyOf(a) == KeyOf(b) {
      BytesFromKey(ByteAt(a, 0), ByteAt(a, 1), ByteAt(b, 0), ByteAt(b, 1));
    }
  }

  lemma BytesFromKey(a: bv8, b: bv8, c: bv8, d: bv8)
    requires 256 * (a as nat) + (b as nat) == 256 * (c as nat) + (d as nat)
    ensures a == c && b == d
  {}

  function Keys(hashes: seq<Hash>): (keys: seq<Key>)
    ensures |keys| == |hashes|
  {
    seq(|hashes|, i requires 0 <= i < |hashes| => KeyOf(hashes[i]))
  }

  /** Row ids with key `k`, in increasing order. */
  function IdsWithKey(keys: seq<Key>, k: nat): (ids: seq<nat>)
    ensures |ids| <= |keys|
    ensures forall i :: 0 <= i < |ids| ==> ids[i] < |keys|
  {
    if keys == [] then [] else
    var n := |keys| - 1;
    IdsWithKey(keys[..n], k) + if keys[n] == k then [n] else []
  }

  /** How many rows have a key below `k`: where bucket `k` starts. */
  function CountBelow(keys: seq<Key>, k: nat): (c: nat)
    ensures c <= |keys|
  {
    if keys == [] then 0 else
    var n := |keys| - 1;
    CountBelow(keys[..n], k) + if keys[n] < k then 1 else 0
  }

  lemma {:induction false} CountBelowMonotone(keys: seq<Key>, k: nat, m: nat)
    requires k <= m
    ensures CountBelow(keys, k) <= CountBelow(keys, m)
  {
    if keys != [] {
      CountBelowMonotone(keys[..|keys| - 1], k, m);
    }
  }

  /** Bucket `k` is as long as the number of rows with key `k`. */
  lemma {:induction false} CountBelowNext(keys: seq<Key>, k: nat)
    ensures CountBelow(keys, k + 1) == CountBelow(keys, k) + |IdsWithKey(keys, k)|
  {
    if keys != [] {
      CountBelowNext(keys[..|keys| - 1], k);
    }
  }

  /** The buckets together hold every row. */
  lemma {:induction false} CountBelowTotal(keys: seq<Key>)
    ensures CountBelow(keys, 0) == 0 && CountBelow(keys, N_BUCKETS) == |keys|
  {
    if keys != [] {
      CountBelowTotal(keys[..|keys| - 1]);
    }
  }

  lemma {:induction false} IdsPrefix(keys: seq<Key>, n: nat, k: nat)
    requires n <= |keys|
    ensures IdsWithKey(keys[..n], k) <= IdsWithKey(keys, k)
    decreases |keys|
  {
    if n == |keys| {
      assert keys[..n] == keys;
    } else {
      var m := |keys| - 1;
      IdsPrefix(keys[..m], n, k);
      assert keys[..m][..n] == keys[..n];
    }
  }

  lemma IdsSnoc(keys: seq<Key>, n: nat, k: nat)
    requires n < |keys|
    ensures IdsWithKey(keys[..n + 1], k)
         == IdsWithKey(keys[..n], k) + if keys[n] == k then [n] else []
  {
    assert keys[..n + 1][..n] == keys[..n];
  }

  /** Where row `n` goes. */
  lemma PlaceInRange(keys: seq<Key>, n: nat)
    requires n < |keys|
    ensures CountBelow(keys, keys[n]) + |IdsWithKey(keys[..n], keys[n])| < |keys|
    ensures CountBelow(keys, keys[n]) + |IdsWithKey(keys[..n], keys[n])| < CountBelow(keys, (keys[n] as nat) + 1)
  {
    IdsSnoc(keys, n, keys[n]);
    IdsPrefix(keys, n + 1, keys[n]);
    CountBelowNext(keys, keys[n]);
  }

  /** `ids` stand in `ordered` from position `lo` on. */
  ghost predicate StandAt(ordered: seq<u32>, lo: nat, ids: seq<nat>) {
    lo + |ids| <= |ordered| && ordered[lo..lo + |ids|] == ids
  }

  lemma StandExtended(ordered: seq<u32>, lo: nat, ids: seq<nat>, e: u32)
    requires StandAt(ordered, lo, ids) && lo + |ids| < |ordered|
    ensures StandAt(ordered[lo + |ids| := e], lo, ids + [e])
  {}

  lemma StandSpared(ordered: seq<u32>, lo: nat, ids: seq<nat>, pos: nat, e: u32)
    requires StandAt(ordered, lo, ids) && pos < |ordered| && (pos < lo || lo + |ids| <= pos)
    ensures StandAt(ordered[pos := e], lo, ids)
  {
    assert ordered[pos := e][lo..lo + |ids|] == ordered[lo..lo + |ids|];
  }

  /** Bucket `k` of the placement holds exactly the ids with key `k`, so far. */
  ghost predicate BucketHolds(keys: seq<Key>, n: nat, k: nat, ordered: seq<u32>)
    requires n <= |keys|
  {
    StandAt(ordered, CountBelow(keys, k), IdsWithKey(keys[..n], k))
  }

  lemma BucketBounds(keys: seq<Key>, n: nat, k: nat)
    requires n <= |keys|
    ensures CountBelow(keys, k) + |IdsWithKey(keys[..n], k)| <= CountBelow(keys, k + 1) <= |keys|
  {
    IdsPrefix(keys, n, k);
    CountBelowNext(keys, k);
  }

  /** Placing row `n` at its cursor extends its own bucket and disturbs no other. */
  lemma PlaceKeepsBucket(keys: seq<Key>, n: nat, k: nat, key: nat, pos: nat, ordered: seq<u32>)
    requires n < |keys| <= |ordered| && n < U32_LIMIT && key == keys[n]
    requires pos == CountBelow(keys, key) + |IdsWithKey(keys[..n], key)| < |keys|
    requires BucketHolds(keys, n, k, ordered)
    ensures BucketHolds(keys, n + 1, k, ordered[pos := n])
  {
    if k == key {
      IdsSnoc(keys, n, k);
      StandExtended(ordered, CountBelow(keys, k), IdsWithKey(keys[..n], k), n);
    } else {
      IdsUnchanged(keys, n, k);
      PlaceInRange(keys, n);
      BucketBounds(keys, n, k);
      OtherBucket(keys, k, key, pos);
      StandSpared(ordered, CountBelow(keys, k), IdsWithKey(keys[..n], k), pos, n);
    }
  }

  lemma IdsUnchanged(keys: seq<Key>, n: nat, k: nat)
    requires n < |keys| && keys[n] != k
    ensures IdsWithKey(keys[..n + 1], k) == IdsWithKey(keys[..n], k)
  {
    IdsSnoc(keys, n, k);
  }

  /** A position inside bucket `key` is outside bucket `k`. */
  lemma OtherBucket(keys: seq<Key>, k: nat, key: nat, pos: nat)
    requires k != key && CountBelow(keys, key) <= pos < CountBelow(keys, key + 1)
    ensures pos < CountBelow(keys, k) || CountBelow(keys, k + 1) <= pos
  {
    if k < key {
      CountBelowMonotone(keys, k + 1, key);
    } else {
      CountBelowMonotone(keys, key + 1, k);
    }
  }

  /** Bucket `k` of the finished placement is the ids with key `k`, ascending. */
  ghost predicate BucketDone(keys: seq<Key>, k: nat, ordered: seq<u32>) {
    && CountBelow(keys, k) <= CountBelow(keys, k + 1) <= |keys| <= |ordered|
    && ordered[CountBelow(keys, k)..CountBelow(keys, k + 1)] == IdsWithKey(keys, k)
  }

  /** Cell `k` says where bucket `k` starts; the last cell is the row count. */
  ghost predicate Starts(keys: seq<Key>, cells: seq<u32>) {
    |cells| == N_BUCKETS + 1 && forall k: nat :: k <= N_BUCKETS ==> cells[k] == CountBelow(keys, k)
  }

  /** `ordered[bucketCount[k]..bucketCount[k + 1]]` is the ids with key k, for every k. */
  ghost predicate IsSorted(keys: seq<Key>, bucketCount: seq<u32>, ordered: seq<u32>) {
    && Starts(keys, bucketCount)
    && (forall k: nat :: k < N_BUCKETS ==> BucketDone(keys, k, ordered))
  }

  lemma PlacedId(keys: seq<Key>, cells: seq<u32>, ordered: seq<u32>, k: nat, i: nat)
    requires IsSorted(keys, cells, ordered) && k < N_BUCKETS && cells[k] <= i < cells[k + 1]
    ensures i < |keys| <= |ordered| && CountBelow(keys, k) <= i < CountBelow(keys, k + 1)
    ensures i - CountBelow(keys, k) < |IdsWithKey(keys, k)|
    ensures ordered[i] == IdsWithKey(keys, k)[i - CountBelow(keys, k)]
  {
    var lo, hi := CountBelow(keys, k), CountBelow(keys, k + 1);
    assert cells[k] == lo && cells[k + 1] == hi;
    assert BucketDone(keys, k, ordered);
    assert ordered[lo..hi][i - lo] == ordered[i];
  }

  /** Every row is placed exactly once. */
  lemma SortedIsPermutation(keys: seq<Key>, bucketCount: seq<u32>, ordered: seq<u32>, id: nat)
    requires IsSorted(keys, bucketCount, ordered) && id < |keys| <= |ordered|
    ensures bucketCount[0] == 0 && bucketCount[N_BUCKETS] == |keys|
    ensures id in ordered[..|keys|]
  {
    CountBelowTotal(keys);
    var k: nat := keys[id];
    assert BucketDone(keys, k, ordered);
    var i := IdIsListed(keys, id);
    assert ordered[CountBelow(keys, k)..CountBelow(keys, k + 1)][i] == id;
    assert ordered[CountBelow(keys, k) + i] == id;
  }

  lemma {:induction false} IdIsListed(keys: seq<Key>, id: nat) returns (i: nat)
    requires id < |keys|
    ensures i < |IdsWithKey(keys, keys[id])| && IdsWithKey(keys, keys[id])[i] == id
  {
    var n := |keys| - 1;
    if id == n {
      i := |IdsWithKey(keys, keys[id])| - 1;
    } else {
      i := IdIsListed(keys[..n], id);
    }
  }

  /** Cell k + 1 counts the rows with key `k` among the first `n`. */
  ghost predicate Counts(keys: seq<Key>, n: nat, cells: seq<u32>)
    requires n <= |keys|
  {
    && |cells| == N_BUCKETS + 1 && cells[0] == 0
    && forall k: nat :: k < N_BUCKETS ==> cells[k + 1] == |IdsWithKey(keys[..n], k)|
  }

  lemma CountsStep(keys: seq<Key>, n: nat, before: seq<u32>, after: seq<u32>)
    requires n < |keys| < U32_LIMIT && Counts(keys, n, before)
    ensures before[(keys[n] as nat) + 1] + 1 < U32_LIMIT
    ensures after == before[(keys[n] as nat) + 1 := before[(keys[n] as nat) + 1] + 1]
            ==> Counts(keys, n + 1, after)
  {
    var key: nat := keys[n];
    assert before[key + 1] == |IdsWithKey(keys[..n], key)|;
    forall k: nat {:trigger IdsWithKey(keys[..n + 1], k)} | k < N_BUCKETS
      ensures |IdsWithKey(keys[..n + 1], k)| == before[k + 1] + if key == k then 1 else 0
    {
      IdsSnoc(keys, n, k);
    }
  }

  method Histogram(hashes: seq<Hash>, bucketCount: array<u32>)
    requires |hashes| < U32_LIMIT && bucketCount.Length == N_BUCKETS + 1
    modifies bucketCount
    ensures Counts(Keys(hashes), |hashes|, bucketCount[..])
  {
    ghost var keys := Keys(hashes);
    for i := 0 to N_BUCKETS + 1
      invariant forall k :: 0 <= k < i ==> bucketCount[k] == 0
    {
      bucketCount[i] := 0;
    }
    for n := 0 to |hashes|
      invariant Counts(keys, n, bucketCount[..])
    {
      ghost var before := bucketCount[..];
      var key := KeyOf(hashes[n]);
      CountsStep(keys, n, before, before);
      bucketCount[key as nat + 1] := bucketCount[key as nat + 1] + 1;
      CountsStep(keys, n, before, bucketCount[..]);
    }
  }

  method PrefixSum(ghost keys: seq<Key>, bucketCount: array<u32>)
    requires |keys| < U32_LIMIT && bucketCount.Length == N_BUCKETS + 1
    requires Counts(keys, |keys|, bucketCount[..])
    modifies bucketCount
    ensures Starts(keys, bucketCount[..])
  {
    CountBelowTotal(keys);
    assert keys[..|keys|] == keys;
    for i := 1 to N_BUCKETS + 1
      invariant forall k: nat :: k < i ==> bucketCount[k] == CountBelow(keys, k)
      invariant forall k: nat :: i <= k + 1 && k < N_BUCKETS ==> bucketCount[k + 1] == |IdsWithKey(keys, k)|
    {
      ghost var b := i - 1;
      assert bucketCount[b + 1] == |IdsWithKey(keys, b)|;
      CountBelowNext(keys, b);
      bucketCount[i] := bucketCount[i] + bucketCount[i - 1];
    }
  }

  /** The first `n` rows are placed; each cursor stands where its bucket's next row goes. */
  ghost predicate PlacedUpTo(keys: seq<Key>, n: nat, cursor: seq<u32>, ordered: seq<u32>)
    requires n <= |keys| <= |ordered| && |cursor| == N_BUCKETS
  {
    forall k: nat :: k < N_BUCKETS ==>
      cursor[k] == CountBelow(keys, k) + |IdsWithKey(keys[..n], k)| && BucketHolds(keys, n, k, ordered)
  }

  lemma CursorInRange(keys: seq<Key>, n: nat, cursor: seq<u32>, ordered: seq<u32>, key: nat)
    requires n < |keys| <= |ordered| && |cursor| == N_BUCKETS && key == keys[n]
    requires PlacedUpTo(keys, n, cursor, ordered)
    ensures cursor[key] < |keys|
    ensures cursor[key] == CountBelow(keys, key) + |IdsWithKey(keys[..n], key)|
  {
    PlaceInRange(keys, n);
  }

  lemma PlaceStep(keys: seq<Key>, n: nat, cursor: seq<u32>, ordered: seq<u32>, key: nat, pos: u32)
    requires n < |keys| <= |ordered| && |keys| < U32_LIMIT && |cursor| == N_BUCKETS
    requires PlacedUpTo(keys, n, cursor, ordered)
    requires key == keys[n] && pos == cursor[key] < |keys|
    ensures PlacedUpTo(keys, n + 1, cursor[key := pos + 1], ordered[pos := n])
  {
    CursorInRange(keys, n, cursor, ordered, key);
    forall k: nat | k < N_BUCKETS
      ensures cursor[key := pos + 1][k] == CountBelow(keys, k) + |IdsWithKey(keys[..n + 1], k)|
      ensures BucketHolds(keys, n + 1, k, ordered[pos := n])
    {
      assert BucketHolds(keys, n, k, ordered);
      IdsSnoc(keys, n, k);
      PlaceKeepsBucket(keys, n, k, key, pos, ordered);
    }
  }

  lemma NonePlaced(keys: seq<Key>, cells: seq<u32>, ordered: seq<u32>)
    requires Starts(keys, cells) && |keys| <= |ordered|
    ensures PlacedUpTo(keys, 0, cells[..N_BUCKETS], ordered)
  {
    forall k: nat | k < N_BUCKETS ensures BucketHolds(keys, 0, k, ordered) {
      BucketBounds(keys, 0, k);
    }
  }

  method CopyStarts(bucketCount: array<u32>, cursor: array<u32>)
    requires bucketCount.Length == N_BUCKETS + 1 && cursor.Length == N_BUCKETS && bucketCount != cursor
    modifies cursor
    ensures cursor[..] == bucketCount[..N_BUCKETS]
  {
    for i := 0 to N_BUCKETS
      invariant cursor[..i] == bucketCount[..i]
    {
      cursor[i] := bucketCount[i];
    }
  }

  /** One row into its bucket. */
  method PlaceRow(hashes: seq<Hash>, n: nat, cursor: array<u32>, ordered: array<u32>)
    requires n < |hashes| < U32_LIMIT && |hashes| <= ordered.Length
    requires cursor.Length == N_BUCKETS && cursor != ordered
    requires PlacedUpTo(Keys(hashes), n, cursor[..], ordered[..])
    modifies cursor, ordered
    ensures PlacedUpTo(Keys(hashes), n + 1, cursor[..], ordered[..])
  {
    ghost var cursor0, ordered0 := cursor[..], ordered[..];
    var key: nat := KeyOf(hashes[n]);
    CursorInRange(Keys(hashes), n, cursor0, ordered0, key);
    var pos := cursor[key];
    PlaceStep(Keys(hashes), n, cursor0, ordered0, key, pos);
    cursor[key] := pos + 1;
    var id: u32 := n;
    ordered[pos] := id;
    assert cursor[..] == cursor0[key := pos + 1];
    assert ordered[..] == ordered0[pos := id];
  }

  method Place(hashes: seq<Hash>, cursor: array<u32>, ordered: array<u32>)
    requires |hashes| < U32_LIMIT && |hashes| <= ordered.Length
    requires cursor.Length == N_BUCKETS && cursor != ordered
    requires PlacedUpTo(Keys(hashes), 0, cursor[..], ordered[..])
    modifies cursor, ordered
    ensures PlacedUpTo(Keys(hashes), |hashes|, cursor[..], ordered[..])
  {
    var n := 0;
    while n < |hashes|
      invariant n <= |hashes| && PlacedUpTo(Keys(hashes), n, cursor[..], ordered[..])
    {
      PlaceRow(hashes, n, cursor, ordered);
      n := n + 1;
    }
    assert n == |hashes|;
  }

  lemma FullBuckets(keys: seq<Key>, cursor: seq<u32>, ordered: seq<u32>)
    requires |keys| <= |ordered|
    requires |cursor| == N_BUCKETS && PlacedUpTo(keys, |keys|, cursor, ordered)
    ensures forall k: nat :: k < N_BUCKETS ==> BucketDone(keys, k, ordered)
  {
    assert keys[..|keys|] == keys;
    forall k: nat | k < N_BUCKETS ensures BucketDone(keys, k, ordered) {
      assert BucketHolds(keys, |keys|, k, ordered);
      CountBelowNext(keys, k);
    }
  }

  method SortIds(hashes: seq<Hash>, bucketCount: array<u32>, cursor: array<u32>, ordered: array<u32>)
    requires |hashes| < U32_LIMIT && |hashes| <= ordered.Length
    requires bucketCount.Length == N_BUCKETS + 1 && cursor.Length == N_BUCKETS
    requires bucketCount != cursor && cursor != ordered && ordered != bucketCount
    modifies bucketCount, cursor, ordered
    ensures IsSorted(Keys(hashes), bucketCount[..], ordered[..])
  {
    Histogram(hashes, bucketCount);
    PrefixSum(Keys(hashes), bucketCount);
    CopyStarts(bucketCount, cursor);
    NonePlaced(Keys(hashes), bucketCount[..], ordered[..]);
    Place(hashes, cursor, ordered);
    FullBuckets(Keys(hashes), cursor[..], ordered[..]);
  }
}
