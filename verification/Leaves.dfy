/** From BLAKE2b digests to the leaves of a puzzle, one by one and batched. */
module Leaves {
  import opened Bytes
  import opened Equihash
  import opened Levels
  import opened Pairs
  import opened Storage
  import opened Words

  /** `digest(j)` is BLAKE2b over the base state, the nonce and the little-endian counter `j`. */
  type Digests = nat -> Hash

  /** What `BaseState::new` accepts. */
  predicate AcceptedParams(n: nat, k: nat) {
    !(n == 0 || k == 0 || n % 8 != 0 || n % (k + 1) != 0 || k >= n)
  }

  ghost predicate IsTimes(n: nat, q: nat, d: nat) {
    n == q * d
  }

  ghost predicate Divides(d: nat, n: nat) {
    exists q: nat :: IsTimes(n, q, d)
  }

  lemma DividesIff(d: nat, n: nat)
    requires d > 0
    ensures Divides(d, n) <==> n % d == 0
  {
    if n % d == 0 {
      assert IsTimes(n, n / d, d);
    }
    if Divides(d, n) {
      var q: nat :| IsTimes(n, q, d);
      DivUnique(n, d, q, 0);
    }
  }

  /** The hash is whole bytes and splits into k + 1 equal parts, with at least one round and fewer rounds than bits. */
  lemma AcceptedParamsIff(n: nat, k: nat)
    ensures AcceptedParams(n, k) <==> 0 < k < n && Divides(8, n) && Divides(k + 1, n)
  {
    DividesIff(8, n);
    DividesIff(k + 1, n);
  }

  function CBitsOf(n: nat, k: nat): nat { n / (k + 1) }

  /** Leaves per digest. */
  function PerHash(n: nat): nat
    requires n > 0
  {
    512 / n
  }

  /** The digest length is a whole number of leaves (solver.rs:30-33). */
  ghost predicate DigestsOk(n: nat, digest: Digests)
    requires n > 0
  {
    forall j: nat :: |digest(j)| == PerHash(n) * (n / 8)
  }

  /** Accepted parameters whose digests hold a leaf and whose rounds collide on whole bytes. */
  ghost predicate Solvable(n: nat, k: nat, digest: Digests) {
    AcceptedParams(n, k) && n <= 512 && CBitsOf(n, k) % 8 == 0 && CBitsOf(n, k) + 1 < 32 && DigestsOk(n, digest)
  }

  /** Slot `slot` of a digest holding `per` leaves of `width` bytes. */
  function Slot(h: Hash, per: nat, width: nat, slot: nat): (leaf: Hash)
    requires |h| == per * width && slot < per
    ensures |leaf| == width
  {
    MulLe(slot + 1, per, width);
    h[slot * width..(slot + 1) * width]
  }

  /** `generate_leaf_hash`: slot `i % per` of digest `i / per`. */
  function LeafHash(n: nat, digest: Digests, i: nat): (h: Hash)
    requires 0 < n <= 512 && DigestsOk(n, digest)
    ensures |h| == n / 8
  {
    Slot(digest(i / PerHash(n)), PerHash(n), n / 8, i % PerHash(n))
  }

  /** Byte `b` of a leaf, by its place in the digest the leaf is cut from. */
  lemma SlotByte(h: Hash, per: nat, width: nat, slot: nat, b: nat)
    requires |h| == per * width && slot < per && b < width
    ensures slot * width + b < |h| && Slot(h, per, width, slot)[b] == h[slot * width + b]
  {
    MulLe(slot + 1, per, width);
    assert (slot + 1) * width == slot * width + width;
  }

  function PuzzleOf(n: nat, k: nat, digest: Digests): (p: Puzzle)
    requires Solvable(n, k, digest)
  {
    PuzzleData(k, CBitsOf(n, k) / 8, n / 8, Pow2(CBitsOf(n, k) + 1), (i: nat) => LeafHash(n, digest, i))
  }

  // ---- The batched generator for (96, 5) ---------------------------------------------------

  const FP_N: nat := 96
  const FP_K: nat := 5
  const FP_HASH_INIT_BYTES: nat := 12
  const FP_INDICES_PER_HASH: nat := 5
  const FP_N_INIT: nat := 131072
  const FP_FINAL_INDICES: nat := 32

  ghost predicate FastDigests(digest: Digests) {
    forall j: nat :: |digest(j)| == FP_INDICES_PER_HASH * FP_HASH_INIT_BYTES
  }

  /** The production puzzle. */
  ghost function FastPuzzle(digest: Digests): (p: Puzzle)
    requires FastDigests(digest)
    ensures p.k == FP_K && p.cbytes == CBYTES && p.width == FP_HASH_INIT_BYTES && p.leaves == FP_N_INIT
    ensures forall i: nat :: p.leaf(i) == LeafHash(FP_N, digest, i)
  {
    FastNumbers();
    PuzzleOf(FP_N, FP_K, digest)
  }

  lemma FastNumbers()
    ensures CBitsOf(FP_N, FP_K) == 16 && PerHash(FP_N) == FP_INDICES_PER_HASH && Pow2(17) == FP_N_INIT
  {
    assert Pow2(8) == 256;
    Pow2Sum(8, 8);
  }

  /** `buf[..12].copy_from_slice(&h_bytes[slot * 12..(slot + 1) * 12])` on a zeroed buffer. */
  function PadLeaf(leaf: Hash): (h: FixedHash)
    requires |leaf| == FP_HASH_INIT_BYTES
    ensures forall b: nat :: b < HASH_PAD ==> h[b] == ByteAt(leaf, b)
  {
    leaf + Zeros(HASH_PAD - FP_HASH_INIT_BYTES)
  }

  /** Slot `slot` of digest `hashIdx` is the leaf that the per-index generator gives. */
  lemma SlotIsLeaf(digest: Digests, hashIdx: nat, slot: nat)
    requires FastDigests(digest) && slot < FP_INDICES_PER_HASH
    ensures digest(hashIdx)[slot * FP_HASH_INIT_BYTES..(slot + 1) * FP_HASH_INIT_BYTES]
         == FastPuzzle(digest).leaf(hashIdx * FP_INDICES_PER_HASH + slot)
  {
    FastNumbers();
  }

  lemma PrefixNext<T>(rows: seq<T>, i: nat)
    requires i < |rows|
    ensures rows[..i + 1] == rows[..i] + [rows[i]]
  {}

  /** One digest's worth of leaves, cut short at the last leaf. */
  method EmitSlots(digest: Digests, hashIdx: u32, output: RowBuffer)
    requires FastDigests(digest) && hashIdx * FP_INDICES_PER_HASH <= FP_N_INIT
    requires output.Valid() && output.stride == 1 && output.hashBytes == FP_HASH_INIT_BYTES
    requires output.rows == LeafRows(FastPuzzle(digest))[..hashIdx * FP_INDICES_PER_HASH]
    modifies output
    ensures output.Valid() && output.stride == 1 && output.hashBytes == FP_HASH_INIT_BYTES
    ensures output.rows == LeafRows(FastPuzzle(digest))[..Min((hashIdx + 1) * FP_INDICES_PER_HASH, FP_N_INIT)]
  {
    ghost var p := FastPuzzle(digest);
    var h := digest(hashIdx);
    var slot := 0;
    while slot < FP_INDICES_PER_HASH
      invariant slot <= FP_INDICES_PER_HASH && hashIdx * FP_INDICES_PER_HASH + slot <= FP_N_INIT
      invariant output.Valid() && output.stride == 1 && output.hashBytes == FP_HASH_INIT_BYTES
      invariant output.rows == LeafRows(p)[..hashIdx * FP_INDICES_PER_HASH + slot]
    {
      var leafIdx := hashIdx * FP_INDICES_PER_HASH + slot;
      if leafIdx >= FP_N_INIT {
        break;
      }
      var leaf := h[slot * FP_HASH_INIT_BYTES..(slot + 1) * FP_HASH_INIT_BYTES];
      SlotIsLeaf(digest, hashIdx, slot);
      output.Push(PadLeaf(leaf), [leafIdx], LeafRows(p)[leafIdx]);
      PrefixNext(LeafRows(p), leafIdx);
      slot := slot + 1;
    }
  }

  /** `generate_leaves_96_5`: all 131072 leaves, five to a digest, although five does not divide them. */
  method GenerateLeaves96_5(digest: Digests, output: RowBuffer)
    requires FastDigests(digest)
    modifies output
    ensures output.Valid() && output.stride == 1 && output.hashBytes == FP_HASH_INIT_BYTES
    ensures output.rows == LeafRows(FastPuzzle(digest)) && |output.rows| == FP_N_INIT
  {
    output.Clear(1, FP_HASH_INIT_BYTES);
    var nHashes := (FP_N_INIT + FP_INDICES_PER_HASH - 1) / FP_INDICES_PER_HASH;
    ghost var p := FastPuzzle(digest);
    assert LeafRows(p)[..0] == [];
    for hashIdx := 0 to nHashes
      invariant output.Valid() && output.stride == 1 && output.hashBytes == FP_HASH_INIT_BYTES
      invariant output.rows == LeafRows(p)[..Min(hashIdx * FP_INDICES_PER_HASH, FP_N_INIT)]
    {
      EmitSlots(digest, hashIdx, output);
    }
    assert LeafRows(p)[..FP_N_INIT] == LeafRows(p);
  }
}
