/** Byte strings as the solvers see them: XOR, trimming and leading-bit comparison. */
module Bytes {
  import opened Words

  type Hash = seq<bv8>

  /** The byte at position `i`, reading zero past the end (the zero padding of a fixed buffer). */
  function ByteAt(h: Hash, i: nat): bv8 {
    if i < |h| then h[i] else 0
  }

  /** Byte-wise XOR, as long as the shorter operand (solver.rs:398-400 zips its inputs). */
  function Xor(a: Hash, b: Hash): (x: Hash)
    ensures |x| == Min(|a|, |b|)
  {
    seq(Min(|a|, |b|), i requires 0 <= i < |a| && i < |b| => a[i] ^ b[i])
  }

  function Zeros(n: nat): (z: Hash)
    ensures |z| == n
  {
    seq(n, _ => 0)
  }

  /** Everything after the first `m` bytes; empty when there are no more than `m`. */
  function Drop(h: Hash, m: nat): (d: Hash)
    ensures |d| == if |h| <= m then 0 else |h| - m
  {
    if |h| <= m then [] else h[m..]
  }

  ghost predicate ZeroTo(h: Hash, m: nat) {
    forall i: nat :: i < m ==> ByteAt(h, i) == 0
  }

  predicate AllZero(h: Hash) {
    forall i :: 0 <= i < |h| ==> h[i] == 0
  }

  /** Keeps the top `bits` bits of a byte. */
  function TopBits(b: bv8, bits: nat): bv8
    requires bits < 8
  {
    b & (0xFF << (8 - bits))
  }

  /** Agreement on the first `cbits` bits: whole bytes first, then the masked remainder. */
  ghost predicate SameLead(a: Hash, b: Hash, cbits: nat) {
    && (forall i: nat :: i < cbits / 8 ==> ByteAt(a, i) == ByteAt(b, i))
    && TopBits(ByteAt(a, cbits / 8), cbits % 8) == TopBits(ByteAt(b, cbits / 8), cbits % 8)
  }

  lemma XorAt(a: Hash, b: Hash, i: nat)
    requires |a| == |b|
    ensures ByteAt(Xor(a, b), i) == ByteAt(a, i) ^ ByteAt(b, i)
  {}

  lemma DropAt(h: Hash, m: nat, i: nat)
    ensures ByteAt(Drop(h, m), i) == ByteAt(h, m + i)
  {}

  lemma DropDrop(h: Hash, m: nat, k: nat)
    ensures Drop(Drop(h, m), k) == Drop(h, m + k)
  {}

  lemma DropXor(a: Hash, b: Hash, m: nat)
    requires |a| == |b|
    ensures Drop(Xor(a, b), m) == Xor(Drop(a, m), Drop(b, m))
  {}

  lemma XorComm(a: Hash, b: Hash)
    ensures Xor(a, b) == Xor(b, a)
  {
    forall i | 0 <= i < Min(|a|, |b|) ensures Xor(a, b)[i] == Xor(b, a)[i] {
      assert a[i] ^ b[i] == b[i] ^ a[i];
    }
  }

  lemma XorAssoc(a: Hash, b: Hash, c: Hash)
    requires |a| == |b| == |c|
    ensures Xor(Xor(a, b), c) == Xor(a, Xor(b, c))
  {
    forall i | 0 <= i < |a| ensures Xor(Xor(a, b), c)[i] == Xor(a, Xor(b, c))[i] {
      assert (a[i] ^ b[i]) ^ c[i] == a[i] ^ (b[i] ^ c[i]);
    }
  }

  lemma XorZeros(h: Hash)
    ensures Xor(Zeros(|h|), h) == h
  {
    forall i | 0 <= i < |h| ensures Xor(Zeros(|h|), h)[i] == h[i] {
      assert 0 ^ h[i] == h[i];
    }
  }

  /** Two strings whose first `m` bytes are zero XOR to zero on `m + c` bytes exactly when what
      follows those zeros agrees on `c` bytes. */
  lemma CollisionExtendsZeros(a: Hash, b: Hash, m: nat, cbits: nat)
    requires |a| == |b| && ZeroTo(a, m) && ZeroTo(b, m) && cbits % 8 == 0
    ensures ZeroTo(Xor(a, b), m + cbits / 8) <==> SameLead(Drop(a, m), Drop(b, m), cbits)
  {
    var x, c := Xor(a, b), cbits / 8;
    forall i: nat ensures ByteAt(x, i) == 0 <==> ByteAt(a, i) == ByteAt(b, i) {
      XorAt(a, b, i);
      XorZeroIff(ByteAt(a, i), ByteAt(b, i));
    }
    forall i: nat ensures ByteAt(Drop(a, m), i) == ByteAt(a, m + i) && ByteAt(Drop(b, m), i) == ByteAt(b, m + i) {
      DropAt(a, m, i);
      DropAt(b, m, i);
    }
    NoBitsLeft(ByteAt(Drop(a, m), c), ByteAt(Drop(b, m), c));
    if SameLead(Drop(a, m), Drop(b, m), cbits) {
      forall i: nat | i < m + c ensures ByteAt(x, i) == 0 {
        if m <= i {
          assert ByteAt(Drop(a, m), i - m) == ByteAt(Drop(b, m), i - m);
        }
      }
    }
    if ZeroTo(x, m + c) {
      forall i: nat | i < c ensures ByteAt(Drop(a, m), i) == ByteAt(Drop(b, m), i) {
        assert ByteAt(x, m + i) == 0;
      }
    }
  }

  lemma XorZeroIff(a: bv8, b: bv8)
    ensures a ^ b == 0 <==> a == b
  {}

  lemma NoBitsLeft(a: bv8, b: bv8)
    ensures TopBits(a, 0) == TopBits(b, 0)
  {}
}
