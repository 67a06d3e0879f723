/** The Wagner search for one nonce, fast and generic: exactly the Equihash solutions are found. */
module Solver {
  import opened Bytes
  import opened CountingSort
  import opened DistinctCheck
  import opened Equihash
  import opened Generations
  import opened ReferenceRounds
  import opened KeySort
  import opened Leaves
  import opened Levels
  import opened Packing
  import opened Pairs
  import opened Storage
  import opened FastRounds
  import opened Words

  // ---- The verifier both searches ask ------------------------------------------------------

  /** `equihash::is_valid_solution` on a packed solution. Its code is not part of this repository:
      it is taken to unpack the fields and check section 7.7.1. */
  ghost predicate Accepted(p: Puzzle, bytes: Hash) {
    var width := CollisionBits(p) + 1;
    && |bytes| == CeilDiv8(width * Pow2(p.k))
    && ValidSolution(p, Unpack(bytes, width, Pow2(p.k)))
  }

  type Verifier = Hash -> bool

  ghost predicate IsUpstream(p: Puzzle, verify: Verifier) {
    forall bytes: Hash :: verify(bytes) <==> Accepted(p, bytes)
  }

  /** A packed solution is accepted, and only a packed solution. */
  lemma AcceptedIffSolution(p: Puzzle, s: seq<nat>, bytes: Hash)
    requires p.leaves == Pow2(CollisionBits(p) + 1)
    requires |s| == Pow2(p.k) && Packed(s, CollisionBits(p) + 1, bytes)
    requires forall i :: 0 <= i < |s| ==> s[i] < p.leaves
    ensures Accepted(p, bytes) <==> ValidSolution(p, s)
  {
    UnpackPacked(s, CollisionBits(p) + 1, bytes);
  }

  ghost predicate HasSolution(p: Puzzle) {
    exists s :: ValidSolution(p, s)
  }

  /** `bytes` spell a solution of the puzzle. */
  ghost predicate Solves(p: Puzzle, bytes: Hash) {
    exists s :: ValidSolution(p, s) && Packed(s, CollisionBits(p) + 1, bytes)
  }

  // ---- The fast path -----------------------------------------------------------------------

  ghost function FastStep(): Step {
    rows => FastRound(rows)
  }

  lemma FastStepIsRound()
    ensures IsRound(FastStep(), 16)
  {
    forall rows ensures multiset(FastStep()(rows)) == multiset(AllMerges(16, rows)) {
      FastRoundIsRound(rows);
    }
  }

  /** The fast path's rows after `r` rounds. */
  ghost function FastRows(p: Puzzle, r: nat): seq<Row> {
    Generation(FastStep(), LeafRows(p), r)
  }

  /** After r rounds the fast path holds every depth-r tree once. */
  lemma FastLevel(p: Puzzle, r: nat)
    requires p.cbytes == CBYTES
    ensures Level(p, r, FastRows(p, r))
  {
    FastStepIsRound();
    GenerationLevel(p, FastStep(), r);
  }

  /** Row ids and histogram cells are 32 bits wide. */
  ghost predicate RowsFit(p: Puzzle) {
    forall r: nat :: r < p.k ==> |FastRows(p, r)| < U32_LIMIT
  }

  lemma NoRowsNoSolution(p: Puzzle, rows: seq<Row>)
    requires Level(p, p.k, rows)
    requires forall i :: 0 <= i < |rows| ==> !AllZero(rows[i].hash)
    ensures !HasSolution(p)
  {
    forall s ensures !ValidSolution(p, s) {
      SolutionsAreZeroRows(p, rows, s);
    }
  }

  /** A final row with zero hash passes the distinctness scan and the verifier. */
  lemma ZeroRowPasses(p: Puzzle, rows: seq<Row>, i: nat, bytes: Hash)
    requires Level(p, p.k, rows) && i < |rows| && AllZero(rows[i].hash)
    requires p.leaves == Pow2(CollisionBits(p) + 1)
    requires Packed(rows[i].indices, CollisionBits(p) + 1, bytes)
    ensures Distinct(rows[i].indices) && Accepted(p, bytes) && Solves(p, bytes) && HasSolution(p)
  {
    assert RowOk(p, p.k, rows[i]);
    ZeroRowIffSolution(p, rows[i]);
    TreeIndices(p, p.k, rows[i].indices);
    AcceptedIffSolution(p, rows[i].indices, bytes);
  }

  /** The first row whose remaining hash is zero. */
  ghost function FirstZero(rows: seq<Row>): Option<seq<nat>> {
    if rows == [] then None
    else if AllZero(rows[0].hash) then Some(rows[0].indices)
    else FirstZero(rows[1..])
  }

  lemma {:induction false} FirstZeroAt(rows: seq<Row>, i: nat)
    requires i < |rows| && AllZero(rows[i].hash)
    requires forall j :: 0 <= j < i ==> !AllZero(rows[j].hash)
    ensures FirstZero(rows) == Some(rows[i].indices)
  {
    if i > 0 {
      FirstZeroAt(rows[1..], i - 1);
    }
  }

  /** The scan over the final rows. */
  method ScanFinal(final: RowBuffer, verify: Verifier, ghost p: Puzzle) returns (r: Option<Hash>)
    requires final.Valid() && final.stride == FINAL_INDICES && final.hashBytes == CBYTES
    requires p.k == FP_K && p.cbytes == CBYTES && p.leaves == FP_N_INIT
    requires Level(p, FP_K, final.rows) && IsUpstream(p, verify)
    ensures r.Some? <==> HasSolution(p)
    ensures r.Some? ==> Solves(p, r.value)
    ensures r.Some? ==> FirstZero(final.rows).Some? && Packed(FirstZero(final.rows).value, FIELD_BITS, r.value)
  {
    for rowId := 0 to |final.hashes|
      invariant forall i :: 0 <= i < rowId ==> !AllZero(final.rows[i].hash)
    {
      r := CheckRow(final, rowId, verify, p);
      if r.Some? {
        FirstZeroAt(final.rows, rowId);
        return;
      }
    }
    NoRowsNoSolution(p, final.rows);
    return None;
  }

  /** The body of the scan: a row is answered with exactly when its remaining hash is zero. */
  method CheckRow(final: RowBuffer, rowId: nat, verify: Verifier, ghost p: Puzzle) returns (r: Option<Hash>)
    requires final.Valid() && final.stride == FINAL_INDICES && final.hashBytes == CBYTES && rowId < |final.rows|
    requires p.k == FP_K && p.cbytes == CBYTES && p.leaves == FP_N_INIT
    requires Level(p, FP_K, final.rows) && IsUpstream(p, verify)
    ensures r.Some? <==> AllZero(final.rows[rowId].hash)
    ensures r.Some? ==> HasSolution(p) && Solves(p, r.value) && Packed(final.rows[rowId].indices, FIELD_BITS, r.value)
  {
    FastNumbers();
    var h, idxSlice := final.Get(rowId);
    HashZero(h, final.rows[rowId]);
    if h[0] != 0 || h[1] != 0 {
      return None;
    }
    var distinct := GloballyDistinct(idxSlice);
    var compressed := CompressIndices(16, idxSlice);
    ZeroRowPasses(p, final.rows, rowId, compressed);
    if !distinct {
      return None;
    }
    if verify(compressed) {
      return Some(compressed);
    }
    return None;
  }

  lemma HashZero(h: FixedHash, row: Row)
    requires HoldsHash(h, CBYTES, row)
    ensures AllZero(row.hash) <==> h[0] == 0 && h[1] == 0
  {
    assert h[0] == ByteAt(row.hash, 0) && h[1] == ByteAt(row.hash, 1);
  }

  /** `step` is the fast round. Used only where `On` asks for it. */
  ghost predicate IsFast(step: Step) {
    forall rows {:trigger On(rows)} :: step(rows) == FastRound(rows)
  }

  lemma FastIsRound(step: Step)
    requires IsFast(step)
    ensures IsRound(step, 16)
  {
    forall rows ensures multiset(step(rows)) == multiset(AllMerges(16, rows)) {
      assert On(rows);
      FastRoundIsRound(rows);
    }
  }

  /** The rows of generation `r`, laid out. */
  ghost predicate HoldsGeneration(buffer: RowBuffer, step: Step, leaves: seq<Row>, r: nat)
    reads buffer
  {
    && buffer.Valid() && buffer.rows == Generation(step, leaves, r)
    && buffer.stride == Pow2(r) && buffer.hashBytes + CBYTES * r == FP_HASH_INIT_BYTES
  }

  method NextRound(cur: RowBuffer, nxt: RowBuffer, bucketCount: array<u32>, ghost step: Step,
            ghost leaves: seq<Row>, ghost r: nat)
    requires cur != nxt && HoldsGeneration(cur, step, leaves, r) && CBYTES * (r + 1) <= FP_HASH_INIT_BYTES
    requires |cur.rows| < U32_LIMIT && bucketCount.Length == N_BUCKETS + 1 && IsFast(step)
    modifies nxt, bucketCount
    ensures HoldsGeneration(nxt, step, leaves, r + 1)
  {
    assert On(cur.rows);
    WagnerRound(cur, nxt, bucketCount);
  }

  /** The five rounds, alternating between two buffers; stops early when nothing is left. */
  method FiveRounds(a: RowBuffer, b: RowBuffer, bucketCount: array<u32>, ghost step: Step, ghost leaves: seq<Row>)
    returns (empty: bool, final: RowBuffer)
    requires a != b && HoldsGeneration(a, step, leaves, 0) && IsFast(step) && IsRound(step, 16)
    requires forall r: nat :: r < FP_K ==> |Generation(step, leaves, r)| < U32_LIMIT
    requires bucketCount.Length == N_BUCKETS + 1
    modifies a, b, bucketCount
    ensures empty ==> Generation(step, leaves, FP_K) == []
    ensures !empty ==> HoldsGeneration(final, step, leaves, FP_K)
  {
    var cur, nxt := a, b;
    var round := 0;
    while round < FP_K
      invariant round <= FP_K
      invariant (cur == a && nxt == b) || (cur == b && nxt == a)
      invariant HoldsGeneration(cur, step, leaves, round)
    {
      assert |Generation(step, leaves, round)| < U32_LIMIT;
      NextRound(cur, nxt, bucketCount, step, leaves, round);
      cur, nxt := nxt, cur;
      round := round + 1;
      if |cur.hashes| == 0 {
        EmptyStaysEmpty(step, 16, leaves, round, FP_K);
        return true, cur;
      }
    }
    assert round == FP_K;
    return false, cur;
  }

  lemma FastStepIsFast()
    ensures IsFast(FastStep())
  {}

  lemma RowsFitFast(p: Puzzle)
    requires RowsFit(p) && p.k == FP_K
    ensures forall r: nat :: r < FP_K ==> |Generation(FastStep(), LeafRows(p), r)| < U32_LIMIT
  {
    forall r: nat | r < FP_K ensures |Generation(FastStep(), LeafRows(p), r)| < U32_LIMIT {
      assert |FastRows(p, r)| < U32_LIMIT;
    }
  }

  /** `try_nonce_96_5`: `Some` exactly when the nonce has an Equihash solution, and then its packing. */
  method TryNonce96_5(digest: Digests, verify: Verifier) returns (r: Option<Hash>)
    requires FastDigests(digest) && RowsFit(FastPuzzle(digest)) && IsUpstream(FastPuzzle(digest), verify)
    ensures r.Some? <==> HasSolution(FastPuzzle(digest))
    ensures r.Some? ==> Solves(FastPuzzle(digest), r.value)
    ensures var hit := FirstZero(FastRows(FastPuzzle(digest), FP_K));
            r.Some? ==> hit.Some? && Packed(hit.value, FIELD_BITS, r.value)
  {
    ghost var p := FastPuzzle(digest);
    var a := new RowBuffer();
    var b := new RowBuffer();
    GenerateLeaves96_5(digest, a);
    var bucketCount := new u32[N_BUCKETS + 1];
    FastStepIsRound();
    FastStepIsFast();
    RowsFitFast(p);
    assert HoldsGeneration(a, FastStep(), LeafRows(p), 0);
    var empty, final := FiveRounds(a, b, bucketCount, FastStep(), LeafRows(p));
    FastLevel(p, FP_K);
    if empty {
      NoRowsNoSolution(p, FastRows(p, FP_K));
      return None;
    }
    assert Pow2(FP_K) == FINAL_INDICES;
    r := ScanFinal(final, verify, p);
  }

  // ---- The generic path --------------------------------------------------------------------

  ghost function GenericStep(cbits: nat): Step {
    rows => ReferenceRound(cbits, rows)
  }

  lemma GenericStepIsRound(cbits: nat)
    ensures IsRound(GenericStep(cbits), cbits)
  {
    forall rows ensures multiset(GenericStep(cbits)(rows)) == multiset(AllMerges(cbits, rows)) {
      ReferenceRoundIsRound(cbits, rows);
    }
  }

  /** The generic path's rows after `r` rounds. */
  ghost function GenericRows(p: Puzzle, r: nat): seq<Row> {
    Generation(GenericStep(CollisionBits(p)), LeafRows(p), r)
  }

  /** After r rounds the generic path, too, holds every depth-r tree once. */
  lemma GenericLevel(p: Puzzle, r: nat)
    ensures Level(p, r, GenericRows(p, r))
  {
    GenericStepIsRound(CollisionBits(p));
    GenerationLevel(p, GenericStep(CollisionBits(p)), r);
  }

  /** Hashes stay long enough to be compared in every round. */
  lemma GenericLengths(p: Puzzle, step: Step, r: nat)
    requires r < p.k && p.width == (p.k + 1) * p.cbytes && IsRound(step, CollisionBits(p))
    ensures r * p.cbytes <= p.width && CeilDiv8(CollisionBits(p)) <= p.width - r * p.cbytes
    ensures SameLength(Generation(step, LeafRows(p), r), p.width - r * p.cbytes)
  {
    MulLe(r + 1, p.k + 1, p.cbytes);
    GenerationLevel(p, step, r);
    LevelLengths(p, r, Generation(step, LeafRows(p), r));
  }

  lemma EmptyGeneration(p: Puzzle, step: Step, r: nat)
    requires r <= p.k && IsRound(step, CollisionBits(p)) && Generation(step, LeafRows(p), r) == []
    ensures !HasSolution(p)
  {
    EmptyStaysEmpty(step, CollisionBits(p), LeafRows(p), r, p.k);
    GenerationLevel(p, step, p.k);
    NoRowsNoSolution(p, []);
  }

  lemma LevelLengths(p: Puzzle, r: nat, rows: seq<Row>)
    requires Level(p, r, rows) && (r + 1) * p.cbytes <= p.width
    ensures SameLength(rows, p.width - r * p.cbytes) && CeilDiv8(CollisionBits(p)) <= p.width - r * p.cbytes
  {
    assert (r + 1) * p.cbytes == r * p.cbytes + p.cbytes;
    forall i | 0 <= i < |rows| ensures |rows[i].hash| == p.width - r * p.cbytes {
      assert RowOk(p, r, rows[i]);
    }
  }

  /** n bits are k + 1 collision widths. */
  lemma WidthIsRounds(n: nat, k: nat, digest: Digests)
    requires Solvable(n, k, digest)
    ensures var p := PuzzleOf(n, k, digest);
            p.width == (k + 1) * p.cbytes && CollisionBits(p) == CBitsOf(n, k) && p.leaves == Pow2(CollisionBits(p) + 1)
  {
    var cbits, cbytes := CBitsOf(n, k), CBitsOf(n, k) / 8;
    assert n == (k + 1) * cbits && cbits == 8 * cbytes;
    EightTimes(k + 1, cbytes);
  }

  lemma EightTimes(a: nat, b: nat)
    ensures a * (8 * b) / 8 == a * b
  {
    assert a * (8 * b) == 8 * (a * b);
  }

  /** `step` is the reference round. Used only where `On` asks for it. */
  ghost predicate IsReference(step: Step, cbits: nat) {
    forall rows {:trigger On(rows)} :: step(rows) == ReferenceRound(cbits, rows)
  }

  method NextGenericRound(rows: seq<Row>, cbits: nat, ghost p: Puzzle, ghost step: Step, ghost r: nat) returns (next: seq<Row>)
    requires CollisionBits(p) == cbits && p.width == (p.k + 1) * p.cbytes && r < p.k
    requires IsRound(step, cbits) && IsReference(step, cbits) && rows == Generation(step, LeafRows(p), r)
    ensures next == Generation(step, LeafRows(p), r + 1)
  {
    GenericLengths(p, step, r);
    assert On(rows);
    next := GenericRound(rows, cbits, p.width - r * p.cbytes);
  }

  /** The k generic rounds; stops early when nothing is left. */
  method RunGenericRounds(cbits: nat, k: nat, leafRows: seq<Row>, ghost p: Puzzle, ghost step: Step) returns (rows: seq<Row>)
    requires p.k == k && CollisionBits(p) == cbits && p.width == (p.k + 1) * p.cbytes && leafRows == LeafRows(p)
    requires IsRound(step, cbits) && IsReference(step, cbits)
    ensures rows == [] ==> !HasSolution(p)
    ensures rows != [] ==> Level(p, k, rows)
  {
    rows := leafRows;
    var round := 0;
    while round < k
      invariant round <= k && rows == Generation(step, LeafRows(p), round)
    {
      rows := NextGenericRound(rows, cbits, p, step, round);
      round := round + 1;
      if rows == [] {
        EmptyGeneration(p, step, round);
        return;
      }
    }
    assert round == k;
    GenerationLevel(p, step, k);
    if rows == [] {
      EmptyGeneration(p, step, k);
    }
  }

  /** `try_nonce_generic`, for collision widths of whole bytes. */
  method TryNonceGeneric(n: nat, k: nat, digest: Digests, verify: Verifier) returns (r: Option<Hash>)
    requires Solvable(n, k, digest) && IsUpstream(PuzzleOf(n, k, digest), verify)
    ensures r.Some? <==> HasSolution(PuzzleOf(n, k, digest))
    ensures r.Some? ==> Solves(PuzzleOf(n, k, digest), r.value)
  {
    ghost var p := PuzzleOf(n, k, digest);
    var cbits := CBitsOf(n, k);
    var nInit := Pow2(cbits + 1);
    WidthIsRounds(n, k, digest);
    var rows := seq(nInit, i requires 0 <= i => Row(LeafHash(n, digest, i), [i]));
    assert rows == LeafRows(p);
    GenericStepIsRound(cbits);
    rows := RunGenericRounds(cbits, k, rows, p, GenericStep(cbits));
    if rows == [] {
      return None;
    }
    LeafCountFits(cbits + 1);
    r := ScanGeneric(cbits, k, rows, verify, p);
  }

  lemma LeafCountFits(bits: nat)
    requires bits < 32
    ensures Pow2(bits) <= U32_LIMIT
  {
    Pow2Monotone(bits, 32);
    Pow2ThirtyTwo();
  }

  method ScanGeneric(cbits: nat, k: nat, rows: seq<Row>, verify: Verifier, ghost p: Puzzle) returns (r: Option<Hash>)
    requires p.k == k && CollisionBits(p) == cbits && p.leaves == Pow2(cbits + 1) <= U32_LIMIT
    requires Level(p, k, rows) && IsUpstream(p, verify)
    ensures r.Some? <==> HasSolution(p)
    ensures r.Some? ==> Solves(p, r.value)
  {
    var targetIndicesLen := Pow2(k);
    for i := 0 to |rows|
      invariant forall j :: 0 <= j < i ==> !AllZero(rows[j].hash)
    {
      var row := rows[i];
      assert RowOk(p, k, row);
      if |row.indices| != targetIndicesLen {
        continue;
      }
      if !AllZero(row.hash) {
        continue;
      }
      IndicesFit(p, k, row.indices);
      var compressed := CompressIndices(cbits, row.indices);
      ZeroRowPasses(p, rows, i, compressed);
      if verify(compressed) {
        return Some(compressed);
      }
    }
    NoRowsNoSolution(p, rows);
    return None;
  }

  lemma IndicesFit(p: Puzzle, r: nat, s: seq<nat>)
    requires ValidTree(p, r, s) && p.leaves <= U32_LIMIT
    ensures forall i :: 0 <= i < |s| ==> s[i] < U32_LIMIT
  {
    TreeIndices(p, r, s);
  }

  // ---- Dispatch and the nonce loop ---------------------------------------------------------

  /** What one search needs: usable digests, the verifier, and 32-bit row counts on the fast path. */
  ghost predicate Searchable(n: nat, k: nat, digest: Digests, verify: Verifier) {
    && Solvable(n, k, digest) && IsUpstream(PuzzleOf(n, k, digest), verify)
    && (n == FP_N && k == FP_K ==> RowsFit(PuzzleOf(n, k, digest)))
  }

  method TryNonce(n: nat, k: nat, digest: Digests, verify: Verifier) returns (r: Option<Hash>)
    requires Searchable(n, k, digest, verify)
    ensures r.Some? <==> HasSolution(PuzzleOf(n, k, digest))
    ensures r.Some? ==> Solves(PuzzleOf(n, k, digest), r.value)
  {
    if n == FP_N && k == FP_K {
      FastNumbers();
      r := TryNonce96_5(digest, verify);
    } else {
      r := TryNonceGeneric(n, k, digest, verify);
    }
  }

  datatype SolveError = InvalidParams | NoSolutionFound

  ghost predicate NonceSolvable(n: nat, k: nat, digest: Digests) {
    Solvable(n, k, digest) && HasSolution(PuzzleOf(n, k, digest))
  }

  ghost predicate SolvesNonce(n: nat, k: nat, digest: Digests, bytes: Hash) {
    Solvable(n, k, digest) && Solves(PuzzleOf(n, k, digest), bytes)
  }

  /** `solve`: the first of the offered nonces that has a solution, or which way it failed. */
  method Solve(n: nat, k: nat, nonces: seq<Digests>, verifiers: seq<Verifier>)
    returns (r: Result<(nat, Hash), SolveError>)
    requires |verifiers| == |nonces|
    requires AcceptedParams(n, k) ==>
               forall i :: 0 <= i < |nonces| ==> Searchable(n, k, nonces[i], verifiers[i])
    ensures r == Err(InvalidParams) <==> !AcceptedParams(n, k)
    ensures r == Err(NoSolutionFound) <==>
              AcceptedParams(n, k) && forall i :: 0 <= i < |nonces| ==> !NonceSolvable(n, k, nonces[i])
    ensures r.Ok? ==> r.value.0 < |nonces| && SolvesNonce(n, k, nonces[r.value.0], r.value.1)
                      && forall i :: 0 <= i < r.value.0 ==> !NonceSolvable(n, k, nonces[i])
  {
    if !AcceptedParams(n, k) {
      return Err(InvalidParams);
    }
    for i := 0 to |nonces|
      invariant forall j :: 0 <= j < i ==> !NonceSolvable(n, k, nonces[j])
    {
      assert Searchable(n, k, nonces[i], verifiers[i]);
      var soln := TryNonce(n, k, nonces[i], verifiers[i]);
      if soln.Some? {
        return Ok((i, soln.value));
      }
    }
    return Err(NoSolutionFound);
  }

  // ---- Both paths --------------------------------------------------------------------------

  /** Round for round the two paths hold the same rows, so they agree on which nonces are solvable. */
  lemma PathsAgree(p: Puzzle, r: nat)
    requires p.cbytes == CBYTES
    ensures multiset(FastRows(p, r)) == multiset(GenericRows(p, r))
  {
    FastStepIsRound();
    GenericStepIsRound(16);
    GenerationsAgree(FastStep(), GenericStep(16), 16, LeafRows(p), r);
  }
}
