/** The CUDA search for one nonce and the host's batch around it, against the CPU search. */
module GpuSearch {
  import opened Bytes
  import opened CountingSort
  import opened DistinctCheck
  import opened Equihash
  import opened Generations
  import opened GpuKernel
  import opened KeySort
  import opened Leaves
  import opened Levels
  import opened Packing
  import opened PairLoops
  import opened Pairs
  import opened Solver
  import opened Storage
  import opened Words

  // ---- Capped rounds -----------------------------------------------------------------------

  /** `capped` is `step` cut off at the cap. Used only where `On` asks for it. */
  ghost predicate IsCapped(capped: Step, step: Step) {
    forall rows {:trigger On(rows)} :: capped(rows) == Capped(step(rows))
  }

  lemma CappedOn(capped: Step, step: Step, rows: seq<Row>)
    requires IsCapped(capped, step)
    ensures capped(rows) == Capped(step(rows))
  {
    assert On(rows);
  }

  lemma PrefixSound(p: Puzzle, r: nat, x: seq<Row>, y: seq<Row>)
    requires x <= y && Sound(p, r, y) && Once(y)
    ensures Sound(p, r, x) && Once(x)
  {
    forall i | 0 <= i < |x| ensures RowOk(p, r, x[i]) {
      assert x[i] == y[i];
    }
    assert y == x + y[|x|..];
    forall row ensures multiset(x)[row] <= 1 {
      assert multiset(y)[row] <= 1;
    }
  }

  lemma CappedRoundSound(p: Puzzle, step: Step, capped: Step, r: nat, rows: seq<Row>)
    requires IsRound(step, CollisionBits(p)) && IsCapped(capped, step) && Sound(p, r, rows) && Once(rows)
    ensures Sound(p, r + 1, capped(rows)) && Once(capped(rows))
  {
    RoundOn(step, CollisionBits(p), rows);
    CappedOn(capped, step, rows);
    SoundStep(p, r, rows, step(rows));
    PrefixSound(p, r + 1, capped(rows), step(rows));
  }

  /** Whatever the cap drops, what a capped search keeps are trees, each once. */
  lemma {:induction false} CappedSound(p: Puzzle, step: Step, capped: Step, r: nat)
    requires IsRound(step, CollisionBits(p)) && IsCapped(capped, step)
    ensures Sound(p, r, Generation(capped, LeafRows(p), r)) && Once(Generation(capped, LeafRows(p), r))
  {
    if r == 0 {
      LeafLevel(p);
    } else {
      var q := r - 1;
      CappedSound(p, step, capped, q);
      CappedRoundSound(p, step, capped, q, Generation(capped, LeafRows(p), q));
    }
  }

  /** Sound rows, each once, are among the rows of a complete level. */
  lemma SoundInLevel(p: Puzzle, r: nat, x: seq<Row>, y: seq<Row>)
    requires Sound(p, r, x) && Once(x) && Level(p, r, y)
    ensures multiset(x) <= multiset(y)
  {
    forall row ensures multiset(x)[row] <= multiset(y)[row] {
      if row in x {
        var i :| 0 <= i < |x| && x[i] == row;
        assert RowOk(p, r, x[i]);
        assert row in y;
        assert multiset(x)[row] <= 1;
      }
    }
  }

  ghost predicate SameUpTo(x: Step, y: Step, leaves: seq<Row>, r: nat) {
    forall m: nat :: m <= r ==> Generation(x, leaves, m) == Generation(y, leaves, m)
  }

  ghost predicate FitsUpTo(step: Step, leaves: seq<Row>, r: nat) {
    forall m: nat :: m <= r ==> |Generation(step, leaves, m)| <= FP_N_INIT
  }

  /** A capped search follows the uncapped one exactly as long as no round exceeds the cap. */
  lemma {:induction false} CappedSameIffFits(step: Step, capped: Step, leaves: seq<Row>, r: nat)
    requires IsCapped(capped, step) && |leaves| <= FP_N_INIT
    ensures SameUpTo(capped, step, leaves, r) <==> FitsUpTo(step, leaves, r)
  {
    if r > 0 {
      var q := r - 1;
      CappedSameIffFits(step, capped, leaves, q);
      UpToNext(capped, step, leaves, q);
      var rows := Generation(step, leaves, q);
      CappedOn(capped, step, rows);
      assert Capped(step(rows)) == step(rows) <==> |step(rows)| <= FP_N_INIT;
      assert Generation(capped, leaves, q) == rows ==>
          (Generation(capped, leaves, r) == Generation(step, leaves, r) <==> |Generation(step, leaves, r)| <= FP_N_INIT);
    }
  }

  lemma UpToNext(x: Step, y: Step, leaves: seq<Row>, q: nat)
    ensures SameUpTo(x, y, leaves, q + 1) <==>
            (SameUpTo(x, y, leaves, q) && Generation(x, leaves, q + 1) == Generation(y, leaves, q + 1))
    ensures FitsUpTo(y, leaves, q + 1) <==>
            (FitsUpTo(y, leaves, q) && |Generation(y, leaves, q + 1)| <= FP_N_INIT)
    ensures SameUpTo(x, y, leaves, q) ==> Generation(x, leaves, q) == Generation(y, leaves, q)
  {}

  lemma {:induction false} FirstZeroIn(rows: seq<Row>) returns (i: nat)
    requires FirstZero(rows).Some?
    ensures i < |rows| && AllZero(rows[i].hash) && FirstZero(rows) == Some(rows[i].indices)
  {
    if AllZero(rows[0].hash) {
      i := 0;
    } else {
      i := FirstZeroIn(rows[1..]);
      i := i + 1;
    }
  }

  lemma {:induction false} FirstZeroFinds(rows: seq<Row>, i: nat)
    requires i < |rows| && AllZero(rows[i].hash)
    ensures FirstZero(rows).Some?
  {
    if i > 0 {
      FirstZeroFinds(rows[1..], i - 1);
    }
  }

  /** The first zero row of sound final rows is a solution. */
  lemma FirstZeroIsSolution(p: Puzzle, rows: seq<Row>)
    requires Sound(p, p.k, rows) && FirstZero(rows).Some?
    ensures ValidSolution(p, FirstZero(rows).value)
  {
    var i := FirstZeroIn(rows);
    assert RowOk(p, p.k, rows[i]);
    ZeroRowIffSolution(p, rows[i]);
  }

  /** Complete final rows have a zero row whenever there is a solution. */
  lemma SolutionHasZeroRow(p: Puzzle, rows: seq<Row>)
    requires Level(p, p.k, rows) && HasSolution(p)
    ensures FirstZero(rows).Some?
  {
    var s :| ValidSolution(p, s);
    SolutionsAreZeroRows(p, rows, s);
    var row :| row in rows && row.indices == s && AllZero(row.hash);
    var i :| 0 <= i < |rows| && rows[i] == row;
    FirstZeroFinds(rows, i);
  }

  /** What a capped search flags is a solution. */
  lemma CappedFlagIsSolution(p: Puzzle, step: Step, capped: Step)
    requires IsRound(step, CollisionBits(p)) && IsCapped(capped, step)
    requires FirstZero(Generation(capped, LeafRows(p), p.k)).Some?
    ensures ValidSolution(p, FirstZero(Generation(capped, LeafRows(p), p.k)).value)
  {
    CappedSound(p, step, capped, p.k);
    FirstZeroIsSolution(p, Generation(capped, LeafRows(p), p.k));
  }

  /** Where the cap does not bite, a capped search flags every solvable nonce. */
  lemma UncappedFlagsAll(p: Puzzle, step: Step, capped: Step)
    requires IsRound(step, CollisionBits(p)) && IsCapped(capped, step)
    requires |LeafRows(p)| <= FP_N_INIT && FitsUpTo(step, LeafRows(p), p.k)
    ensures FirstZero(Generation(capped, LeafRows(p), p.k)).Some? <==> HasSolution(p)
  {
    CappedSameIffFits(step, capped, LeafRows(p), p.k);
    assert Generation(capped, LeafRows(p), p.k) == Generation(step, LeafRows(p), p.k);
    GenerationLevel(p, step, p.k);
    if FirstZero(Generation(capped, LeafRows(p), p.k)).Some? {
      CappedFlagIsSolution(p, step, capped);
    }
    if HasSolution(p) {
      SolutionHasZeroRow(p, Generation(step, LeafRows(p), p.k));
    }
  }

  // ---- The kernel's search -----------------------------------------------------------------

  /** `cpu` is the CPU's round and `gpu` the kernel's. */
  ghost predicate Rounds(cpu: Step, gpu: Step) {
    IsFast(cpu) && IsCapped(gpu, cpu)
  }

  /** The kernel's rows after any number of rounds are among the CPU's, each once. */
  lemma GpuSubset(p: Puzzle, cpu: Step, gpu: Step, r: nat)
    requires Rounds(cpu, gpu) && p.cbytes == CBYTES
    ensures Once(Generation(gpu, LeafRows(p), r))
    ensures multiset(Generation(gpu, LeafRows(p), r)) <= multiset(Generation(cpu, LeafRows(p), r))
  {
    FastIsRound(cpu);
    CappedSound(p, cpu, gpu, r);
    GenerationLevel(p, cpu, r);
    SoundInLevel(p, r, Generation(gpu, LeafRows(p), r), Generation(cpu, LeafRows(p), r));
  }

  /** The 32 indices the kernel flags for this nonce, if any. */
  ghost function Flagged(p: Puzzle, gpu: Step): Option<seq<nat>> {
    FirstZero(Generation(gpu, LeafRows(p), p.k))
  }

  /** Every candidate the kernel flags is an Equihash solution. When no round exceeds the cap, every
      solvable nonce is flagged. */
  lemma FlaggedIffSolvable(p: Puzzle, cpu: Step, gpu: Step)
    requires Rounds(cpu, gpu) && p.cbytes == CBYTES && p.leaves <= FP_N_INIT
    ensures Flagged(p, gpu).Some? ==> ValidSolution(p, Flagged(p, gpu).value)
    ensures FitsUpTo(cpu, LeafRows(p), p.k) ==> (Flagged(p, gpu).Some? <==> HasSolution(p))
  {
    FastIsRound(cpu);
    if Flagged(p, gpu).Some? {
      CappedFlagIsSolution(p, cpu, gpu);
    }
    if FitsUpTo(cpu, LeafRows(p), p.k) {
      UncappedFlagsAll(p, cpu, gpu);
    }
  }

  // ---- One nonce ---------------------------------------------------------------------------

  /** The kernel's leaf loop: record and index of every leaf, five to a digest. */
  method GenerateLeaves(digest: Digests, slab: Slab)
    requires FastDigests(digest) && slab.Valid()
    modifies slab, slab.hashes, slab.indices
    ensures slab.Valid() && slab.stride == 1 && slab.hashBytes == FP_HASH_INIT_BYTES
    ensures slab.rows == LeafRows(FastPuzzle(digest))
  {
    ghost var rows := LeafRows(FastPuzzle(digest));
    slab.Restart(1, FP_HASH_INIT_BYTES);
    var nHashes := (FP_N_INIT + FP_INDICES_PER_HASH - 1) / FP_INDICES_PER_HASH;
    var hi := 0;
    assert rows[..0] == [];
    while hi < nHashes
      invariant hi <= nHashes
      invariant slab.Valid() && slab.stride == 1 && slab.hashBytes == FP_HASH_INIT_BYTES
      invariant slab.rows == rows[..Min(hi * FP_INDICES_PER_HASH, FP_N_INIT)]
    {
      WriteSlots(digest, hi, slab);
      hi := hi + 1;
    }
    assert rows[..FP_N_INIT] == rows;
  }

  method WriteSlots(digest: Digests, hi: u32, slab: Slab)
    requires FastDigests(digest) && hi * FP_INDICES_PER_HASH <= FP_N_INIT
    requires slab.Valid() && slab.stride == 1 && slab.hashBytes == FP_HASH_INIT_BYTES
    requires slab.rows == LeafRows(FastPuzzle(digest))[..hi * FP_INDICES_PER_HASH]
    modifies slab, slab.hashes, slab.indices
    ensures slab.Valid() && slab.stride == 1 && slab.hashBytes == FP_HASH_INIT_BYTES
    ensures slab.rows == LeafRows(FastPuzzle(digest))[..Min((hi + 1) * FP_INDICES_PER_HASH, FP_N_INIT)]
  {
    ghost var p, rows := FastPuzzle(digest), LeafRows(FastPuzzle(digest));
    var leafOut := digest(hi);
    var slot := 0;
    while slot < FP_INDICES_PER_HASH
      invariant slot <= FP_INDICES_PER_HASH && hi * FP_INDICES_PER_HASH + slot <= FP_N_INIT
      invariant slab.Valid() && slab.stride == 1 && slab.hashBytes == FP_HASH_INIT_BYTES
      invariant slab.rows == rows[..hi * FP_INDICES_PER_HASH + slot]
    {
      var leafIdx := hi * FP_INDICES_PER_HASH + slot;
      if leafIdx >= FP_N_INIT {
        break;
      }
      var leaf := leafOut[slot * FP_HASH_INIT_BYTES..(slot + 1) * FP_HASH_INIT_BYTES];
      SlotIsLeaf(digest, hi, slot);
      slab.WriteLeaf(leafIdx, PadLeaf(leaf), rows[leafIdx]);
      PrefixNext(rows, leafIdx);
      slot := slot + 1;
    }
  }

  /** The rows of generation `r`, laid out in a slab. */
  ghost predicate SlabHolds(slab: Slab, gpu: Step, leaves: seq<Row>, r: nat)
    reads slab, slab.hashes, slab.indices
  {
    && slab.Valid() && slab.rows == Generation(gpu, leaves, r)
    && slab.stride == Pow2(r) && slab.hashBytes + CBYTES * r == FP_HASH_INIT_BYTES
  }

  /** The same, with the row count and the shape that the kernel keeps beside the slab. */
  ghost predicate InGeneration(slab: Slab, nRows: nat, stride: nat, hashBytes: nat, gpu: Step, leaves: seq<Row>, r: nat)
    reads slab, slab.hashes, slab.indices
  {
    SlabHolds(slab, gpu, leaves, r) && nRows == |slab.rows| && stride == slab.stride && hashBytes == slab.hashBytes
  }

  /** A thread's scratch arrays. */
  class Scratch {
    const bucketCount: array<u32>
    const cursor: array<u32>
    const ordered: array<u32>

    constructor ()
      ensures Valid() && fresh(bucketCount) && fresh(cursor) && fresh(ordered)
    {
      bucketCount := new u32[N_BUCKETS + 1];
      cursor := new u32[N_BUCKETS];
      ordered := new u32[FP_N_INIT];
    }

    ghost predicate Valid() {
      && bucketCount.Length == N_BUCKETS + 1 && cursor.Length == N_BUCKETS && ordered.Length == FP_N_INIT
      && bucketCount != cursor && cursor != ordered && ordered != bucketCount
    }
  }

  ghost predicate Apart(a: Slab, b: Slab, ws: Scratch) {
    && a != b && a.hashes != b.hashes && a.indices != b.indices && ws.Valid()
    && Elsewhere(ws.bucketCount, a, b) && Elsewhere(ws.cursor, a, b) && Elsewhere(ws.ordered, a, b)
  }

  method NextCappedRound(input: Slab, output: Slab, nRows: nat, stride: nat, hashBytes: nat, ws: Scratch,
                         ghost cpu: Step, ghost gpu: Step, ghost leaves: seq<Row>, ghost r: nat)
    returns (outN: nat)
    requires Apart(input, output, ws) && output.Valid() && r < FP_K && Rounds(cpu, gpu)
    requires InGeneration(input, nRows, stride, hashBytes, gpu, leaves, r)
    modifies output, output.hashes, output.indices, ws.bucketCount, ws.cursor, ws.ordered
    ensures input.Valid()
    ensures InGeneration(output, outN, stride * 2, Trimmed(hashBytes), gpu, leaves, r + 1)
  {
    StrideFits(r);
    outN := WagnerRound(input, nRows, stride, hashBytes, output, ws.bucketCount, ws.cursor, ws.ordered);
    assert On(input.rows);
  }

  lemma StrideFits(r: nat)
    requires r < FP_K
    ensures 2 * Pow2(r) <= MAX_STRIDE && Pow2(r + 1) == 2 * Pow2(r)
  {
    Pow2Monotone(r + 1, 5);
    assert Pow2(5) == 32;
  }

  /** Phase 3: the first final row with zero hash and distinct indices. */
  method ScanSlab(final: Slab, nRows: nat, ghost p: Puzzle) returns (valid: bool, flagged: seq<u32>)
    requires final.Valid() && nRows == |final.rows| && final.stride == FINAL_INDICES && final.hashBytes == CBYTES
    requires Sound(p, p.k, final.rows)
    ensures valid <==> FirstZero(final.rows).Some?
    ensures valid ==> flagged == FirstZero(final.rows).value
  {
    for r := 0 to nRows
      invariant forall i :: 0 <= i < r ==> !AllZero(final.rows[i].hash)
    {
      var h, idx := final.Get(r, FINAL_INDICES);
      HashZero(h, final.rows[r]);
      if h[0] != 0 || h[1] != 0 {
        continue;
      }
      assert RowOk(p, p.k, final.rows[r]);
      TreeIndices(p, p.k, final.rows[r].indices);
      var distinct := GloballyDistinct(idx);
      if !distinct {
        continue;
      }
      FirstZeroAt(final.rows, r);
      return true, idx;
    }
    NoZeroRow(final.rows);
    return false, [];
  }

  lemma {:induction false} NoZeroRow(rows: seq<Row>)
    requires forall i :: 0 <= i < |rows| ==> !AllZero(rows[i].hash)
    ensures FirstZero(rows) == None
  {
    if rows != [] {
      NoZeroRow(rows[1..]);
    }
  }

  /** Phase 2: five rounds, flipping between the slabs; stops early when nothing is left. */
  method FiveCappedRounds(a: Slab, b: Slab, ws: Scratch, ghost cpu: Step, ghost gpu: Step, ghost leaves: seq<Row>)
    returns (nRows: nat, final: Slab)
    requires Apart(a, b, ws) && b.Valid() && SlabHolds(a, gpu, leaves, 0) && |a.rows| == FP_N_INIT && Rounds(cpu, gpu)
    requires gpu([]) == []
    modifies a, a.hashes, a.indices, b, b.hashes, b.indices, ws.bucketCount, ws.cursor, ws.ordered
    ensures nRows == 0 ==> Generation(gpu, leaves, FP_K) == []
    ensures nRows > 0 ==> SlabHolds(final, gpu, leaves, FP_K) && nRows == |final.rows|
  {
    nRows, final := FP_N_INIT, a;
    var next := b;
    var stride: nat, hashBytes: nat := 1, FP_HASH_INIT_BYTES;
    var round := 0;
    while round < FP_K
      invariant round <= FP_K && nRows > 0
      invariant (final == a && next == b) || (final == b && next == a)
      invariant InGeneration(final, nRows, stride, hashBytes, gpu, leaves, round) && next.Valid()
    {
      nRows := NextCappedRound(final, next, nRows, stride, hashBytes, ws, cpu, gpu, leaves, round);
      stride, hashBytes := stride * 2, Trimmed(hashBytes);
      final, next := next, final;
      round := round + 1;
      if nRows == 0 {
        CappedStaysEmpty(gpu, leaves, round, FP_K);
        return;
      }
    }
    assert round == FP_K;
  }

  lemma {:induction false} CappedStaysEmpty(gpu: Step, leaves: seq<Row>, r: nat, m: nat)
    requires r <= m && gpu([]) == [] && Generation(gpu, leaves, r) == []
    ensures Generation(gpu, leaves, m) == []
  {
    if r < m {
      CappedStaysEmpty(gpu, leaves, r, m - 1);
    }
  }

  /** `solve_one_nonce`: flags the nonce exactly when its capped search ends in a zero row. */
  method SolveOneNonce(digest: Digests, ghost cpu: Step, ghost gpu: Step) returns (valid: bool, flagged: seq<u32>)
    requires FastDigests(digest) && Rounds(cpu, gpu)
    ensures valid <==> Flagged(FastPuzzle(digest), gpu).Some?
    ensures valid ==> flagged == Flagged(FastPuzzle(digest), gpu).value
  {
    ghost var p := FastPuzzle(digest);
    ghost var leaves := LeafRows(p);
    var a := new Slab();
    var b := new Slab();
    var ws := new Scratch();
    GenerateLeaves(digest, a);
    FastIsRound(cpu);
    CappedEmpty(cpu, gpu);
    var nRows, final := FiveCappedRounds(a, b, ws, cpu, gpu, leaves);
    if nRows == 0 {
      assert FirstZero([]) == None;
      return false, [];
    }
    CappedSound(p, cpu, gpu, FP_K);
    assert Pow2(FP_K) == FINAL_INDICES;
    valid, flagged := ScanSlab(final, nRows, p);
  }

  lemma CappedEmpty(cpu: Step, gpu: Step)
    requires IsRound(cpu, 16) && IsCapped(gpu, cpu)
    ensures gpu([]) == []
  {
    EmptyRound(cpu, 16);
    CappedOn(gpu, cpu, []);
  }

  // ---- The host's batch --------------------------------------------------------------------

  datatype GpuError = UnsupportedParams | Cuda(code: int)

  datatype Candidate = Candidate(nonce: nat, solnIndices: Hash)

  /** `run_batch` after the launch: pack each flagged nonce's indices and keep what the verifier accepts.
      The verifier drops none of them. */
  method RunBatch(batchSize: nat, nonces: seq<Digests>, verifiers: seq<Verifier>, rc: int, ghost cpu: Step, ghost gpu: Step)
    returns (r: Result<seq<Candidate>, GpuError>)
    requires |verifiers| == |nonces| && Rounds(cpu, gpu)
    requires forall i :: 0 <= i < |nonces| ==> FastDigests(nonces[i]) && IsUpstream(FastPuzzle(nonces[i]), verifiers[i])
    ensures r.Err? <==> |nonces| > 0 && (|nonces| > batchSize || rc != 0)
    ensures r.Err? ==> r.error == if |nonces| > batchSize then UnsupportedParams else Cuda(rc)
    ensures r.Ok? ==> Reports(r.value, nonces, |nonces|, gpu)
  {
    if |nonces| == 0 {
      return Ok([]);
    }
    if |nonces| > batchSize {
      return Err(UnsupportedParams);
    }
    if rc != 0 {
      return Err(Cuda(rc));
    }
    var results: seq<Candidate> := [];
    var i := 0;
    while i < |nonces|
      invariant i <= |nonces| && Reports(results, nonces, i, gpu)
    {
      assert FastDigests(nonces[i]);
      var checked := CheckCandidate(nonces[i], verifiers[i], cpu, gpu);
      if checked.Some? {
        ReportOne(results, nonces, i, gpu, Candidate(i, checked.value));
        results := results + [Candidate(i, checked.value)];
      } else {
        ReportNone(results, nonces, i, gpu);
      }
      i := i + 1;
    }
    assert i == |nonces|;
    return Ok(results);
  }

  /** One nonce: the launch's flag, packed and verified again on the host. */
  method CheckCandidate(digest: Digests, verify: Verifier, ghost cpu: Step, ghost gpu: Step) returns (r: Option<Hash>)
    requires FastDigests(digest) && IsUpstream(FastPuzzle(digest), verify) && Rounds(cpu, gpu)
    ensures r.Some? <==> Flagged(FastPuzzle(digest), gpu).Some?
    ensures r.Some? ==> Packed(Flagged(FastPuzzle(digest), gpu).value, FIELD_BITS, r.value)
                        && Solves(FastPuzzle(digest), r.value)
  {
    ghost var p := FastPuzzle(digest);
    FlaggedIffSolvable(p, cpu, gpu);
    var valid, idxSlice := SolveOneNonce(digest, cpu, gpu);
    if !valid {
      return None;
    }
    var compressed := CompressIndices96_5(idxSlice);
    FastNumbers();
    assert Pow2(FP_K) == FINAL_INDICES;
    AcceptedIffSolution(p, idxSlice, compressed);
    if verify(compressed) {
      return Some(compressed);
    }
    return None;
  }

  lemma ReportOne(results: seq<Candidate>, nonces: seq<Digests>, i: nat, gpu: Step, c: Candidate)
    requires i < |nonces| && Reports(results, nonces, i, gpu) && c.nonce == i && Reported(c, nonces, i + 1, gpu)
    ensures Reports(results + [c], nonces, i + 1, gpu)
  {
    var more := results + [c];
    forall d | d in more ensures Reported(d, nonces, i + 1, gpu) {
      if d in results {
        assert Reported(d, nonces, i, gpu);
      }
    }
    forall j | 0 <= j < i + 1 && j < |nonces| && IsFlagged(nonces[j], gpu)
      ensures exists d :: d in more && d.nonce == j
    {
      if j < i {
        var d :| d in results && d.nonce == j;
        assert d in more;
      } else {
        assert more[|results|] == c;
        assert c in more;
      }
    }
    forall x, y | 0 <= x < y < |more| ensures more[x].nonce < more[y].nonce {
      if y == |results| {
        assert Reported(results[x], nonces, i, gpu);
      }
    }
  }

  lemma ReportNone(results: seq<Candidate>, nonces: seq<Digests>, i: nat, gpu: Step)
    requires i < |nonces| && Reports(results, nonces, i, gpu) && !IsFlagged(nonces[i], gpu)
    ensures Reports(results, nonces, i + 1, gpu)
  {
    forall d | d in results ensures Reported(d, nonces, i + 1, gpu) {
      assert Reported(d, nonces, i, gpu);
    }
  }

  ghost predicate IsFlagged(digest: Digests, gpu: Step) {
    FastDigests(digest) && Flagged(FastPuzzle(digest), gpu).Some?
  }

  /** The report on the first `n` nonces: exactly the flagged ones, in order, each with its packing. */
  ghost predicate Reports(results: seq<Candidate>, nonces: seq<Digests>, n: nat, gpu: Step) {
    && (forall c :: c in results ==> Reported(c, nonces, n, gpu))
    && (forall i :: 0 <= i < n && i < |nonces| && IsFlagged(nonces[i], gpu) ==>
          exists c :: c in results && c.nonce == i)
    && (forall i, j :: 0 <= i < j < |results| ==> results[i].nonce < results[j].nonce)
  }

  ghost predicate Reported(c: Candidate, nonces: seq<Digests>, n: nat, gpu: Step) {
    && c.nonce < n <= |nonces| && IsFlagged(nonces[c.nonce], gpu)
    && Packed(Flagged(FastPuzzle(nonces[c.nonce]), gpu).value, FIELD_BITS, c.solnIndices)
    && Solves(FastPuzzle(nonces[c.nonce]), c.solnIndices)
  }
}
