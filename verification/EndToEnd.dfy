/** From the miner's search to the program's payment. */
module EndToEnd {
  import opened Bytes
  import opened Equihash
  import opened Guarantees
  import opened Instructions
  import opened Leaves
  import opened Levels
  import opened Packing
  import opened ProgramState
  import opened Runs
  import opened Solver
  import opened Target
  import opened Transactions
  import opened Words

  /** The bytes of a packed solution as the program receives them. */
  function Wire(bytes: Hash): (s: seq<u8>)
    ensures |s| == |bytes|
  {
    seq(|bytes|, i requires 0 <= i < |bytes| => bytes[i] as int)
  }

  /** BLAKE2b over the base state, for each input block and nonce. */
  type Blake2b = (seq<u8>, Bytes32) -> Digests

  /** Miner and program call the same upstream verifier on the same puzzle. */
  ghost predicate SameVerifier(crypto: Crypto, blake: Blake2b) {
    forall n: u32, k: u32, input: seq<u8>, nonce: Bytes32, bytes: Hash
      {:trigger crypto.isValidSolution(n, k, input, nonce, Wire(bytes))} ::
      Solvable(n, k, blake(input, nonce)) ==>
        (crypto.isValidSolution(n, k, input, nonce, Wire(bytes)) <==> Accepted(PuzzleOf(n, k, blake(input, nonce)), bytes))
  }

  lemma SolvesIsAccepted(n: nat, k: nat, digest: Digests, bytes: Hash)
    requires Solvable(n, k, digest) && Solves(PuzzleOf(n, k, digest), bytes)
    ensures Accepted(PuzzleOf(n, k, digest), bytes)
  {
    var p := PuzzleOf(n, k, digest);
    WidthIsRounds(n, k, digest);
    var s :| ValidSolution(p, s) && Packed(s, CollisionBits(p) + 1, bytes);
    AcceptedIffSolution(p, s, bytes);
  }

  /**
   * What `try_nonce` returns for the current round, if it is below the target, is accepted from the
   * miner it was found for, as long as the program is open and rewards remain.
   */
  lemma FoundSolutionIsPaid(d: Deployment, blake: Blake2b, h: History, c: Config, tx: Transaction, bytes: Hash)
    requires Reachable(d, h) && h.state.config == Some(c) && c.miningOpen
    requires tx.call.DoMine? && tx.call.solution == Wire(bytes)
    requires SameVerifier(d.crypto, blake) && SlotHashReadable(tx.slotHashes)
    requires var input := InputBlock(c.currentChallenge, tx.call.signer, c.blockHeight);
      && SolvesNonce(c.equihashN, c.equihashK, blake(input, tx.call.nonce), bytes)
      && ToNat(d.crypto.sha256(Wire(bytes) + input)) < ToNat(c.currentTarget)
    ensures Processed(d, h.state, tx).failure.None? <==> c.blockHeight < 9_450_000
  {
    var input := InputBlock(c.currentChallenge, tx.call.signer, c.blockHeight);
    SolvesIsAccepted(c.equihashN, c.equihashK, blake(input, tx.call.nonce), bytes);
    MineAcceptedIff(d, h, c, tx);
  }
}
