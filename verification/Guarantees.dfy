/** The main results about whole runs of the program. */
module Guarantees {
  import opened Instructions
  import opened ProgramState
  import opened Retarget
  import opened Rounds
  import opened Runs
  import opened Schedule
  import opened ScheduleKept
  import opened Target
  import opened Transactions
  import opened Words

  // ---- Supply ------------------------------------------------------------------------------

  /** Every block's reward was either paid or skipped, and the vault keeps what can never be paid. */
  lemma SupplyAccounted(d: Deployment, h: History, c: Config)
    requires Reachable(d, h) && h.state.config == Some(c)
    ensures c.cumulativeMined + h.skipped == SumRewards(c.blockHeight) <= MINEABLE_BASE - 4_536_000
    ensures c.cumulativeMined == h.paid && c.blockHeight == h.mines + c.emptyRounds
    ensures c.miningOpen ==> h.state.tokens.vault == MINEABLE_BASE + h.donated - c.cumulativeMined >= 4_536_000
    ensures !c.miningOpen ==> c.blockHeight == 0 && h.state.tokens.vault == h.donated
  {
    ReachableIsConsistent(d, h);
    BalancedSupply(h, c);
    RewardsAreBounded(c.blockHeight);
  }

  /** The reward and both marks kept step by step are the closed forms of the height. */
  lemma ScheduleInClosedForm(d: Deployment, h: History, c: Config)
    requires Reachable(d, h) && h.state.config == Some(c)
    ensures c.epochReward == RewardAtHeight(c.blockHeight)
    ensures c.nextHalvingBlock == (c.blockHeight / 378_000 + 1) * 378_000
    ensures c.nextRetargetBlock == (c.blockHeight / 60 + 1) * 60
  {
    ReachableIsConsistent(d, h);
  }

  /** The solution is valid for this miner's input block at this height. */
  ghost predicate SolvesPuzzle(crypto: Crypto, c: Config, miner: Pubkey, nonce: Bytes32, solution: seq<u8>) {
    crypto.isValidSolution(c.equihashN, c.equihashK, InputBlock(c.currentChallenge, miner, c.blockHeight), nonce, solution)
  }

  /** SHA-256 of the solution followed by the input block, as a number, is below the target. */
  ghost predicate MeetsTarget(crypto: Crypto, c: Config, miner: Pubkey, solution: seq<u8>) {
    ToNat(crypto.sha256(solution + InputBlock(c.currentChallenge, miner, c.blockHeight))) < ToNat(c.currentTarget)
  }

  /**
   * What becomes of a submission, error by error. The supply cap, the overflow checks and the vault's
   * balance do not appear: in a reachable state none of them can refuse.
   */
  lemma MineOutcome(d: Deployment, h: History, c: Config, tx: Transaction)
    requires Reachable(d, h) && h.state.config == Some(c) && tx.call.DoMine?
    ensures Processed(d, h.state, tx).failure
         == if !c.miningOpen then Some(MiningNotOpen)
            else if !SolvesPuzzle(d.crypto, c, tx.call.signer, tx.call.nonce, tx.call.solution) then Some(InvalidEquihash)
            else if !MeetsTarget(d.crypto, c, tx.call.signer, tx.call.solution) then Some(AboveTarget)
            else if c.blockHeight >= 9_450_000 then Some(RewardZeroed)
            else if !SlotHashReadable(tx.slotHashes) then Some(BadSlotHashes)
            else None
  {
    ReachableIsConsistent(d, h);
    BalancedSupply(h, c);
    RewardsAreBounded(c.blockHeight);
    RewardEnds(c.blockHeight);
    BuildInputIsBlock(c.currentChallenge, tx.call.signer, c.blockHeight);
    var rewarded := Rewarded(c, h.state.tokens, tx.call.signer);
    if c.miningOpen && c.blockHeight < 9_450_000 {
      assert rewarded.failure.None?;
    }
    AdvancesToNextRound(d.crypto, rewarded.config, tx.clock, tx.slotHashes, Mined(tx.call.signer));
  }

  /** Exactly when a mined block is accepted. */
  lemma MineAcceptedIff(d: Deployment, h: History, c: Config, tx: Transaction)
    requires Reachable(d, h) && h.state.config == Some(c) && tx.call.DoMine?
    ensures var input := InputBlock(c.currentChallenge, tx.call.signer, c.blockHeight);
      Processed(d, h.state, tx).failure.None? <==>
            && c.miningOpen
            && d.crypto.isValidSolution(c.equihashN, c.equihashK, input, tx.call.nonce, tx.call.solution)
            && ToNat(d.crypto.sha256(tx.call.solution + input)) < ToNat(c.currentTarget)
            && c.blockHeight < 9_450_000
            && SlotHashReadable(tx.slotHashes)
  {
    MineOutcome(d, h, c, tx);
  }

  lemma MineNeverExhaustsSupply(d: Deployment, h: History, tx: Transaction)
    requires Reachable(d, h) && tx.call.DoMine?
    ensures Processed(d, h.state, tx).failure !in {Some(SupplyExhausted), Some(ScheduleOverflow), Some(InsufficientFunds)}
  {
    if h.state.config.Some? {
      MineOutcome(d, h, h.state.config.value, tx);
    }
  }

  /** An accepted block pays its miner what the schedule owes for the height it was mined at. */
  lemma MinePaysSchedule(d: Deployment, h: History, c: Config, tx: Transaction)
    requires Reachable(d, h) && h.state.config == Some(c) && tx.call.DoMine?
    requires Processed(d, h.state, tx).failure.None?
    ensures var t, u := h.state.tokens, Processed(d, h.state, tx).state.tokens;
      && u.Balance(tx.call.signer) == t.Balance(tx.call.signer) + RewardAtHeight(c.blockHeight)
      && Moved(t, u, tx.call.signer)
  {
    ReachableIsConsistent(d, h);
  }

  /** No call creates or destroys tokens, and each moves them between the vault and one owner only. */
  lemma TokensConserved(d: Deployment, s: State, tx: Transaction)
    ensures exists owner :: Moved(s.tokens, Processed(d, s, tx).state.tokens, owner)
  {
    var owner := if tx.call.DoAdvanceEmptyRound? then DEFAULT_PUBKEY else tx.call.signer;
    assert Moved(s.tokens, Processed(d, s, tx).state.tokens, owner);
  }

  // ---- Skipping ----------------------------------------------------------------------------

  /** What becomes of an attempt to skip a round, error by error. */
  lemma SkipOutcome(d: Deployment, h: History, c: Config, tx: Transaction)
    requires Reachable(d, h) && h.state.config == Some(c) && tx.call.DoAdvanceEmptyRound?
    ensures Processed(d, h.state, tx).failure
         == if !c.miningOpen then Some(MiningNotOpen)
            else if tx.clock.slot < c.roundOpenSlot + 150 then Some(RoundStillActive)
            else if !SlotHashReadable(tx.slotHashes) then Some(BadSlotHashes)
            else if !HeightFits(c.blockHeight + 1) then Some(ScheduleOverflow)
            else None
  {
    ReachableIsConsistent(d, h);
    AdvancesToNextRound(d.crypto, c, tx.clock, tx.slotHashes, Empty);
    AdvanceErrors(d.crypto, c, tx.clock, tx.slotHashes, Empty);
  }

  /** Exactly when a stalled round can be skipped. */
  lemma SkipAcceptedIff(d: Deployment, h: History, c: Config, tx: Transaction)
    requires Reachable(d, h) && h.state.config == Some(c) && tx.call.DoAdvanceEmptyRound?
    ensures Processed(d, h.state, tx).failure.None?
       <==> && c.miningOpen
            && tx.clock.slot >= c.roundOpenSlot + 150
            && SlotHashReadable(tx.slotHashes)
            && HeightFits(c.blockHeight + 1)
  {
    SkipOutcome(d, h, c, tx);
  }

  /** Slots never run backwards. */
  ghost predicate OrderedSlots(txs: seq<Transaction>) {
    forall i, j :: 0 <= i < j < |txs| ==> txs[i].clock.slot <= txs[j].clock.slot
  }

  ghost predicate Paced(h: History) {
    h.state.config.Some? && h.state.config.value.miningOpen ==>
      h.fundingSlot + 150 * h.state.config.value.emptyRounds <= h.state.config.value.roundOpenSlot <= h.lastSlot
  }

  lemma StepPaced(d: Deployment, h: History, tx: Transaction)
    requires Consistent(h) && Paced(h) && h.lastSlot <= tx.clock.slot
    ensures Paced(Next(d, h, tx))
  {
    if h.state.config.Some? && Processed(d, h.state, tx).failure.None? {
      var c := h.state.config.value;
      match tx.call
      case DoMine(signer, _, _) =>
        AdvancesToNextRound(d.crypto, Rewarded(c, h.state.tokens, signer).config, tx.clock, tx.slotHashes, Mined(signer));
      case DoAdvanceEmptyRound =>
        AdvancesToNextRound(d.crypto, c, tx.clock, tx.slotHashes, Empty);
      case _ =>
    }
  }

  /** With a clock that does not run backwards, each skipped round took its 150 slots. */
  lemma {:induction false} SkipsTakeTime(d: Deployment, holders: map<Pubkey, nat>, txs: seq<Transaction>)
    requires OrderedSlots(txs)
    ensures Paced(Run(d, Start(holders), txs))
    ensures txs != [] ==> Run(d, Start(holders), txs).lastSlot == txs[|txs| - 1].clock.slot
  {
    if txs != [] {
      var before := txs[..|txs| - 1];
      SkipsTakeTime(d, holders, before);
      RunKeeps(d, Start(holders), before);
      if before != [] {
        assert before[|before| - 1].clock.slot <= txs[|txs| - 1].clock.slot;
      }
      StepPaced(d, Run(d, Start(holders), before), txs[|txs| - 1]);
    }
  }
}
