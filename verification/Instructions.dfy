/** The instruction handlers, on a working copy of the configuration and of the token balances. */
module Instructions {
  import opened ProgramState
  import opened Rounds
  import opened Schedule
  import opened Target
  import opened Words

  /** What a handler returns together with what it left in the accounts it was handed. */
  datatype Effect = Effect(failure: Option<EquiumError>, config: Config, tokens: Tokens)

  /** The arguments of `initialize`; the metadata string is not used by the handler. */
  datatype InitializeArgs = InitializeArgs(initialTarget: Bytes32, equihashN: u32, equihashK: u32)

  function InitialConfig(crypto: Crypto, admin: Pubkey, mint: Pubkey, args: InitializeArgs, clock: Clock): Config {
    Config(clock.slot, clock.unixTs, args.equihashN, args.equihashK, args.initialTarget,
           0, GenesisChallenge(crypto, mint, clock.slot), clock.slot, clock.unixTs, DEFAULT_PUBKEY,
           INITIAL_BLOCK_REWARD_BASE, HALVING_INTERVAL_BLOCKS, RETARGET_INTERVAL_BLOCKS, clock.unixTs,
           0, 0, false, admin, false)
  }

  method Initialize(crypto: Crypto, cfg: EquiumConfig, admin: Pubkey, mint: Pubkey, args: InitializeArgs, clock: Clock)
    modifies cfg
    ensures cfg.Snapshot() == InitialConfig(crypto, admin, mint, args, clock)
    ensures cfg.equihashN == args.equihashN && cfg.equihashK == args.equihashK
    ensures cfg.currentTarget == args.initialTarget && cfg.admin == admin
    ensures cfg.genesisSlot == cfg.roundOpenSlot == clock.slot
    ensures cfg.genesisUnixTs == cfg.roundOpenUnixTs == cfg.lastRetargetUnixTs == clock.unixTs
  {
    var genesisChallenge := GenesisChallenge(crypto, mint, clock.slot);
    cfg.genesisSlot := clock.slot;
    cfg.genesisUnixTs := clock.unixTs;
    cfg.equihashN := args.equihashN;
    cfg.equihashK := args.equihashK;
    cfg.currentTarget := args.initialTarget;
    OpenFirstRound(cfg, genesisChallenge, clock);
    StartSchedule(cfg, clock);
    cfg.miningOpen := false;
    cfg.admin := admin;
    cfg.adminRenounced := false;
  }

  method OpenFirstRound(cfg: EquiumConfig, genesisChallenge: Bytes32, clock: Clock)
    modifies cfg
    ensures cfg.Snapshot() == old(cfg.Snapshot()).(
              blockHeight := 0, currentChallenge := genesisChallenge, roundOpenSlot := clock.slot,
              roundOpenUnixTs := clock.unixTs, lastWinner := DEFAULT_PUBKEY)
  {
    cfg.blockHeight := 0;
    cfg.currentChallenge := genesisChallenge;
    cfg.roundOpenSlot := clock.slot;
    cfg.roundOpenUnixTs := clock.unixTs;
    cfg.lastWinner := DEFAULT_PUBKEY;
  }

  method StartSchedule(cfg: EquiumConfig, clock: Clock)
    modifies cfg
    ensures cfg.Snapshot() == old(cfg.Snapshot()).(
              epochReward := INITIAL_BLOCK_REWARD_BASE, nextHalvingBlock := HALVING_INTERVAL_BLOCKS,
              nextRetargetBlock := RETARGET_INTERVAL_BLOCKS, lastRetargetUnixTs := clock.unixTs,
              cumulativeMined := 0, emptyRounds := 0)
  {
    cfg.epochReward := INITIAL_BLOCK_REWARD_BASE;
    cfg.nextHalvingBlock := HALVING_INTERVAL_BLOCKS;
    cfg.nextRetargetBlock := RETARGET_INTERVAL_BLOCKS;
    cfg.lastRetargetUnixTs := clock.unixTs;
    cfg.cumulativeMined := 0;
    cfg.emptyRounds := 0;
  }

  // ---- fund_vault --------------------------------------------------------------------------

  function Funded(c: Config, t: Tokens, admin: Pubkey, clock: Clock): Effect {
    if admin != c.admin then
      Effect(Some(NotAdmin), c, t)
    else if c.miningOpen then
      Effect(Some(AlreadyOpen), c, t)
    else if t.Balance(admin) < MINEABLE_BASE then
      Effect(Some(InsufficientFunds), c, t)
    else
      Effect(None,
             c.(roundOpenSlot := clock.slot, roundOpenUnixTs := clock.unixTs,
                lastRetargetUnixTs := clock.unixTs, miningOpen := true),
             PaidIn(t, admin, MINEABLE_BASE))
  }

  method FundVault(cfg: EquiumConfig, tokens: TokenLedger, admin: Pubkey, clock: Clock)
    returns (failure: Option<EquiumError>)
    modifies cfg, tokens
    ensures Effect(failure, cfg.Snapshot(), tokens.Contents())
         == Funded(old(cfg.Snapshot()), old(tokens.Contents()), admin, clock)
    ensures failure.None? ==> cfg.lastRetargetUnixTs == cfg.roundOpenUnixTs == clock.unixTs && cfg.roundOpenSlot == clock.slot
  {
    if admin != cfg.admin {
      return Some(NotAdmin);
    }
    if cfg.miningOpen {
      return Some(AlreadyOpen);
    }
    var paid := tokens.PayIn(admin, MINEABLE_BASE);
    if !paid {
      return Some(InsufficientFunds);
    }
    cfg.roundOpenSlot := clock.slot;
    cfg.roundOpenUnixTs := clock.unixTs;
    cfg.lastRetargetUnixTs := clock.unixTs;
    cfg.miningOpen := true;
    return None;
  }

  // ---- mine --------------------------------------------------------------------------------

  /** `verify_submission`: what a submission is refused for, if anything. */
  function Refusal(crypto: Crypto, c: Config, miner: Pubkey, nonce: Bytes32, solution: seq<u8>): Option<EquiumError> {
    var input := BuildInput(c.currentChallenge, miner, c.blockHeight);
    if !crypto.isValidSolution(c.equihashN, c.equihashK, input, nonce, solution) then
      Some(InvalidEquihash)
    else if !HashUnder(SolutionHash(crypto, solution, input), c.currentTarget) then
      Some(AboveTarget)
    else
      None
  }

  method VerifySubmission(crypto: Crypto, cfg: EquiumConfig, miner: Pubkey, nonce: Bytes32, solution: seq<u8>)
    returns (refusal: Option<EquiumError>)
    ensures refusal == Refusal(crypto, cfg.Snapshot(), miner, nonce, solution)
    ensures var input := BuildInput(cfg.currentChallenge, miner, cfg.blockHeight);
      && (refusal == Some(InvalidEquihash) <==>
            !crypto.isValidSolution(cfg.equihashN, cfg.equihashK, input, nonce, solution))
      && (refusal.None? ==> ToNat(crypto.sha256(solution + input)) < ToNat(cfg.currentTarget))
      && (refusal.Some? ==> refusal.value in {InvalidEquihash, AboveTarget})
  {
    var input := BuildInput(cfg.currentChallenge, miner, cfg.blockHeight);
    if !crypto.isValidSolution(cfg.equihashN, cfg.equihashK, input, nonce, solution) {
      return Some(InvalidEquihash);
    }
    var under := HashUnderTarget(SolutionHash(crypto, solution, input), cfg.currentTarget);
    return if under then None else Some(AboveTarget);
  }

  /** The reward of the block being mined is paid and added up; the round is still the old one. */
  function Rewarded(c: Config, t: Tokens, miner: Pubkey): Effect {
    if c.epochReward == 0 then
      Effect(Some(RewardZeroed), c, t)
    else if c.cumulativeMined + c.epochReward >= U64_LIMIT then
      Effect(Some(ScheduleOverflow), c, t)
    else if c.cumulativeMined + c.epochReward > MINEABLE_BASE then
      Effect(Some(SupplyExhausted), c, t)
    else if t.vault < c.epochReward then
      Effect(Some(InsufficientFunds), c, t)
    else
      Effect(None, c.(cumulativeMined := c.cumulativeMined + c.epochReward), PaidOut(t, miner, c.epochReward))
  }

  function MinedBlock(crypto: Crypto, c: Config, t: Tokens, miner: Pubkey, nonce: Bytes32, solution: seq<u8>,
                      clock: Clock, slotHashes: Option<seq<u8>>)
    : Effect
  {
    if !c.miningOpen then
      Effect(Some(MiningNotOpen), c, t)
    else
      var refusal := Refusal(crypto, c, miner, nonce, solution);
      if refusal.Some? then
        Effect(refusal, c, t)
      else
        var rewarded := Rewarded(c, t, miner);
        if rewarded.failure.Some? then
          rewarded
        else
          var advanced := Advanced(crypto, rewarded.config, clock, slotHashes, Mined(miner));
          Effect(advanced.failure, advanced.config, rewarded.tokens)
  }

  method PayReward(cfg: EquiumConfig, tokens: TokenLedger, miner: Pubkey) returns (failure: Option<EquiumError>)
    modifies cfg, tokens
    ensures Effect(failure, cfg.Snapshot(), tokens.Contents())
         == Rewarded(old(cfg.Snapshot()), old(tokens.Contents()), miner)
  {
    var reward := cfg.epochReward;
    if reward == 0 {
      return Some(RewardZeroed);
    }
    if cfg.cumulativeMined + reward >= U64_LIMIT {
      return Some(ScheduleOverflow);
    }
    var newCumulative: u64 := cfg.cumulativeMined + reward;
    if newCumulative > MINEABLE_BASE {
      return Some(SupplyExhausted);
    }
    var paid := tokens.PayOut(miner, reward);
    if !paid {
      return Some(InsufficientFunds);
    }
    cfg.cumulativeMined := newCumulative;
    return None;
  }

  method Mine(crypto: Crypto, cfg: EquiumConfig, tokens: TokenLedger, miner: Pubkey, nonce: Bytes32,
              solution: seq<u8>, clock: Clock, slotHashes: Option<seq<u8>>)
    returns (failure: Option<EquiumError>)
    modifies cfg, tokens
    ensures Effect(failure, cfg.Snapshot(), tokens.Contents())
         == MinedBlock(crypto, old(cfg.Snapshot()), old(tokens.Contents()), miner, nonce, solution, clock, slotHashes)
    ensures var c, input := old(cfg.Snapshot()), BuildInput(old(cfg.currentChallenge), miner, old(cfg.blockHeight));
      failure.None? ==> && crypto.isValidSolution(c.equihashN, c.equihashK, input, nonce, solution)
                        && ToNat(crypto.sha256(solution + input)) < ToNat(c.currentTarget)
  {
    if !cfg.miningOpen {
      return Some(MiningNotOpen);
    }
    failure := VerifySubmission(crypto, cfg, miner, nonce, solution);
    if failure.Some? {
      return;
    }
    failure := PayReward(cfg, tokens, miner);
    if failure.Some? {
      return;
    }
    var newHeight;
    failure, newHeight := AdvanceRound(crypto, cfg, clock, slotHashes, Mined(miner));
  }

  // ---- advance_empty_round, set_target, renounce_admin --------------------------------------

  function SkippedRound(crypto: Crypto, c: Config, clock: Clock, slotHashes: Option<seq<u8>>): Outcome {
    if !c.miningOpen then
      Outcome(Some(MiningNotOpen), c)
    else if clock.slot < c.roundOpenSlot || clock.slot - c.roundOpenSlot < ROUND_TIMEOUT_SLOTS then
      Outcome(Some(RoundStillActive), c)
    else
      Advanced(crypto, c, clock, slotHashes, Empty)
  }

  method AdvanceEmptyRound(crypto: Crypto, cfg: EquiumConfig, clock: Clock, slotHashes: Option<seq<u8>>)
    returns (failure: Option<EquiumError>)
    modifies cfg
    ensures Outcome(failure, cfg.Snapshot()) == SkippedRound(crypto, old(cfg.Snapshot()), clock, slotHashes)
  {
    if !cfg.miningOpen {
      return Some(MiningNotOpen);
    }
    if clock.slot < cfg.roundOpenSlot {
      return Some(RoundStillActive);
    }
    var elapsed: u64 := clock.slot - cfg.roundOpenSlot;
    if elapsed < ROUND_TIMEOUT_SLOTS {
      return Some(RoundStillActive);
    }
    var newHeight;
    failure, newHeight := AdvanceRound(crypto, cfg, clock, slotHashes, Empty);
  }

  function Retuned(c: Config, admin: Pubkey, newTarget: Bytes32): Outcome {
    if admin != c.admin then
      Outcome(Some(NotAdmin), c)
    else if c.adminRenounced then
      Outcome(Some(AdminRenounced), c)
    else
      Outcome(None, c.(currentTarget := newTarget))
  }

  method SetTarget(cfg: EquiumConfig, admin: Pubkey, newTarget: Bytes32) returns (failure: Option<EquiumError>)
    modifies cfg
    ensures Outcome(failure, cfg.Snapshot()) == Retuned(old(cfg.Snapshot()), admin, newTarget)
  {
    if admin != cfg.admin {
      return Some(NotAdmin);
    }
    if cfg.adminRenounced {
      return Some(AdminRenounced);
    }
    cfg.currentTarget := newTarget;
    return None;
  }

  function Renounced(c: Config, admin: Pubkey): Outcome {
    if admin != c.admin then
      Outcome(Some(NotAdmin), c)
    else if c.adminRenounced then
      Outcome(Some(AdminRenounced), c)
    else
      Outcome(None, c.(adminRenounced := true, admin := DEFAULT_PUBKEY))
  }

  method RenounceAdmin(cfg: EquiumConfig, admin: Pubkey) returns (failure: Option<EquiumError>)
    modifies cfg
    ensures Outcome(failure, cfg.Snapshot()) == Renounced(old(cfg.Snapshot()), admin)
  {
    if admin != cfg.admin {
      return Some(NotAdmin);
    }
    if cfg.adminRenounced {
      return Some(AdminRenounced);
    }
    cfg.adminRenounced := true;
    cfg.admin := DEFAULT_PUBKEY;
    return None;
  }
}
