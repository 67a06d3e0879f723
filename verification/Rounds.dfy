/** The round transition that mining a block and skipping a stalled round share. */
module Rounds {
  import opened ProgramState
  import opened Retarget
  import opened Schedule
  import opened Target
  import opened Words

  datatype RoundTransition = Mined(winner: Pubkey) | Empty

  /** What a handler returns together with what it left in its copy of the configuration. */
  datatype Outcome = Outcome(failure: Option<EquiumError>, config: Config)

  /** `now.saturating_sub(last).max(0)`. */
  function ElapsedSeconds(now: i64, last: i64): (e: u64)
    ensures last <= now ==> e == Min(now - last, I64_LIMIT - 1)
    ensures now <= last ==> e == 0
  {
    var d := now - last;
    if d < 0 then 0 else if d >= I64_LIMIT then I64_LIMIT - 1 else d
  }

  function WinnerKey(transition: RoundTransition): Pubkey {
    if transition.Mined? then transition.winner else DEFAULT_PUBKEY
  }

  /** The new round is open; nobody has been credited and no boundary applied yet. */
  function Opened(crypto: Crypto, c: Config, clock: Clock, slotHash: Bytes32, transition: RoundTransition): Config
    requires c.blockHeight + 1 < U64_LIMIT
  {
    c.(blockHeight := c.blockHeight + 1,
       currentChallenge := NextChallenge(crypto, c.currentChallenge, WinnerKey(transition), slotHash),
       roundOpenSlot := clock.slot,
       roundOpenUnixTs := clock.unixTs)
  }

  function Credited(c: Config, transition: RoundTransition): Outcome {
    if transition.Mined? then
      Outcome(None, c.(lastWinner := transition.winner))
    else if c.emptyRounds + 1 >= U64_LIMIT then
      Outcome(Some(ScheduleOverflow), c)
    else
      Outcome(None, c.(emptyRounds := c.emptyRounds + 1))
  }

  function Retargeted(c: Config, now: i64): Outcome {
    if !IsRetargetBoundary(c.blockHeight) then
      Outcome(None, c)
    else
      var actual := ElapsedSeconds(now, c.lastRetargetUnixTs);
      var d := c.(currentTarget := NextTarget(c.currentTarget, actual), lastRetargetUnixTs := now);
      if c.blockHeight + RETARGET_INTERVAL_BLOCKS >= U64_LIMIT then
        Outcome(Some(ScheduleOverflow), d)
      else
        Outcome(None, d.(nextRetargetBlock := c.blockHeight + RETARGET_INTERVAL_BLOCKS))
  }

  function Halved(c: Config): Outcome {
    if !IsHalvingBoundary(c.blockHeight) then
      Outcome(None, c)
    else
      var d := c.(epochReward := c.epochReward / 2);
      if c.blockHeight + HALVING_INTERVAL_BLOCKS >= U64_LIMIT then
        Outcome(Some(ScheduleOverflow), d)
      else
        Outcome(None, d.(nextHalvingBlock := c.blockHeight + HALVING_INTERVAL_BLOCKS))
  }

  function Scheduled(c: Config, now: i64): Outcome {
    var retargeted := Retargeted(c, now);
    if retargeted.failure.Some? then retargeted else Halved(retargeted.config)
  }

  /** `advance_round`, with the half-made changes it leaves behind when it fails. */
  function Advanced(crypto: Crypto, c: Config, clock: Clock, slotHashes: Option<seq<u8>>, transition: RoundTransition)
    : Outcome
  {
    var slotHash := ReadRecentSlotHash(slotHashes);
    if slotHash.Err? then
      Outcome(Some(slotHash.error), c)
    else if c.blockHeight + 1 >= U64_LIMIT then
      Outcome(Some(ScheduleOverflow), c)
    else
      var credited := Credited(Opened(crypto, c, clock, slotHash.value, transition), transition);
      if credited.failure.Some? then credited else Scheduled(credited.config, clock.unixTs)
  }

  method AdvanceRound(crypto: Crypto, cfg: EquiumConfig, clock: Clock, slotHashes: Option<seq<u8>>,
                      transition: RoundTransition)
    returns (failure: Option<EquiumError>, newHeight: u64)
    modifies cfg
    ensures Outcome(failure, cfg.Snapshot()) == Advanced(crypto, old(cfg.Snapshot()), clock, slotHashes, transition)
    ensures failure.None? ==> newHeight == cfg.blockHeight && SlotHashReadable(slotHashes)
    ensures failure.None? ==> cfg.currentChallenge == crypto.sha256(
              old(cfg.currentChallenge) + (if transition.Mined? then transition.winner else DEFAULT_PUBKEY)
              + slotHashes.value[16..48])
  {
    var slotHash := ReadRecentSlotHash(slotHashes);
    if slotHash.Err? {
      return Some(slotHash.error), 0;
    }
    if cfg.blockHeight + 1 >= U64_LIMIT {
      return Some(ScheduleOverflow), 0;
    }
    newHeight := cfg.blockHeight + 1;
    var newChallenge := NextChallenge(crypto, cfg.currentChallenge, WinnerKey(transition), slotHash.value);
    OpenRound(cfg, newHeight, newChallenge, clock);
    var credited := Credit(cfg, transition);
    if credited.Some? {
      return credited, newHeight;
    }
    failure := ApplySchedule(cfg, newHeight, clock.unixTs);
  }

  method OpenRound(cfg: EquiumConfig, newHeight: u64, newChallenge: Bytes32, clock: Clock)
    modifies cfg
    ensures cfg.Snapshot() == old(cfg.Snapshot()).(blockHeight := newHeight, currentChallenge := newChallenge,
                                                   roundOpenSlot := clock.slot, roundOpenUnixTs := clock.unixTs)
  {
    cfg.blockHeight := newHeight;
    cfg.currentChallenge := newChallenge;
    cfg.roundOpenSlot := clock.slot;
    cfg.roundOpenUnixTs := clock.unixTs;
  }

  method Credit(cfg: EquiumConfig, transition: RoundTransition) returns (failure: Option<EquiumError>)
    modifies cfg
    ensures Outcome(failure, cfg.Snapshot()) == Credited(old(cfg.Snapshot()), transition)
  {
    if transition.Mined? {
      cfg.lastWinner := transition.winner;
    } else {
      if cfg.emptyRounds + 1 >= U64_LIMIT {
        return Some(ScheduleOverflow);
      }
      cfg.emptyRounds := cfg.emptyRounds + 1;
    }
    return None;
  }

  method ApplySchedule(cfg: EquiumConfig, newHeight: u64, now: i64) returns (failure: Option<EquiumError>)
    requires newHeight == cfg.blockHeight
    modifies cfg
    ensures Outcome(failure, cfg.Snapshot()) == Scheduled(old(cfg.Snapshot()), now)
    ensures cfg.blockHeight == newHeight && cfg.currentChallenge == old(cfg.currentChallenge)
  {
    failure := ApplyRetarget(cfg, newHeight, now);
    if failure.Some? {
      return;
    }
    failure := ApplyHalving(cfg, newHeight);
  }

  method ApplyRetarget(cfg: EquiumConfig, newHeight: u64, now: i64) returns (failure: Option<EquiumError>)
    requires newHeight == cfg.blockHeight
    modifies cfg
    ensures Outcome(failure, cfg.Snapshot()) == Retargeted(old(cfg.Snapshot()), now)
  {
    if IsRetargetBoundary(newHeight) {
      var actual := ElapsedSeconds(now, cfg.lastRetargetUnixTs);
      cfg.currentTarget := NextTarget(cfg.currentTarget, actual);
      cfg.lastRetargetUnixTs := now;
      if newHeight + RETARGET_INTERVAL_BLOCKS >= U64_LIMIT {
        return Some(ScheduleOverflow);
      }
      cfg.nextRetargetBlock := newHeight + RETARGET_INTERVAL_BLOCKS;
    }
    return None;
  }

  method ApplyHalving(cfg: EquiumConfig, newHeight: u64) returns (failure: Option<EquiumError>)
    requires newHeight == cfg.blockHeight
    modifies cfg
    ensures Outcome(failure, cfg.Snapshot()) == Halved(old(cfg.Snapshot()))
  {
    if IsHalvingBoundary(newHeight) {
      cfg.epochReward := cfg.epochReward / 2;
      if newHeight + HALVING_INTERVAL_BLOCKS >= U64_LIMIT {
        return Some(ScheduleOverflow);
      }
      cfg.nextHalvingBlock := newHeight + HALVING_INTERVAL_BLOCKS;
    }
    return None;
  }
}
