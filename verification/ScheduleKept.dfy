/** What one round transition does to the schedule, and exactly when it goes through. */
module ScheduleKept {
  import opened ProgramState
  import opened Retarget
  import opened Rounds
  import opened Schedule
  import opened Target
  import opened Words

  /** The incrementally kept schedule fields agree with the closed forms of the height. */
  ghost predicate OnSchedule(c: Config) {
    && c.epochReward == RewardAtHeight(c.blockHeight)
    && c.nextHalvingBlock == (c.blockHeight / HALVING_INTERVAL_BLOCKS + 1) * HALVING_INTERVAL_BLOCKS
    && c.nextRetargetBlock == (c.blockHeight / RETARGET_INTERVAL_BLOCKS + 1) * RETARGET_INTERVAL_BLOCKS
  }

  /** The next height, and the boundaries it announces if it is one itself, fit in 64 bits. */
  ghost predicate HeightFits(height: nat) {
    && height < U64_LIMIT
    && (IsRetargetBoundary(height) ==> height + RETARGET_INTERVAL_BLOCKS < U64_LIMIT)
    && (IsHalvingBoundary(height) ==> height + HALVING_INTERVAL_BLOCKS < U64_LIMIT)
  }

  /** A retarget happens at the multiples of 60 and nowhere else, on the time since the previous one. */
  function TargetAfter(c: Config, clock: Clock): Bytes32 {
    if IsRetargetBoundary(c.blockHeight + 1) then
      NextTarget(c.currentTarget, ElapsedSeconds(clock.unixTs, c.lastRetargetUnixTs))
    else
      c.currentTarget
  }

  /** The new round in one expression: every field not named here is left alone. */
  ghost function NextRound(crypto: Crypto, c: Config, clock: Clock, slotHash: Bytes32, tr: RoundTransition): Config
    requires HeightFits(c.blockHeight + 1) && (tr.Empty? ==> c.emptyRounds + 1 < U64_LIMIT)
  {
    var h := c.blockHeight + 1;
    c.(blockHeight := h,
       currentChallenge := crypto.sha256(c.currentChallenge + (if tr.Mined? then tr.winner else DEFAULT_PUBKEY) + slotHash),
       roundOpenSlot := clock.slot,
       roundOpenUnixTs := clock.unixTs,
       lastWinner := if tr.Mined? then tr.winner else c.lastWinner,
       emptyRounds := if tr.Empty? then c.emptyRounds + 1 else c.emptyRounds,
       currentTarget := TargetAfter(c, clock),
       lastRetargetUnixTs := if IsRetargetBoundary(h) then clock.unixTs else c.lastRetargetUnixTs,
       nextRetargetBlock := if IsRetargetBoundary(h) then h + RETARGET_INTERVAL_BLOCKS else c.nextRetargetBlock,
       epochReward := if IsHalvingBoundary(h) then c.epochReward / 2 else c.epochReward,
       nextHalvingBlock := if IsHalvingBoundary(h) then h + HALVING_INTERVAL_BLOCKS else c.nextHalvingBlock)
  }

  /** A transition goes through exactly when its inputs fit, and then gives this round. */
  lemma AdvancesToNextRound(crypto: Crypto, c: Config, clock: Clock, slotHashes: Option<seq<u8>>, tr: RoundTransition)
    ensures var o := Advanced(crypto, c, clock, slotHashes, tr);
      && (o.failure.None? <==> && SlotHashReadable(slotHashes)
                               && HeightFits(c.blockHeight + 1)
                               && (tr.Empty? ==> c.emptyRounds + 1 < U64_LIMIT))
      && (o.failure.None? ==> o.config == NextRound(crypto, c, clock, slotHashes.value[16..48], tr))
  {
    if SlotHashReadable(slotHashes) && c.blockHeight + 1 < U64_LIMIT {
      var credited := Credited(Opened(crypto, c, clock, ReadRecentSlotHash(slotHashes).value, tr), tr);
      if credited.failure.None? {
        SchedulesBoundaries(credited.config, clock.unixTs);
      }
    }
  }

  /** An unreadable slot hash is reported before anything that does not fit. */
  lemma AdvanceErrors(crypto: Crypto, c: Config, clock: Clock, slotHashes: Option<seq<u8>>, tr: RoundTransition)
    ensures var failure := Advanced(crypto, c, clock, slotHashes, tr).failure;
      failure.Some? ==> failure == Some(if SlotHashReadable(slotHashes) then ScheduleOverflow else BadSlotHashes)
  {}

  lemma SchedulesBoundaries(c: Config, now: i64)
    ensures var o, h := Scheduled(c, now), c.blockHeight;
      && (o.failure.None? <==> HeightFits(h))
      && (o.failure.None? ==> o.config == c.(
           currentTarget := if IsRetargetBoundary(h) then NextTarget(c.currentTarget, ElapsedSeconds(now, c.lastRetargetUnixTs))
                            else c.currentTarget,
           lastRetargetUnixTs := if IsRetargetBoundary(h) then now else c.lastRetargetUnixTs,
           nextRetargetBlock := if IsRetargetBoundary(h) then h + RETARGET_INTERVAL_BLOCKS else c.nextRetargetBlock,
           epochReward := if IsHalvingBoundary(h) then c.epochReward / 2 else c.epochReward,
           nextHalvingBlock := if IsHalvingBoundary(h) then h + HALVING_INTERVAL_BLOCKS else c.nextHalvingBlock))
  {}

  /** Shifting the reward and moving the two marks at the boundaries keeps all three in closed form. */
  lemma AdvanceKeepsSchedule(crypto: Crypto, c: Config, clock: Clock, slotHash: Bytes32, tr: RoundTransition)
    requires HeightFits(c.blockHeight + 1) && (tr.Empty? ==> c.emptyRounds + 1 < U64_LIMIT)
    requires OnSchedule(c)
    ensures OnSchedule(NextRound(crypto, c, clock, slotHash, tr))
  {
    RewardAdvances(c.blockHeight);
    NextMark(c.blockHeight, HALVING_INTERVAL_BLOCKS);
    NextMark(c.blockHeight, RETARGET_INTERVAL_BLOCKS);
  }

  /** The next multiple of `interval` moves on exactly when a multiple is reached. */
  lemma NextMark(height: nat, interval: nat)
    requires interval > 0
    ensures ((height + 1) / interval + 1) * interval
         == if (height + 1) % interval == 0 then height + 1 + interval else (height / interval + 1) * interval
  {
    var q, r := height / interval, height % interval;
    assert height == q * interval + r;
    if r + 1 == interval {
      assert (q + 1) * interval == q * interval + interval;
      assert (q + 2) * interval == (q + 1) * interval + interval;
      DivUnique(height + 1, interval, q + 1, 0);
    } else {
      DivUnique(height + 1, interval, q, r + 1);
    }
  }

  /** A transition that fails late has already changed the copy it was working on. */
  lemma FailureLeavesAChangedCopy(crypto: Crypto, c: Config, clock: Clock, slotHashes: Option<seq<u8>>, tr: RoundTransition)
    requires SlotHashReadable(slotHashes) && c.blockHeight + 1 < U64_LIMIT
    requires Advanced(crypto, c, clock, slotHashes, tr).failure.Some?
    ensures Advanced(crypto, c, clock, slotHashes, tr).failure == Some(ScheduleOverflow)
    ensures Advanced(crypto, c, clock, slotHashes, tr).config != c
  {
    assert Advanced(crypto, c, clock, slotHashes, tr).config.blockHeight == c.blockHeight + 1;
  }
}
