/** The configuration retold from the rounds that were closed, and from nothing else. */
module Chronicle {
  import opened Drift
  import opened Instructions
  import opened ProgramState
  import opened Retarget
  import opened Rounds
  import opened Runs
  import opened Schedule
  import opened ScheduleKept
  import opened Target
  import opened Transactions
  import opened Words

  /** A closed round: who won it if anybody did, and what the runtime supplied when it closed. */
  datatype Round = Round(winner: Option<Pubkey>, slotHash: Bytes32, clock: Clock)

  ghost predicate ClosesRound(d: Deployment, s: State, tx: Transaction) {
    (tx.call.DoMine? || tx.call.DoAdvanceEmptyRound?) && Processed(d, s, tx).failure.None?
  }

  ghost function RoundOf(tx: Transaction): Round
    requires (tx.call.DoMine? || tx.call.DoAdvanceEmptyRound?) && SlotHashReadable(tx.slotHashes)
  {
    Round(if tx.call.DoMine? then Some(tx.call.signer) else None, tx.slotHashes.value[16..48], tx.clock)
  }

  /** The rounds closed by `txs` from `h`, oldest first. */
  ghost function Closed(d: Deployment, h: History, txs: seq<Transaction>): seq<Round> {
    if txs == [] then []
    else
      var init, tx := txs[..|txs| - 1], txs[|txs| - 1];
      if ClosesRound(d, Run(d, h, init).state, tx) && SlotHashReadable(tx.slotHashes) then
        Closed(d, h, init) + [RoundOf(tx)]
      else
        Closed(d, h, init)
  }

  /** Each challenge hashes the one before with the winner's key, all zero for a skipped round, and the slot hash. */
  ghost function ChallengeAfter(crypto: Crypto, first: Bytes32, rounds: seq<Round>): Bytes32 {
    if rounds == [] then first
    else
      var r := rounds[|rounds| - 1];
      crypto.sha256(ChallengeAfter(crypto, first, rounds[..|rounds| - 1])
                    + (if r.winner.Some? then r.winner.value else DEFAULT_PUBKEY) + r.slotHash)
  }

  /** The most recent winner; skipped rounds do not count. */
  ghost function LastWinner(first: Pubkey, rounds: seq<Round>): Pubkey {
    if rounds == [] then first
    else if rounds[|rounds| - 1].winner.Some? then rounds[|rounds| - 1].winner.value
    else LastWinner(first, rounds[..|rounds| - 1])
  }

  ghost function Skipped(rounds: seq<Round>): nat {
    if rounds == [] then 0
    else Skipped(rounds[..|rounds| - 1]) + if rounds[|rounds| - 1].winner.None? then 1 else 0
  }

  /** What the winners were paid, the first round being that of block `height`. */
  ghost function Paid(height: nat, rounds: seq<Round>): nat {
    if rounds == [] then 0
    else
      Paid(height, rounds[..|rounds| - 1])
      + if rounds[|rounds| - 1].winner.Some? then RewardAtHeight(height + |rounds| - 1) else 0
  }

  /** The time of the last closing that reached a multiple of 60. */
  ghost function LastBoundary(first: i64, height: nat, rounds: seq<Round>): i64 {
    if rounds == [] then first
    else if (height + |rounds|) % 60 == 0 then rounds[|rounds| - 1].clock.unixTs
    else LastBoundary(first, height, rounds[..|rounds| - 1])
  }

  /** `n` is `c` after `rounds`. */
  ghost predicate Retold(crypto: Crypto, c: Config, n: Config, rounds: seq<Round>) {
    && RetoldRounds(crypto, c, n, rounds)
    && n.cumulativeMined == c.cumulativeMined + Paid(c.blockHeight, rounds)
    && n.lastRetargetUnixTs == LastBoundary(c.lastRetargetUnixTs, c.blockHeight, rounds)
  }

  ghost predicate RetoldRounds(crypto: Crypto, c: Config, n: Config, rounds: seq<Round>) {
    && n.blockHeight == c.blockHeight + |rounds|
    && n.currentChallenge == ChallengeAfter(crypto, c.currentChallenge, rounds)
    && n.lastWinner == LastWinner(c.lastWinner, rounds)
    && n.emptyRounds == c.emptyRounds + Skipped(rounds)
    && n.roundOpenSlot == (if rounds == [] then c.roundOpenSlot else rounds[|rounds| - 1].clock.slot)
    && n.roundOpenUnixTs == (if rounds == [] then c.roundOpenUnixTs else rounds[|rounds| - 1].clock.unixTs)
  }

  /** `n` is the round after `m`, closed by `r`. */
  ghost predicate Follows(crypto: Crypto, m: Config, n: Config, r: Round) {
    && HeightFits(m.blockHeight + 1) && m.emptyRounds + 1 < U64_LIMIT
    && var paid := if r.winner.Some? then m.epochReward else 0;
    && m.epochReward == RewardAtHeight(m.blockHeight) && m.cumulativeMined + paid < U64_LIMIT
    && n == NextRound(crypto, m.(cumulativeMined := m.cumulativeMined + paid), r.clock, r.slotHash,
                      if r.winner.Some? then Mined(r.winner.value) else Empty)
  }

  lemma RoundsOneMore(crypto: Crypto, c: Config, m: Config, n: Config, rounds: seq<Round>, r: Round)
    requires RetoldRounds(crypto, c, m, rounds) && Follows(crypto, m, n, r)
    ensures RetoldRounds(crypto, c, n, rounds + [r])
  {
    assert (rounds + [r])[..|rounds|] == rounds;
  }

  lemma RetoldOneMore(crypto: Crypto, c: Config, m: Config, n: Config, rounds: seq<Round>, r: Round)
    requires Retold(crypto, c, m, rounds) && Follows(crypto, m, n, r)
    ensures Retold(crypto, c, n, rounds + [r])
  {
    RoundsOneMore(crypto, c, m, n, rounds, r);
    assert (rounds + [r])[..|rounds|] == rounds;
  }

  lemma NextState(d: Deployment, h: History, tx: Transaction)
    ensures Next(d, h, tx).state == Processed(d, h.state, tx).state
  {}

  /** A call that closes no round changes none of these fields once mining is open. */
  lemma OtherCallsRetell(d: Deployment, s: State, c: Config, m: Config, tx: Transaction, rounds: seq<Round>)
    requires s.config == Some(m) && m.miningOpen && !ClosesRound(d, s, tx) && Retold(d.crypto, c, m, rounds)
    ensures var n := Processed(d, s, tx).state.config;
      n.Some? && n.value.miningOpen && Retold(d.crypto, c, n.value, rounds)
  {
    var n := Processed(d, s, tx).state.config.value;
    assert n == m.(currentTarget := n.currentTarget, admin := n.admin, adminRenounced := n.adminRenounced);
  }

  lemma MineFollows(d: Deployment, h: History, m: Config, tx: Transaction)
    requires Consistent(h) && h.state.config == Some(m) && tx.call.DoMine? && ClosesRound(d, h.state, tx)
    ensures SlotHashReadable(tx.slotHashes) && Processed(d, h.state, tx).state.config.Some?
    ensures Follows(d.crypto, m, Processed(d, h.state, tx).state.config.value, RoundOf(tx))
  {
    AdvancesToNextRound(d.crypto, Rewarded(m, h.state.tokens, tx.call.signer).config, tx.clock, tx.slotHashes,
                        Mined(tx.call.signer));
  }

  lemma SkipFollows(d: Deployment, h: History, m: Config, tx: Transaction)
    requires Consistent(h) && h.state.config == Some(m) && tx.call.DoAdvanceEmptyRound? && ClosesRound(d, h.state, tx)
    ensures SlotHashReadable(tx.slotHashes) && Processed(d, h.state, tx).state.config.Some?
    ensures Follows(d.crypto, m, Processed(d, h.state, tx).state.config.value, RoundOf(tx))
  {
    AdvancesToNextRound(d.crypto, m, tx.clock, tx.slotHashes, Empty);
  }

  lemma ClosingFollows(d: Deployment, h: History, m: Config, tx: Transaction)
    requires Consistent(h) && h.state.config == Some(m) && ClosesRound(d, h.state, tx)
    ensures SlotHashReadable(tx.slotHashes) && Processed(d, h.state, tx).state.config.Some?
    ensures Follows(d.crypto, m, Processed(d, h.state, tx).state.config.value, RoundOf(tx))
  {
    if tx.call.DoMine? {
      MineFollows(d, h, m, tx);
    } else {
      SkipFollows(d, h, m, tx);
    }
  }

  /**
   * Once mining is open, height, challenge, last winner, counters and timing are what the closed
   * rounds make them: no other call, and no failed one, leaves a trace in them.
   */
  lemma {:induction false} RunRetold(d: Deployment, h: History, c: Config, txs: seq<Transaction>)
    requires Consistent(h) && h.state.config == Some(c) && c.miningOpen
    ensures Run(d, h, txs).state.config.Some? && Run(d, h, txs).state.config.value.miningOpen
    ensures Retold(d.crypto, c, Run(d, h, txs).state.config.value, Closed(d, h, txs))
  {
    if txs != [] {
      var init, tx := txs[..|txs| - 1], txs[|txs| - 1];
      var before := Run(d, h, init);
      RunRetold(d, h, c, init);
      RunKeeps(d, h, init);
      NextState(d, before, tx);
      if ClosesRound(d, before.state, tx) {
        ClosingFollows(d, before, before.state.config.value, tx);
        RetoldOneMore(d.crypto, c, before.state.config.value, Processed(d, before.state, tx).state.config.value,
                      Closed(d, h, init), RoundOf(tx));
        AcceptedCall(d, before, before.state.config.value, tx);
      } else {
        OtherCallsRetell(d, before.state, c, before.state.config.value, tx, Closed(d, h, init));
      }
    }
  }

  // ---- The target --------------------------------------------------------------------------

  /** The target's number after `rounds`: at each multiple of 60, scaled by the clamped time since the last one. */
  ghost function TargetAfterRounds(first: nat, anchor: i64, height: nat, rounds: seq<Round>): nat {
    if rounds == [] then first
    else
      var before, last := rounds[..|rounds| - 1], rounds[|rounds| - 1];
      var target := TargetAfterRounds(first, anchor, height, before);
      if (height + |rounds|) % 60 == 0 then
        var elapsed := last.clock.unixTs - LastBoundary(anchor, height, before);
        Min(MAX_TARGET, target * Clamped(if elapsed < 0 then 0 else elapsed) / 3600)
      else
        target
  }

  lemma TargetOneMore(crypto: Crypto, c: Config, m: Config, n: Config, rounds: seq<Round>, r: Round)
    requires Retold(crypto, c, m, rounds) && Follows(crypto, m, n, r)
    requires ToNat(m.currentTarget) == TargetAfterRounds(ToNat(c.currentTarget), c.lastRetargetUnixTs, c.blockHeight, rounds)
    ensures ToNat(n.currentTarget)
         == TargetAfterRounds(ToNat(c.currentTarget), c.lastRetargetUnixTs, c.blockHeight, rounds + [r])
  {
    assert (rounds + [r])[..|rounds|] == rounds;
    NextTargetValue(m.currentTarget, ElapsedSeconds(r.clock.unixTs, m.lastRetargetUnixTs));
  }

  /** Unless the admin sets it, the target is what the closed rounds and their times make it. */
  lemma {:induction false} TargetRetold(d: Deployment, h: History, c: Config, txs: seq<Transaction>)
    requires Consistent(h) && h.state.config == Some(c) && c.miningOpen
    ensures var k := Run(d, h, txs);
      && k.state.config.Some? && k.retunings >= h.retunings
      && (k.retunings == h.retunings ==>
            ToNat(k.state.config.value.currentTarget)
            == TargetAfterRounds(ToNat(c.currentTarget), c.lastRetargetUnixTs, c.blockHeight, Closed(d, h, txs)))
  {
    if txs != [] {
      var init, tx := txs[..|txs| - 1], txs[|txs| - 1];
      var before := Run(d, h, init);
      TargetRetold(d, h, c, init);
      RunRetold(d, h, c, init);
      RunKeeps(d, h, init);
      NextState(d, before, tx);
      if ClosesRound(d, before.state, tx) {
        ClosingFollows(d, before, before.state.config.value, tx);
        if before.retunings == h.retunings {
          TargetOneMore(d.crypto, c, before.state.config.value, Processed(d, before.state, tx).state.config.value,
                        Closed(d, h, init), RoundOf(tx));
        }
      } else if Processed(d, before.state, tx).failure.None? {
        AcceptedCall(d, before, before.state.config.value, tx);
      }
    }
  }
}
