/** What cannot be undone over a run, and how far the target can move. */
module Drift {
  import opened Instructions
  import opened ProgramState
  import opened Retarget
  import opened Rounds
  import opened Runs
  import opened Schedule
  import opened ScheduleKept
  import opened Target
  import opened Transactions
  import opened Words

  // ---- One accepted call -------------------------------------------------------------------

  /** What an accepted call can do to an initialized program's height, target and one-way flags. */
  lemma AcceptedCall(d: Deployment, h: History, c: Config, tx: Transaction)
    requires h.state.config == Some(c) && Processed(d, h.state, tx).failure.None?
    ensures Processed(d, h.state, tx).state.config.Some?
    ensures var n := Processed(d, h.state, tx).state.config.value;
      && n.blockHeight == (if tx.call.DoMine? || tx.call.DoAdvanceEmptyRound? then c.blockHeight + 1 else c.blockHeight)
      && n.currentTarget == (if tx.call.DoSetTarget? then tx.call.newTarget
                             else if tx.call.DoMine? || tx.call.DoAdvanceEmptyRound? then TargetAfter(c, tx.clock)
                             else c.currentTarget)
      && (tx.call.DoSetTarget? ==> !c.adminRenounced && tx.call.signer == c.admin)
      && n.adminRenounced == (c.adminRenounced || tx.call.DoRenounceAdmin?)
      && n.admin == (if tx.call.DoRenounceAdmin? then DEFAULT_PUBKEY else c.admin)
      && n.miningOpen == (c.miningOpen || tx.call.DoFundVault?)
      && (tx.call.DoFundVault? ==> !c.miningOpen && tx.call.signer == c.admin)
      && (tx.call.DoRenounceAdmin? ==> !c.adminRenounced && tx.call.signer == c.admin)
  {
    match tx.call
    case DoMine(signer, _, _) =>
      AdvancesToNextRound(d.crypto, Rewarded(c, h.state.tokens, signer).config, tx.clock, tx.slotHashes, Mined(signer));
    case DoAdvanceEmptyRound =>
      AdvancesToNextRound(d.crypto, c, tx.clock, tx.slotHashes, Empty);
    case _ =>
  }

  /** After the admin key is given up, the target moves only on reaching a multiple of 60 blocks. */
  lemma RenouncedTargetMovesAtBoundaries(d: Deployment, h: History, c: Config, tx: Transaction)
    requires h.state.config == Some(c) && c.adminRenounced
    ensures Processed(d, h.state, tx).state.config.Some?
    ensures var n := Processed(d, h.state, tx).state.config.value;
      n.currentTarget != c.currentTarget ==> n.blockHeight == c.blockHeight + 1 && n.blockHeight % 60 == 0
  {
    if Processed(d, h.state, tx).failure.None? {
      AcceptedCall(d, h, c, tx);
    }
  }

  // ---- One-way changes over runs -----------------------------------------------------------

  ghost predicate NoneSignedBy(txs: seq<Transaction>, key: Pubkey) {
    forall i :: 0 <= i < |txs| ==> txs[i].call.DoAdvanceEmptyRound? || txs[i].call.signer != key
  }

  /** Funding happens at most once, and mining is open from then on. */
  lemma FundedOnce(d: Deployment, h: History)
    requires Reachable(d, h)
    ensures h.fundings <= 1
    ensures h.fundings == 1 <==> h.state.config.Some? && h.state.config.value.miningOpen
  {
    ReachableIsConsistent(d, h);
  }

  /** Giving up the admin key is final, and so is every target set before. */
  lemma {:induction false} RenouncedForever(d: Deployment, h: History, c: Config, txs: seq<Transaction>)
    requires h.state.config == Some(c) && c.adminRenounced && c.admin == DEFAULT_PUBKEY
    ensures var k := Run(d, h, txs);
      && k.state.config.Some?
      && k.state.config.value.adminRenounced && k.state.config.value.admin == DEFAULT_PUBKEY
      && k.retunings == h.retunings
  {
    if txs != [] {
      var before := Run(d, h, txs[..|txs| - 1]);
      RenouncedForever(d, h, c, txs[..|txs| - 1]);
      if Processed(d, before.state, txs[|txs| - 1]).failure.None? {
        AcceptedCall(d, before, before.state.config.value, txs[|txs| - 1]);
      }
    }
  }

  /** Giving it up before funding closes mining for good: nobody can sign for the default key. */
  lemma {:induction false} RenouncedUnfunded(d: Deployment, h: History, c: Config, txs: seq<Transaction>)
    requires h.state.config == Some(c) && c.adminRenounced && c.admin == DEFAULT_PUBKEY && !c.miningOpen
    requires NoneSignedBy(txs, DEFAULT_PUBKEY)
    ensures var k := Run(d, h, txs);
      k.state.config.Some? && !k.state.config.value.miningOpen && k.mines == h.mines
  {
    if txs != [] {
      var init, tx := txs[..|txs| - 1], txs[|txs| - 1];
      assert NoneSignedBy(init, DEFAULT_PUBKEY);
      var before := Run(d, h, init);
      RenouncedUnfunded(d, h, c, init);
      RenouncedForever(d, h, c, init);
      if Processed(d, before.state, tx).failure.None? {
        AcceptedCall(d, before, before.state.config.value, tx);
      }
    }
  }

  /** From height 9,450,000 on no block is ever mined again and nothing more leaves the vault. */
  lemma {:induction false} RewardsEnd(d: Deployment, h: History, c: Config, txs: seq<Transaction>)
    requires Consistent(h) && h.state.config == Some(c) && c.blockHeight >= 9_450_000
    ensures var k := Run(d, h, txs);
      && k.state.config.Some? && k.state.config.value.blockHeight >= c.blockHeight
      && k.mines == h.mines && k.paid == h.paid
  {
    if txs != [] {
      var before := Run(d, h, txs[..|txs| - 1]);
      RewardsEnd(d, h, c, txs[..|txs| - 1]);
      RunKeeps(d, h, txs[..|txs| - 1]);
      RewardEnds(before.state.config.value.blockHeight);
      if Processed(d, before.state, txs[|txs| - 1]).failure.None? {
        AcceptedCall(d, before, before.state.config.value, txs[|txs| - 1]);
      }
    }
  }

  // ---- The target over runs ----------------------------------------------------------------

  /** One retarget for each multiple of 60 passed, each by at most a factor of two. */
  ghost predicate Drifted(from: Config, to: Config) {
    && from.blockHeight <= to.blockHeight
    && WithinDrift(ToNat(from.currentTarget), ToNat(to.currentTarget), to.blockHeight / 60 - from.blockHeight / 60)
  }

  /** Between two states with no accepted `set_target` in between the target has only drifted. */
  lemma {:induction false} TargetDrift(d: Deployment, h: History, c: Config, txs: seq<Transaction>)
    requires h.state.config == Some(c)
    ensures var k := Run(d, h, txs);
      && k.retunings >= h.retunings && k.state.config.Some?
      && (k.retunings == h.retunings ==> Drifted(c, k.state.config.value))
  {
    if txs == [] {
      NoDrift(c.currentTarget);
    } else {
      var init, tx := txs[..|txs| - 1], txs[|txs| - 1];
      var before := Run(d, h, init);
      TargetDrift(d, h, c, init);
      if Processed(d, before.state, tx).failure.None? {
        AcceptedCall(d, before, before.state.config.value, tx);
        if before.retunings == h.retunings && !tx.call.DoSetTarget? {
          StepDrift(d, c, before, before.state.config.value, tx);
        }
      }
    }
  }

  lemma StepDrift(d: Deployment, c: Config, h: History, m: Config, tx: Transaction)
    requires h.state.config == Some(m) && Drifted(c, m)
    requires Processed(d, h.state, tx).failure.None? && !tx.call.DoSetTarget?
    ensures Processed(d, h.state, tx).state.config.Some?
    ensures Drifted(c, Processed(d, h.state, tx).state.config.value)
  {
    AcceptedCall(d, h, m, tx);
    RoundDrift(c, m, Processed(d, h.state, tx).state.config.value, tx.clock);
  }

  lemma RoundDrift(c: Config, m: Config, n: Config, clock: Clock)
    requires Drifted(c, m)
    requires || (n.blockHeight == m.blockHeight && n.currentTarget == m.currentTarget)
             || (n.blockHeight == m.blockHeight + 1 && n.currentTarget == TargetAfter(m, clock))
    ensures Drifted(c, n)
  {
    if n.blockHeight == m.blockHeight + 1 && IsRetargetBoundary(n.blockHeight) {
      assert n.blockHeight / 60 == m.blockHeight / 60 + 1;
      DriftGrows(ToNat(c.currentTarget), m.currentTarget, ElapsedSeconds(clock.unixTs, m.lastRetargetUnixTs),
                 m.blockHeight / 60 - c.blockHeight / 60);
    } else if n.blockHeight == m.blockHeight + 1 {
      assert n.blockHeight / 60 == m.blockHeight / 60;
    }
  }

  /** A target that has reached zero stays there, and no block is mined under it. */
  lemma {:induction false} ZeroTargetStays(d: Deployment, h: History, c: Config, txs: seq<Transaction>)
    requires h.state.config == Some(c) && ToNat(c.currentTarget) == 0
    ensures var k := Run(d, h, txs);
      k.retunings == h.retunings ==>
        k.state.config.Some? && ToNat(k.state.config.value.currentTarget) == 0 && k.mines == h.mines
  {
    TargetDrift(d, h, c, txs);
    if txs != [] {
      var init, tx := txs[..|txs| - 1], txs[|txs| - 1];
      ZeroTargetStays(d, h, c, init);
      TargetDrift(d, h, c, init);
      if tx.call.DoMine? {
        ZeroTargetAcceptsNothing(Run(d, h, init).state.config.value.currentTarget);
      }
    }
  }
}
