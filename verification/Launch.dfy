/** The deployer's calls, outcome by outcome, and every run told from its two opening transactions. */
module Launch {
  import opened Chronicle
  import opened Drift
  import opened Instructions
  import opened ProgramState
  import opened Rounds
  import opened Runs
  import opened Schedule
  import opened ScheduleKept
  import opened Target
  import opened Transactions
  import opened Words

  // ---- The deployer's calls ----------------------------------------------------------------

  /** The configuration right after `initialize`. */
  ghost predicate FreshConfig(d: Deployment, c: Config, tx: Transaction)
    requires tx.call.DoInitialize?
  {
    && c.equihashN == tx.call.args.equihashN && c.equihashK == tx.call.args.equihashK
    && c.currentTarget == tx.call.args.initialTarget
    && c.admin == tx.call.signer == d.expectedAdmin && !c.adminRenounced && !c.miningOpen
    && c.genesisSlot == c.roundOpenSlot == tx.clock.slot
    && c.genesisUnixTs == c.roundOpenUnixTs == c.lastRetargetUnixTs == tx.clock.unixTs
    && c.currentChallenge == d.crypto.sha256(tx.call.mint + EightDigits(tx.clock.slot))
    && c.blockHeight == c.cumulativeMined == c.emptyRounds == 0
    && c.epochReward == 25_000_000 && c.nextHalvingBlock == 378_000 && c.nextRetargetBlock == 60
    && c.lastWinner == seq(32, _ => 0)
  }

  lemma {:induction false} ZeroBytes(n: nat)
    ensures ToBytes(0, n) == seq(n, _ => 0)
  {
    if n > 0 {
      ZeroBytes(n - 1);
      assert seq(n, _ => 0) == seq(n - 1, _ => 0) + [0];
    }
  }

  lemma InitializeOutcome(d: Deployment, s: State, tx: Transaction)
    requires tx.call.DoInitialize?
    ensures Processed(d, s, tx).failure
         == if tx.call.signer != d.expectedAdmin then Some(NotAdmin)
            else if s.config.Some? then Some(AccountInUse)
            else None
    ensures Processed(d, s, tx).failure.None? ==>
              && Processed(d, s, tx).state.config.Some?
              && FreshConfig(d, Processed(d, s, tx).state.config.value, tx)
              && Processed(d, s, tx).state.tokens == s.tokens
  {
    LittleEndianIsDigits(tx.clock.slot);
    ZeroBytes(32);
  }

  /** Funding moves 18.9 million tokens, anchors all three clocks at its own time and opens mining. */
  lemma FundOutcome(d: Deployment, s: State, c: Config, tx: Transaction)
    requires s.config == Some(c) && tx.call.DoFundVault?
    ensures Processed(d, s, tx).failure
         == if tx.call.signer != c.admin then Some(NotAdmin)
            else if c.miningOpen then Some(AlreadyOpen)
            else if s.tokens.Balance(tx.call.signer) < 18_900_000_000_000 then Some(InsufficientFunds)
            else None
    ensures Processed(d, s, tx).failure.None? ==>
              && Processed(d, s, tx).state.config
                 == Some(c.(miningOpen := true, roundOpenSlot := tx.clock.slot,
                            roundOpenUnixTs := tx.clock.unixTs, lastRetargetUnixTs := tx.clock.unixTs))
              && Processed(d, s, tx).state.tokens.vault == s.tokens.vault + 18_900_000_000_000
              && Moved(s.tokens, Processed(d, s, tx).state.tokens, tx.call.signer)
  {}

  lemma SetTargetOutcome(d: Deployment, s: State, c: Config, tx: Transaction)
    requires s.config == Some(c) && tx.call.DoSetTarget?
    ensures Processed(d, s, tx).failure
         == if tx.call.signer != c.admin then Some(NotAdmin)
            else if c.adminRenounced then Some(AdminRenounced)
            else None
    ensures Processed(d, s, tx).failure.None? ==>
              Processed(d, s, tx).state == State(Some(c.(currentTarget := tx.call.newTarget)), s.tokens)
  {}

  lemma RenounceOutcome(d: Deployment, s: State, c: Config, tx: Transaction)
    requires s.config == Some(c) && tx.call.DoRenounceAdmin?
    ensures Processed(d, s, tx).failure
         == if tx.call.signer != c.admin then Some(NotAdmin)
            else if c.adminRenounced then Some(AdminRenounced)
            else None
    ensures Processed(d, s, tx).failure.None? ==>
              Processed(d, s, tx).state == State(Some(c.(adminRenounced := true, admin := seq(32, _ => 0))), s.tokens)
  {
    ZeroBytes(32);
  }

  /** Before `initialize` nothing else is accepted. */
  lemma NothingBeforeInitialize(d: Deployment, s: State, tx: Transaction)
    requires s.config.None? && !tx.call.DoInitialize?
    ensures Processed(d, s, tx).failure == Some(AccountMissing)
  {}

  // ---- What no call ever changes -----------------------------------------------------------

  /** `n` has the puzzle parameters and the birth of `c`. */
  ghost predicate SamePuzzle(c: Config, n: Config) {
    && n.equihashN == c.equihashN && n.equihashK == c.equihashK
    && n.genesisSlot == c.genesisSlot && n.genesisUnixTs == c.genesisUnixTs
  }

  lemma StepKeepsPuzzle(d: Deployment, s: State, c: Config, tx: Transaction)
    requires s.config == Some(c)
    ensures Processed(d, s, tx).state.config.Some? && SamePuzzle(c, Processed(d, s, tx).state.config.value)
  {
    if tx.call.DoMine? {
      AdvancesToNextRound(d.crypto, Rewarded(c, s.tokens, tx.call.signer).config, tx.clock, tx.slotHashes,
                          Mined(tx.call.signer));
    } else if tx.call.DoAdvanceEmptyRound? {
      AdvancesToNextRound(d.crypto, c, tx.clock, tx.slotHashes, Empty);
    }
  }

  /** The Equihash parameters are locked by `initialize`. */
  lemma {:induction false} RunKeepsPuzzle(d: Deployment, h: History, c: Config, txs: seq<Transaction>)
    requires h.state.config == Some(c)
    ensures Run(d, h, txs).state.config.Some? && SamePuzzle(c, Run(d, h, txs).state.config.value)
  {
    if txs != [] {
      var init, tx := txs[..|txs| - 1], txs[|txs| - 1];
      RunKeepsPuzzle(d, h, c, init);
      StepKeepsPuzzle(d, Run(d, h, init).state, Run(d, h, init).state.config.value, tx);
      NextState(d, Run(d, h, init), tx);
    }
  }

  // ---- A whole run -------------------------------------------------------------------------

  lemma {:induction false} RunSplit(d: Deployment, h: History, a: seq<Transaction>, b: seq<Transaction>)
    ensures Run(d, h, a + b) == Run(d, Run(d, h, a), b)
  {
    if b == [] {
      assert a + b == a;
    } else {
      var init := b[..|b| - 1];
      RunSplit(d, h, a, init);
      assert (a + b)[..|a + b| - 1] == a + init;
    }
  }

  /** Transaction `i` is the accepted `initialize` of this run. */
  ghost predicate InitializedAt(d: Deployment, h: History, txs: seq<Transaction>, i: nat) {
    && i < |txs| && txs[i].call.DoInitialize?
    && Processed(d, Run(d, h, txs[..i]).state, txs[i]).failure.None?
  }

  /** Transaction `j` is the accepted `fund_vault` of this run. */
  ghost predicate FundedAt(d: Deployment, h: History, txs: seq<Transaction>, j: nat) {
    && j < |txs| && txs[j].call.DoFundVault?
    && Processed(d, Run(d, h, txs[..j]).state, txs[j]).failure.None?
  }

  /** Until it is funded, the configuration is the fresh one, but for the target and the admin. */
  ghost predicate Unopened(d: Deployment, c: Config, born: Transaction)
    requires born.call.DoInitialize?
  {
    FreshConfig(d, c.(currentTarget := born.call.args.initialTarget, admin := born.call.signer, adminRenounced := false), born)
    && (c.admin == if c.adminRenounced then DEFAULT_PUBKEY else d.expectedAdmin)
  }

  /** The configuration of an open program, from the two opening transactions and the rounds closed since. */
  ghost predicate ToldFrom(d: Deployment, c: Config, born: Transaction, funded: Transaction, rounds: seq<Round>)
    requires born.call.DoInitialize?
  {
    && c.equihashN == born.call.args.equihashN && c.equihashK == born.call.args.equihashK
    && c.genesisSlot == born.clock.slot && c.genesisUnixTs == born.clock.unixTs
    && c.currentChallenge == ChallengeAfter(d.crypto, d.crypto.sha256(born.call.mint + EightDigits(born.clock.slot)), rounds)
    && c.blockHeight == |rounds|
    && c.emptyRounds == Skipped(rounds)
    && c.cumulativeMined == Paid(0, rounds)
    && c.lastWinner == LastWinner(DEFAULT_PUBKEY, rounds)
    && c.lastRetargetUnixTs == LastBoundary(funded.clock.unixTs, 0, rounds)
    && c.roundOpenSlot == (if rounds == [] then funded.clock.slot else rounds[|rounds| - 1].clock.slot)
    && c.roundOpenUnixTs == (if rounds == [] then funded.clock.unixTs else rounds[|rounds| - 1].clock.unixTs)
  }

  lemma UnopenedStep(d: Deployment, s: State, c: Config, tx: Transaction, born: Transaction)
    requires born.call.DoInitialize? && s.config == Some(c) && Unopened(d, c, born)
    ensures Processed(d, s, tx).state.config.Some?
    ensures var n := Processed(d, s, tx).state.config.value;
      n.miningOpen || Unopened(d, n, born)
  {
    var n := Processed(d, s, tx).state.config.value;
    if tx.call.DoSetTarget? {
      SetTargetOutcome(d, s, c, tx);
    } else if tx.call.DoRenounceAdmin? {
      RenounceOutcome(d, s, c, tx);
      ZeroBytes(32);
    } else if tx.call.DoFundVault? {
      FundOutcome(d, s, c, tx);
    } else {
      assert n == c;
    }
  }

  lemma PrefixOfPrefix(txs: seq<Transaction>, n: nat, i: nat)
    requires i < n <= |txs|
    ensures txs[..n][..i] == txs[..i] && txs[..n][i] == txs[i]
  {}

  lemma RunStep(d: Deployment, h: History, txs: seq<Transaction>, n: nat)
    requires n < |txs|
    ensures Run(d, h, txs[..n + 1]) == Next(d, Run(d, h, txs[..n]), txs[n])
  {
    assert txs[..n + 1][..n] == txs[..n];
  }

  /** A configuration that is not open yet was born of one accepted `initialize`. */
  lemma {:induction false} BornRun(d: Deployment, h: History, txs: seq<Transaction>, n: nat) returns (i: nat)
    requires h.state.config.None? && n <= |txs|
    requires var s := Run(d, h, txs[..n]).state; s.config.Some? && !s.config.value.miningOpen
    ensures i < n && InitializedAt(d, h, txs, i) && Unopened(d, Run(d, h, txs[..n]).state.config.value, txs[i])
  {
    var before := Run(d, h, txs[..n - 1]);
    RunStep(d, h, txs, n - 1);
    NextState(d, before, txs[n - 1]);
    if before.state.config.None? {
      i := n - 1;
      if !txs[i].call.DoInitialize? {
        NothingBeforeInitialize(d, before.state, txs[i]);
      } else {
        InitializeOutcome(d, before.state, txs[i]);
      }
    } else {
      StaysOpen(d, before, before.state.config.value, txs[n - 1]);
      i := BornRun(d, h, txs, n - 1);
      UnopenedStep(d, before.state, before.state.config.value, txs[n - 1], txs[i]);
    }
  }

  lemma StaysOpen(d: Deployment, h: History, c: Config, tx: Transaction)
    requires h.state.config == Some(c)
    ensures Processed(d, h.state, tx).state.config.Some?
    ensures var n := Processed(d, h.state, tx).state.config.value;
      n.miningOpen <==> c.miningOpen || (tx.call.DoFundVault? && Processed(d, h.state, tx).failure.None?)
  {
    if Processed(d, h.state, tx).failure.None? {
      AcceptedCall(d, h, c, tx);
    }
  }

  lemma BornClosed(d: Deployment, s: State, tx: Transaction)
    ensures var n := Processed(d, s, tx).state.config;
      s.config.None? && n.Some? ==> !n.value.miningOpen
  {
    if s.config.None? {
      if tx.call.DoInitialize? {
        InitializeOutcome(d, s, tx);
      } else {
        NothingBeforeInitialize(d, s, tx);
      }
    }
  }

  /** An open program was opened by one accepted `fund_vault`. */
  lemma {:induction false} OpenedRun(d: Deployment, h: History, txs: seq<Transaction>, n: nat) returns (j: nat)
    requires h.state.config.None? && n <= |txs|
    requires var s := Run(d, h, txs[..n]).state; s.config.Some? && s.config.value.miningOpen
    ensures j < n && FundedAt(d, h, txs, j)
    ensures var s := Run(d, h, txs[..j]).state; s.config.Some? && !s.config.value.miningOpen
  {
    var before := Run(d, h, txs[..n - 1]);
    RunStep(d, h, txs, n - 1);
    NextState(d, before, txs[n - 1]);
    BornClosed(d, before.state, txs[n - 1]);
    StaysOpen(d, before, before.state.config.value, txs[n - 1]);
    if before.state.config.value.miningOpen {
      j := OpenedRun(d, h, txs, n - 1);
    } else {
      j := n - 1;
    }
  }

  /** The state just after funding is told from the two opening transactions and no rounds. */
  lemma ToldAtFunding(d: Deployment, s: State, c: Config, born: Transaction, funded: Transaction)
    requires born.call.DoInitialize? && funded.call.DoFundVault? && s.config == Some(c) && Unopened(d, c, born)
    requires Processed(d, s, funded).failure.None?
    ensures Processed(d, s, funded).state.config.Some?
    ensures var n := Processed(d, s, funded).state.config.value;
      n.miningOpen && ToldFrom(d, n, born, funded, [])
  {
    FundOutcome(d, s, c, funded);
    ZeroBytes(32);
  }

  lemma ToldOnwards(d: Deployment, c: Config, n: Config, born: Transaction, funded: Transaction, rounds: seq<Round>)
    requires born.call.DoInitialize? && ToldFrom(d, c, born, funded, [])
    requires SamePuzzle(c, n) && Retold(d.crypto, c, n, rounds)
    ensures ToldFrom(d, n, born, funded, rounds)
  {}

  /** The rounds closed after transaction `j` of a run. */
  ghost function RoundsSince(d: Deployment, h: History, txs: seq<Transaction>, j: nat): seq<Round>
    requires j < |txs|
  {
    Closed(d, Run(d, h, txs[..j + 1]), txs[j + 1..])
  }

  /**
   * Every run that ends with mining open: one accepted `initialize`, later one accepted `fund_vault`,
   * and the whole configuration follows from those two and the rounds closed since.
   */
  lemma WholeRun(d: Deployment, holders: map<Pubkey, nat>, txs: seq<Transaction>) returns (i: nat, j: nat)
    requires var s := Run(d, Start(holders), txs).state; s.config.Some? && s.config.value.miningOpen
    ensures i < j < |txs| && InitializedAt(d, Start(holders), txs, i) && FundedAt(d, Start(holders), txs, j)
    ensures ToldFrom(d, Run(d, Start(holders), txs).state.config.value, txs[i], txs[j],
                     RoundsSince(d, Start(holders), txs, j))
  {
    var h := Start(holders);
    assert txs[..|txs|] == txs;
    j := OpenedRun(d, h, txs, |txs|);
    i := BornRun(d, h, txs, j);
    var before, after := Run(d, h, txs[..j]), Run(d, h, txs[..j + 1]);
    ToldAtFunding(d, before.state, before.state.config.value, txs[i], txs[j]);
    RunStep(d, h, txs, j);
    NextState(d, before, txs[j]);
    RunKeeps(d, h, txs[..j + 1]);
    assert txs == txs[..j + 1] + txs[j + 1..];
    RunSplit(d, h, txs[..j + 1], txs[j + 1..]);
    RunRetold(d, after, after.state.config.value, txs[j + 1..]);
    RunKeepsPuzzle(d, after, after.state.config.value, txs[j + 1..]);
    ToldOnwards(d, after.state.config.value, Run(d, h, txs).state.config.value, txs[i], txs[j],
                RoundsSince(d, h, txs, j));
  }

  /** The admin is the one key `initialize` accepts, or nobody. */
  lemma {:induction false} AdminOfRun(d: Deployment, holders: map<Pubkey, nat>, txs: seq<Transaction>)
    ensures var s := Run(d, Start(holders), txs).state;
      s.config.Some? ==> s.config.value.admin == if s.config.value.adminRenounced then DEFAULT_PUBKEY else d.expectedAdmin
  {
    if txs != [] {
      var init, tx := txs[..|txs| - 1], txs[|txs| - 1];
      var before := Run(d, Start(holders), init);
      AdminOfRun(d, holders, init);
      NextState(d, before, tx);
      if before.state.config.None? {
        if tx.call.DoInitialize? {
          InitializeOutcome(d, before.state, tx);
        }
      } else if Processed(d, before.state, tx).failure.None? {
        AcceptedCall(d, before, before.state.config.value, tx);
      }
    }
  }
}
