/** Whole runs: what every reachable state of the program satisfies. */
module Runs {
  import opened Instructions
  import opened ProgramState
  import opened Retarget
  import opened Rounds
  import opened Schedule
  import opened ScheduleKept
  import opened Target
  import opened Transactions
  import opened Words

  // ---- Histories ---------------------------------------------------------------------------

  /** A state with a record, kept outside the program, of the transactions that led to it. */
  datatype History = History(
    state: State,
    fundings: nat,
    fundingSlot: nat,
    mines: nat,
    paid: nat,
    skipped: nat,
    donated: nat,
    retunings: nat,
    lastSlot: nat)

  /** Before `initialize`: no configuration, no vault, tokens wherever they happen to be. */
  function Start(holders: map<Pubkey, nat>): History {
    History(State(None, Tokens(0, holders)), 0, 0, 0, 0, 0, 0, 0, 0)
  }

  function Recorded(h: History, s: State, tx: Transaction): History {
    var k := h.(state := s);
    match tx.call
    case DoFundVault(_) => k.(fundings := h.fundings + 1, fundingSlot := tx.clock.slot)
    case DoMine(_, _, _) => k.(mines := h.mines + 1, paid := h.paid + Lost(h.state.tokens.vault, s.tokens.vault))
    case DoAdvanceEmptyRound => k.(skipped := h.skipped + Owed(h.state))
    case SendToVault(_, amount) => k.(donated := h.donated + amount)
    case DoSetTarget(_, _) => k.(retunings := h.retunings + 1)
    case DoInitialize(_, _, _) => k
    case DoRenounceAdmin(_) => k
  }

  function Lost(before: nat, after: nat): nat {
    if after < before then before - after else 0
  }

  /** The reward the schedule gives the block being mined. */
  function Owed(s: State): nat {
    if s.config.Some? then RewardAtHeight(s.config.value.blockHeight) else 0
  }

  function Next(d: Deployment, h: History, tx: Transaction): History {
    var step := Processed(d, h.state, tx);
    var k := if step.failure.None? then Recorded(h, step.state, tx) else h;
    k.(lastSlot := tx.clock.slot)
  }

  /** The history after `txs`, from `h`. */
  function Run(d: Deployment, h: History, txs: seq<Transaction>): History {
    if txs == [] then h else Next(d, Run(d, h, txs[..|txs| - 1]), txs[|txs| - 1])
  }

  ghost predicate Reachable(d: Deployment, h: History) {
    exists holders: map<Pubkey, nat>, txs: seq<Transaction> :: Run(d, Start(holders), txs) == h
  }

  // ---- The invariant -----------------------------------------------------------------------

  ghost predicate Balanced(h: History, c: Config) {
    && OnSchedule(c)
    && c.blockHeight == h.mines + c.emptyRounds
    && c.cumulativeMined == h.paid
    && h.paid + h.skipped == SumRewards(c.blockHeight)
    && h.fundings == (if c.miningOpen then 1 else 0)
    && (!c.miningOpen ==> c.blockHeight == 0)
    && h.state.tokens.vault + h.paid == h.donated + (if c.miningOpen then MINEABLE_BASE else 0)
    && (c.adminRenounced ==> c.admin == DEFAULT_PUBKEY)
  }

  ghost predicate Consistent(h: History) {
    match h.state.config
    case None => h == Start(h.state.tokens.balances).(lastSlot := h.lastSlot)
    case Some(c) => Balanced(h, c)
  }

  lemma BalancedSupply(h: History, c: Config)
    requires Balanced(h, c)
    ensures h.paid <= SumRewards(c.blockHeight) <= ALL_REWARDS
    ensures c.miningOpen ==> h.state.tokens.vault + h.paid >= MINEABLE_BASE
    ensures c.miningOpen ==> h.paid + c.epochReward <= ALL_REWARDS
  {
    RewardsAreBounded(c.blockHeight);
    RewardsAreBounded(c.blockHeight + 1);
    assert SumRewards(c.blockHeight + 1) == SumRewards(c.blockHeight) + RewardAtHeight(c.blockHeight);
  }

  // ---- Each step keeps it ------------------------------------------------------------------

  lemma MineKeeps(d: Deployment, h: History, tx: Transaction, c: Config)
    requires tx.call.DoMine? && h.state.config == Some(c) && Balanced(h, c)
    requires Processed(d, h.state, tx).failure.None?
    ensures Next(d, h, tx).state.config.Some? && Balanced(Next(d, h, tx), Next(d, h, tx).state.config.value)
  {
    var rewarded := Rewarded(c, h.state.tokens, tx.call.signer);
    AdvancesToNextRound(d.crypto, rewarded.config, tx.clock, tx.slotHashes, Mined(tx.call.signer));
    AdvanceKeepsSchedule(d.crypto, rewarded.config, tx.clock, tx.slotHashes.value[16..48], Mined(tx.call.signer));
    assert SumRewards(c.blockHeight + 1) == SumRewards(c.blockHeight) + RewardAtHeight(c.blockHeight);
  }

  lemma SkipKeeps(d: Deployment, h: History, tx: Transaction, c: Config)
    requires tx.call.DoAdvanceEmptyRound? && h.state.config == Some(c) && Balanced(h, c)
    requires Processed(d, h.state, tx).failure.None?
    ensures Next(d, h, tx).state.config.Some? && Balanced(Next(d, h, tx), Next(d, h, tx).state.config.value)
  {
    AdvancesToNextRound(d.crypto, c, tx.clock, tx.slotHashes, Empty);
    AdvanceKeepsSchedule(d.crypto, c, tx.clock, tx.slotHashes.value[16..48], Empty);
    assert SumRewards(c.blockHeight + 1) == SumRewards(c.blockHeight) + RewardAtHeight(c.blockHeight);
  }

  lemma OtherCallsKeep(d: Deployment, h: History, tx: Transaction, c: Config)
    requires !tx.call.DoMine? && !tx.call.DoAdvanceEmptyRound? && h.state.config == Some(c) && Balanced(h, c)
    ensures Next(d, h, tx).state.config.Some? && Balanced(Next(d, h, tx), Next(d, h, tx).state.config.value)
  {}

  lemma StepKeeps(d: Deployment, h: History, tx: Transaction)
    requires Consistent(h)
    ensures Consistent(Next(d, h, tx))
  {
    if h.state.config.None? {
      assert SumRewards(0) == 0;
    } else if Processed(d, h.state, tx).failure.None? {
      var c := h.state.config.value;
      match tx.call
      case DoMine(_, _, _) => MineKeeps(d, h, tx, c);
      case DoAdvanceEmptyRound => SkipKeeps(d, h, tx, c);
      case _ => OtherCallsKeep(d, h, tx, c);
    }
  }

  lemma {:induction false} RunKeeps(d: Deployment, h: History, txs: seq<Transaction>)
    requires Consistent(h)
    ensures Consistent(Run(d, h, txs))
  {
    if txs != [] {
      RunKeeps(d, h, txs[..|txs| - 1]);
      StepKeeps(d, Run(d, h, txs[..|txs| - 1]), txs[|txs| - 1]);
    }
  }

  lemma ReachableIsConsistent(d: Deployment, h: History)
    requires Reachable(d, h)
    ensures Consistent(h)
  {
    var holders: map<Pubkey, nat>, txs: seq<Transaction> :| Run(d, Start(holders), txs) == h;
    RunKeeps(d, Start(holders), txs);
  }
}
