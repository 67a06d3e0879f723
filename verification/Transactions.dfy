/** Transactions: a handler runs on copies, which are kept when it succeeds and dropped when it fails. */
module Transactions {
  import opened Instructions
  import opened ProgramState
  import opened Rounds
  import opened Target
  import opened Words

  datatype Call =
    | DoInitialize(signer: Pubkey, mint: Pubkey, args: InitializeArgs)
    | DoFundVault(signer: Pubkey)
    | DoMine(signer: Pubkey, nonce: Bytes32, solution: seq<u8>)
    | DoAdvanceEmptyRound
    | DoSetTarget(signer: Pubkey, newTarget: Bytes32)
    | DoRenounceAdmin(signer: Pubkey)
    | SendToVault(signer: Pubkey, amount: nat)

  /** A call together with what the runtime supplies: the clock and the slot-hashes account. */
  datatype Transaction = Transaction(call: Call, clock: Clock, slotHashes: Option<seq<u8>>)

  /** The deployment: its hashes and the one key `initialize` accepts. */
  datatype Deployment = Deployment(crypto: Crypto, expectedAdmin: Pubkey)

  datatype State = State(config: Option<Config>, tokens: Tokens)

  datatype Step = Step(failure: Option<EquiumError>, state: State)

  function Initialized(d: Deployment, s: State, call: Call, clock: Clock): Step
    requires call.DoInitialize?
  {
    if call.signer != d.expectedAdmin then
      Step(Some(NotAdmin), s)
    else if s.config.Some? then
      Step(Some(AccountInUse), s)
    else
      Step(None, s.(config := Some(InitialConfig(d.crypto, call.signer, call.mint, call.args, clock))))
  }

  /** The handler's effect on the accounts of an initialized program, success or not. */
  function Executed(d: Deployment, c: Config, t: Tokens, tx: Transaction): Effect
    requires !tx.call.DoInitialize?
  {
    match tx.call
    case DoFundVault(signer) => Funded(c, t, signer, tx.clock)
    case DoMine(signer, nonce, solution) =>
      MinedBlock(d.crypto, c, t, signer, nonce, solution, tx.clock, tx.slotHashes)
    case DoAdvanceEmptyRound => OnConfig(SkippedRound(d.crypto, c, tx.clock, tx.slotHashes), t)
    case DoSetTarget(signer, newTarget) => OnConfig(Retuned(c, signer, newTarget), t)
    case DoRenounceAdmin(signer) => OnConfig(Renounced(c, signer), t)
    case SendToVault(signer, amount) =>
      if amount > t.Balance(signer) then Effect(Some(InsufficientFunds), c, t)
      else Effect(None, c, PaidIn(t, signer, amount))
  }

  function OnConfig(o: Outcome, t: Tokens): Effect {
    Effect(o.failure, o.config, t)
  }

  function Processed(d: Deployment, s: State, tx: Transaction): (step: Step)
    ensures step.failure.Some? ==> step.state == s
  {
    if tx.call.DoInitialize? then
      Initialized(d, s, tx.call, tx.clock)
    else if s.config.None? then
      Step(Some(AccountMissing), s)
    else
      var effect := Executed(d, s.config.value, s.tokens, tx);
      Step(effect.failure, if effect.failure.None? then State(Some(effect.config), effect.tokens) else s)
  }

  /** The accounts as the runtime stores them. */
  class Accounts {
    var config: Option<Config>
    var tokens: Tokens

    function Current(): State
      reads this
    {
      State(config, tokens)
    }

    constructor (holders: map<Pubkey, nat>)
      ensures Current() == State(None, Tokens(0, holders))
    {
      config, tokens := None, Tokens(0, holders);
    }

    method Process(d: Deployment, tx: Transaction) returns (failure: Option<EquiumError>)
      modifies this
      ensures Step(failure, Current()) == Processed(d, old(Current()), tx)
    {
      if tx.call.DoInitialize? {
        failure := ProcessInitialize(d, tx.call, tx.clock);
        return;
      }
      if config.None? {
        return Some(AccountMissing);
      }
      var cfg := new EquiumConfig(config.value);
      var ledger := new TokenLedger(tokens);
      failure := Dispatch(d, cfg, ledger, tx);
      if failure.None? {
        config, tokens := Some(cfg.Snapshot()), ledger.Contents();
      }
    }

    method ProcessInitialize(d: Deployment, call: Call, clock: Clock) returns (failure: Option<EquiumError>)
      requires call.DoInitialize?
      modifies this
      ensures Step(failure, Current()) == Initialized(d, old(Current()), call, clock)
    {
      if call.signer != d.expectedAdmin {
        return Some(NotAdmin);
      }
      if config.Some? {
        return Some(AccountInUse);
      }
      var cfg := new EquiumConfig(Blank());
      Initialize(d.crypto, cfg, call.signer, call.mint, call.args, clock);
      config := Some(cfg.Snapshot());
      return None;
    }
  }

  /** A freshly created account: all bytes zero. */
  function Blank(): Config {
    Config(0, 0, 0, 0, DEFAULT_PUBKEY, 0, DEFAULT_PUBKEY, 0, 0, DEFAULT_PUBKEY, 0, 0, 0, 0, 0, 0, false,
           DEFAULT_PUBKEY, false)
  }

  method Dispatch(d: Deployment, cfg: EquiumConfig, ledger: TokenLedger, tx: Transaction)
    returns (failure: Option<EquiumError>)
    requires !tx.call.DoInitialize?
    modifies cfg, ledger
    ensures Effect(failure, cfg.Snapshot(), ledger.Contents())
         == Executed(d, old(cfg.Snapshot()), old(ledger.Contents()), tx)
  {
    match tx.call
    case DoFundVault(signer) =>
      failure := FundVault(cfg, ledger, signer, tx.clock);
    case DoMine(signer, nonce, solution) =>
      failure := Mine(d.crypto, cfg, ledger, signer, nonce, solution, tx.clock, tx.slotHashes);
    case DoAdvanceEmptyRound =>
      failure := AdvanceEmptyRound(d.crypto, cfg, tx.clock, tx.slotHashes);
    case DoSetTarget(signer, newTarget) =>
      failure := SetTarget(cfg, signer, newTarget);
    case DoRenounceAdmin(signer) =>
      failure := RenounceAdmin(cfg, signer);
    case SendToVault(signer, amount) =>
      var paid := ledger.PayIn(signer, amount);
      failure := if paid then None else Some(InsufficientFunds);
  }
}
