/** The program's configuration account, its token vault and the hashes it relies on. */
module ProgramState {
  import opened Target
  import opened Words

  type Pubkey = Bytes32

  const DEFAULT_PUBKEY: Pubkey := TargetOf(0)

  datatype EquiumError =
    | AdminRenounced | NotAdmin | InvalidEquihash | AboveTarget | RoundStillActive | SupplyExhausted
    | BadSlotHashes | ScheduleOverflow | RewardZeroed | MiningNotOpen | AlreadyOpen
    | AccountInUse | AccountMissing | InsufficientFunds

  // ---- Hashing and proof of work -----------------------------------------------------------

  /** SHA-256 and the upstream Equihash verifier, about which nothing is assumed here. */
  datatype Crypto = Crypto(
    sha256: seq<u8> -> Bytes32,
    isValidSolution: (u32, u32, seq<u8>, Bytes32, seq<u8>) -> bool)

  /** `to_le_bytes` on `n` bytes. */
  function LittleEndian(x: nat, n: nat): (s: seq<u8>)
    ensures |s| == n
  {
    if n == 0 then [] else [x % 256] + LittleEndian(x / 256, n - 1)
  }

  lemma {:induction false} LittleEndianInjective(x: nat, y: nat, n: nat)
    requires x < Pow256(n) && y < Pow256(n)
    ensures LittleEndian(x, n) == LittleEndian(y, n) ==> x == y
  {
    if n > 0 && LittleEndian(x, n) == LittleEndian(y, n) {
      assert LittleEndian(x, n)[0] == x % 256 && LittleEndian(y, n)[0] == y % 256;
      assert LittleEndian(x, n)[1..] == LittleEndian(x / 256, n - 1);
      assert LittleEndian(y, n)[1..] == LittleEndian(y / 256, n - 1);
      LittleEndianInjective(x / 256, y / 256, n - 1);
    }
  }

  lemma DivChain(x: nat, p: nat)
    requires p > 0
    ensures x / 256 / p == x / (256 * p)
  {
    var q, r := x / 256 / p, x / 256 % p;
    assert x / 256 == q * p + r;
    assert 256 * (q * p) == q * (256 * p);
    DivUnique(x, 256 * p, q, 256 * r + x % 256);
  }

  /** Byte `i` is the digit of weight 256^i. */
  lemma {:induction false} LittleEndianDigit(x: nat, n: nat, i: nat)
    requires i < n
    ensures LittleEndian(x, n)[i] == x / Pow256(i) % 256
  {
    if i == 0 {
      DivUnique(x, Pow256(0), x, 0);
    } else {
      LittleEndianDigit(x / 256, n - 1, i - 1);
      DivChain(x, Pow256(i - 1));
    }
  }

  /** The eight bytes of a 64-bit number, least significant first, each by its weight. */
  ghost function EightDigits(x: nat): (s: seq<u8>)
    ensures |s| == 8
  {
    seq(8, i requires 0 <= i < 8 => x / Pow256(i) % 256)
  }

  lemma LittleEndianIsDigits(x: nat)
    ensures LittleEndian(x, 8) == EightDigits(x)
  {
    forall i | 0 <= i < 8
      ensures LittleEndian(x, 8)[i] == EightDigits(x)[i]
    {
      LittleEndianDigit(x, 8, i);
    }
  }

  /** `from_le_bytes`. */
  function FromLittleEndian(s: seq<u8>): nat {
    if s == [] then 0 else s[0] + 256 * FromLittleEndian(s[1..])
  }

  lemma {:induction false} FromLittleEndianBytes(x: nat, n: nat)
    requires x < Pow256(n)
    ensures FromLittleEndian(LittleEndian(x, n)) == x
  {
    if n > 0 {
      FromLittleEndianBytes(x / 256, n - 1);
      assert LittleEndian(x, n)[1..] == LittleEndian(x / 256, n - 1);
    }
  }

  lemma {:induction false} ZeroIffAllZero(s: seq<u8>)
    ensures FromLittleEndian(s) == 0 <==> forall i :: 0 <= i < |s| ==> s[i] == 0
  {
    if s != [] {
      ZeroIffAllZero(s[1..]);
      assert forall i :: 0 <= i < |s[1..]| ==> s[1..][i] == s[i + 1];
    }
  }

  /** "Equium-v1". */
  const PERSONALIZATION: seq<u8> := [69, 113, 117, 105, 117, 109, 45, 118, 49]

  /** `build_input`. */
  function BuildInput(challenge: Bytes32, miner: Pubkey, height: u64): (input: seq<u8>)
    ensures |input| == 81
  {
    PERSONALIZATION + challenge + miner + LittleEndian(height, 8)
  }

  ghost function Ascii(text: string): (s: seq<u8>)
    requires forall i :: 0 <= i < |text| ==> text[i] as int < 128
  {
    seq(|text|, i requires 0 <= i < |text| => text[i] as int)
  }

  /** What a miner's solution is bound to, byte by byte. */
  ghost function InputBlock(challenge: Bytes32, miner: Pubkey, height: u64): seq<u8> {
    Ascii("Equium-v1") + challenge + miner + EightDigits(height)
  }

  lemma BuildInputIsBlock(challenge: Bytes32, miner: Pubkey, height: u64)
    ensures BuildInput(challenge, miner, height) == InputBlock(challenge, miner, height)
  {
    LittleEndianIsDigits(height);
    assert PERSONALIZATION == Ascii("Equium-v1");
  }

  /** The input block determines the challenge, the miner and the height it was built from. */
  lemma BuildInputInjective(c: Bytes32, m: Pubkey, h: u64, c': Bytes32, m': Pubkey, h': u64)
    requires BuildInput(c, m, h) == BuildInput(c', m', h')
    ensures c == c' && m == m' && h == h'
  {
    InputParts(c, m, h);
    InputParts(c', m', h');
    EightBytes();
    LittleEndianInjective(h, h', 8);
  }

  lemma InputParts(c: Bytes32, m: Pubkey, h: u64)
    ensures BuildInput(c, m, h)[9..41] == c && BuildInput(c, m, h)[41..73] == m
    ensures BuildInput(c, m, h)[73..] == LittleEndian(h, 8)
  {}

  function SolutionHash(crypto: Crypto, solution: seq<u8>, input: seq<u8>): Bytes32 {
    crypto.sha256(solution + input)
  }

  function NextChallenge(crypto: Crypto, challenge: Bytes32, winner: Pubkey, slotHash: Bytes32): Bytes32 {
    crypto.sha256(challenge + winner + slotHash)
  }

  function GenesisChallenge(crypto: Crypto, mint: Pubkey, slot: u64): Bytes32 {
    crypto.sha256(mint + LittleEndian(slot, 8))
  }

  /** The sysvar is there, has room for one entry and counts at least one. */
  ghost predicate SlotHashReadable(data: Option<seq<u8>>) {
    data.Some? && |data.value| >= 48 && exists i :: 0 <= i < 8 && data.value[i] != 0
  }

  /** `read_recent_slot_hash`: the first entry of the sysvar, `None` standing for a failed borrow. */
  function ReadRecentSlotHash(data: Option<seq<u8>>): (r: Result<Bytes32, EquiumError>)
    ensures r.Ok? <==> SlotHashReadable(data)
    ensures r.Ok? ==> r.value == data.value[16..48]
    ensures r.Err? ==> r.error == BadSlotHashes
  {
    if data.None? || |data.value| < 48 then
      Err(BadSlotHashes)
    else
      ZeroIffAllZero(data.value[0..8]);
      assert forall i :: 0 <= i < 8 ==> data.value[0..8][i] == data.value[i];
      if FromLittleEndian(data.value[0..8]) == 0 then Err(BadSlotHashes) else Ok(data.value[16..48])
  }

  /** On the documented layout it gives the hash of the first entry, and refuses an empty table. */
  lemma ReadsFirstEntry(count: u64, slot: u64, hash: Bytes32, rest: seq<u8>)
    ensures ReadRecentSlotHash(Some(EightDigits(count) + EightDigits(slot) + hash + rest))
         == if count == 0 then Err(BadSlotHashes) else Ok(hash)
  {
    var data := EightDigits(count) + EightDigits(slot) + hash + rest;
    LittleEndianIsDigits(count);
    EightBytes();
    FromLittleEndianBytes(count, 8);
    assert data[0..8] == LittleEndian(count, 8);
    assert data[16..48] == hash;
  }

  // ---- The configuration account -----------------------------------------------------------

  datatype Clock = Clock(slot: u64, unixTs: i64)

  datatype Config = Config(
    genesisSlot: u64,
    genesisUnixTs: i64,
    equihashN: u32,
    equihashK: u32,
    currentTarget: Bytes32,
    blockHeight: u64,
    currentChallenge: Bytes32,
    roundOpenSlot: u64,
    roundOpenUnixTs: i64,
    lastWinner: Pubkey,
    epochReward: u64,
    nextHalvingBlock: u64,
    nextRetargetBlock: u64,
    lastRetargetUnixTs: i64,
    cumulativeMined: u64,
    emptyRounds: u64,
    miningOpen: bool,
    admin: Pubkey,
    adminRenounced: bool)

  /** The account as an instruction handler sees it: a copy it writes field by field. */
  class EquiumConfig {
    var genesisSlot: u64
    var genesisUnixTs: i64
    var equihashN: u32
    var equihashK: u32
    var currentTarget: Bytes32
    var blockHeight: u64
    var currentChallenge: Bytes32
    var roundOpenSlot: u64
    var roundOpenUnixTs: i64
    var lastWinner: Pubkey
    var epochReward: u64
    var nextHalvingBlock: u64
    var nextRetargetBlock: u64
    var lastRetargetUnixTs: i64
    var cumulativeMined: u64
    var emptyRounds: u64
    var miningOpen: bool
    var admin: Pubkey
    var adminRenounced: bool

    function Snapshot(): Config
      reads this
    {
      Config(genesisSlot, genesisUnixTs, equihashN, equihashK, currentTarget, blockHeight, currentChallenge,
             roundOpenSlot, roundOpenUnixTs, lastWinner, epochReward, nextHalvingBlock, nextRetargetBlock,
             lastRetargetUnixTs, cumulativeMined, emptyRounds, miningOpen, admin, adminRenounced)
    }

    constructor (c: Config)
      ensures Snapshot() == c
    {
      genesisSlot, genesisUnixTs := c.genesisSlot, c.genesisUnixTs;
      equihashN, equihashK := c.equihashN, c.equihashK;
      currentTarget, blockHeight, currentChallenge := c.currentTarget, c.blockHeight, c.currentChallenge;
      roundOpenSlot, roundOpenUnixTs, lastWinner := c.roundOpenSlot, c.roundOpenUnixTs, c.lastWinner;
      epochReward, nextHalvingBlock, nextRetargetBlock := c.epochReward, c.nextHalvingBlock, c.nextRetargetBlock;
      lastRetargetUnixTs, cumulativeMined := c.lastRetargetUnixTs, c.cumulativeMined;
      emptyRounds, miningOpen := c.emptyRounds, c.miningOpen;
      admin, adminRenounced := c.admin, c.adminRenounced;
    }
  }

  // ---- Tokens ------------------------------------------------------------------------------

  /** The vault's balance and everybody else's. */
  datatype Tokens = Tokens(vault: nat, balances: map<Pubkey, nat>) {
    function Balance(owner: Pubkey): nat {
      if owner in balances then balances[owner] else 0
    }
  }

  function PaidOut(t: Tokens, to: Pubkey, amount: nat): Tokens
    requires amount <= t.vault
  {
    Tokens(t.vault - amount, t.balances[to := t.Balance(to) + amount])
  }

  function PaidIn(t: Tokens, from: Pubkey, amount: nat): Tokens
    requires amount <= t.Balance(from)
  {
    Tokens(t.vault + amount, t.balances[from := t.Balance(from) - amount])
  }

  /** Only `owner`'s balance differs, and by what the vault lost or gained. */
  ghost predicate Moved(t: Tokens, u: Tokens, owner: Pubkey) {
    && u.vault + u.Balance(owner) == t.vault + t.Balance(owner)
    && forall other: Pubkey :: other != owner ==> u.Balance(other) == t.Balance(other)
  }

  /** The token program's two transfers, as far as this program uses them. */
  class TokenLedger {
    var vault: nat
    var balances: map<Pubkey, nat>

    function Contents(): Tokens
      reads this
    {
      Tokens(vault, balances)
    }

    constructor (t: Tokens)
      ensures Contents() == t
    {
      vault, balances := t.vault, t.balances;
    }

    method PayOut(to: Pubkey, amount: nat) returns (ok: bool)
      modifies this
      ensures ok <==> amount <= old(vault)
      ensures Contents() == if ok then PaidOut(old(Contents()), to, amount) else old(Contents())
    {
      ok := amount <= vault;
      if ok {
        balances := balances[to := Contents().Balance(to) + amount];
        vault := vault - amount;
      }
    }

    method PayIn(from: Pubkey, amount: nat) returns (ok: bool)
      modifies this
      ensures ok <==> amount <= old(Contents()).Balance(from)
      ensures Contents() == if ok then PaidIn(old(Contents()), from, amount) else old(Contents())
    {
      var balance := Contents().Balance(from);
      ok := amount <= balance;
      if ok {
        balances := balances[from := balance - amount];
        vault := vault + amount;
      }
    }
  }
}
