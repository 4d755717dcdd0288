/**
 * The block-lattice ledger: blocks, accounts and the block-processing state machine.
 *
 * A string stands for its UTF-8 bytes. Hashing, signature checking, address
 * derivation, hex decoding and integer parsing are foreign code: they are the
 * function-valued fields of `Env`, and nothing is known about them except `Env.Valid`.
 */
module LedgerModel {
  import opened Words

  type byte = x: int | 0 <= x < 256

  const CIL_PER_LOS: u128 := 100_000_000_000
  const MIN_VALIDATOR_STAKE_CIL: u128 := 1_000 * CIL_PER_LOS
  const MAX_MINT_PER_BLOCK: u128 := 1_000 * CIL_PER_LOS
  const MIN_TX_FEE_CIL: u128 := 100_000
  const MIN_DEPLOY_FEE_CIL: u128 := 1_000_000_000
  const MIN_CALL_FEE_CIL: u128 := 100_000
  const MIN_POW_DIFFICULTY_BITS: nat := 16
  const MAX_TIMESTAMP_DRIFT_SECS: nat := 300
  const PUBLIC_SUPPLY_CAP: u128 := 21_158_413 * CIL_PER_LOS

  datatype BlockType = Send | Receive | Change | Mint | Slash | ContractDeploy | ContractCall

  datatype Block = Block(
    account: string,
    previous: string,
    blockType: BlockType,
    amount: u128,
    link: string,
    signature: string,
    publicKey: string,
    work: u64,
    timestamp: u64,
    fee: u128)

  datatype Account = Account(head: string, balance: u128, blockCount: nat, isValidator: bool)

  const NEW_ACCOUNT := Account("0", 0, 0, false)

  /** Foreign functions, and the network the node is built for. */
  datatype Env = Env(
    hash: Block -> string,               // calculate_hash
    digest: Block -> seq<byte>,          // the bytes of signing_hash
    signatureOk: Block -> bool,          // verify_signature
    decodeHex: string -> Option<seq<byte>>,
    address: seq<byte> -> string,        // public_key_to_address
    parseU128: string -> Option<u128>,   // trim().parse::<u128>()
    testnet: bool)
  {
    /** A block hash is 64 hex digits, so it is never the genesis head. */
    ghost predicate Valid() {
      forall b: Block :: hash(b) != "0"
    }
  }

  datatype LedgerError =
    | InvalidPow | InvalidSignature | BadPublicKey | EmptyPublicKey | NotAccountOwner
    | NoSuchAccount | WrongPrevious | TooFarInFuture | BeforePrevious
    | SupplyExhausted | MintTooLarge | FeeTooLow | AmountOverflow | InsufficientFunds
    | LinkedBlockNotFound | LinkedBlockNotSend | WrongRecipient | AmountMismatch | AlreadyReceived
    | EmptyLink | BadDeployLink | BadCodeHash | BadCallLink | ZeroPenalty
    | SignerUnknown | SignerNotValidator | SignerStakeTooLow

  datatype Outcome = Applied(hash: string) | Duplicate(hash: string) | Rejected(error: LedgerError)

  datatype State = State(
    accounts: map<string, Account>,
    blocks: map<string, Block>,
    remainingSupply: u128,
    totalBurnedUsd: u128,
    claimedSends: set<string>,
    accumulatedFees: u128)

  /** A ledger no block has been applied to yet; genesis may have funded accounts. */
  ghost predicate Genesis(st: State) {
    && st.blocks == map[]
    && st.claimedSends == {}
    && st.accumulatedFees == 0
    && forall a :: a in st.accounts ==> st.accounts[a].head == "0" && st.accounts[a].blockCount == 0
  }

  // ---------------------------------------------------------------- proof of work

  function LeadingZeros(b: byte): nat {
    if b >= 128 then 0 else if b >= 64 then 1 else if b >= 32 then 2 else if b >= 16 then 3
    else if b >= 8 then 4 else if b >= 4 then 5 else if b >= 2 then 6 else if b >= 1 then 7 else 8
  }

  /** The digest starts with sixteen zero bits. */
  predicate PowOk(digest: seq<byte>) {
    |digest| >= 2 && digest[0] == 0 && digest[1] == 0
  }

  method VerifyPow(digest: seq<byte>) returns (ok: bool)
    ensures ok <==> PowOk(digest)
    ensures ok <==> |digest| >= 2 && digest[0] == 0 && digest[1] == 0
  {
    var zeroBits := 0;
    var i := 0;
    while i < |digest|
      invariant 0 <= i <= |digest|
      invariant zeroBits == 8 * i
      invariant forall k :: 0 <= k < i ==> digest[k] == 0
    {
      if digest[i] == 0 {
        zeroBits := zeroBits + 8;
      } else {
        zeroBits := zeroBits + LeadingZeros(digest[i]);
        assert digest[i] != 0 && LeadingZeros(digest[i]) < 8;
        return zeroBits >= MIN_POW_DIFFICULTY_BITS;
      }
      i := i + 1;
    }
    ok := zeroBits >= MIN_POW_DIFFICULTY_BITS;
  }

  // ---------------------------------------------------------------- reading a link

  function Split(s: string, c: char): (parts: seq<string>)
    ensures |parts| >= 1
  {
    if s == "" then [""]
    else
      var rest := Split(s[1..], c);
      if s[0] == c then [""] + rest
      else [[s[0]] + rest[0]] + rest[1..]
  }

  /** The price a Mint block's link declares: its fourth ':'-separated part, if that is a number. */
  function FiatPrice(env: Env, link: string): u128 {
    var parts := Split(link, ':');
    if |parts| >= 4 then
      match env.parseU128(parts[3])
      case Some(price) => price
      case None => 0
    else 0
  }

  predicate MintLimitExempt(env: Env, link: string) {
    || "REWARD:" <= link || "FEE_REWARD:" <= link
    || (env.testnet && ("FAUCET:" <= link || "TESTNET:" <= link || "Src:" <= link))
  }

  // ---------------------------------------------------------------- what a block must satisfy

  predicate NeedsOwner(t: BlockType) {
    t.Send? || t.Change? || t.ContractDeploy? || t.ContractCall?
  }

  function OwnerError(env: Env, b: Block): Option<LedgerError> {
    match env.decodeHex(b.publicKey)
    case None => Some(BadPublicKey)
    case Some(pk) =>
      if pk == [] then Some(EmptyPublicKey)
      else if env.address(pk) != b.account then Some(NotAccountOwner)
      else None
  }

  function AccountOf(st: State, a: string): Account {
    if a in st.accounts then st.accounts[a] else NEW_ACCOUNT
  }

  /** Fees are at least `minFee`, and the balance covers amount and fee. */
  function DebitError(balance: u128, b: Block, minFee: u128): Option<LedgerError> {
    if b.fee < minFee then Some(FeeTooLow)
    else if b.amount + b.fee > U128_MAX then Some(AmountOverflow)
    else if balance < b.amount + b.fee then Some(InsufficientFunds)
    else None
  }

  function MintError(env: Env, st: State, b: Block): Option<LedgerError> {
    if st.remainingSupply < b.amount then Some(SupplyExhausted)
    else if !MintLimitExempt(env, b.link) && b.amount > MAX_MINT_PER_BLOCK then Some(MintTooLarge)
    else None
  }

  function ReceiveError(st: State, b: Block): Option<LedgerError> {
    if b.link !in st.blocks then Some(LinkedBlockNotFound)
    else
      var send := st.blocks[b.link];
      if !send.blockType.Send? then Some(LinkedBlockNotSend)
      else if send.link != b.account then Some(WrongRecipient)
      else if send.amount != b.amount then Some(AmountMismatch)
      else if b.link in st.claimedSends then Some(AlreadyReceived)
      else None
  }

  function DeployError(balance: u128, b: Block): Option<LedgerError> {
    if !("DEPLOY:" <= b.link) then Some(BadDeployLink)
    else if |b.link| - 7 < 8 then Some(BadCodeHash)
    else DebitError(balance, b, MIN_DEPLOY_FEE_CIL)
  }

  function CallError(balance: u128, b: Block): Option<LedgerError> {
    if !("CALL:" <= b.link) then Some(BadCallLink)
    else if ':' !in b.link[5..] then Some(BadCallLink)
    else DebitError(balance, b, MIN_CALL_FEE_CIL)
  }

  function SlashError(env: Env, accounts: map<string, Account>, b: Block): Option<LedgerError> {
    if b.link == "" then Some(EmptyLink)
    else if b.amount == 0 then Some(ZeroPenalty)
    else
      match env.decodeHex(b.publicKey)
      case None => Some(BadPublicKey)
      case Some(pk) =>
        var signer := env.address(pk);
        if signer !in accounts then Some(SignerUnknown)
        else if !accounts[signer].isValidator then Some(SignerNotValidator)
        else if accounts[signer].balance < MIN_VALIDATOR_STAKE_CIL then Some(SignerStakeTooLow)
        else None
  }

  function TypeError(env: Env, st: State, b: Block): Option<LedgerError> {
    var balance := AccountOf(st, b.account).balance;
    match b.blockType
    case Mint => MintError(env, st, b)
    case Send => DebitError(balance, b, MIN_TX_FEE_CIL)
    case Receive => ReceiveError(st, b)
    case Change => if b.link == "" then Some(EmptyLink) else None
    case ContractDeploy => DeployError(balance, b)
    case ContractCall => CallError(balance, b)
    case Slash => SlashError(env, st.accounts, b)
  }

  /** The checks that look at the chain of the block's account and at the clock. */
  function ChainError(st: State, b: Block, now: nat): Option<LedgerError> {
    if !b.blockType.Mint? && !b.blockType.Receive? && b.account !in st.accounts then Some(NoSuchAccount)
    else if b.previous != AccountOf(st, b.account).head then Some(WrongPrevious)
    else if b.timestamp > now + MAX_TIMESTAMP_DRIFT_SECS then Some(TooFarInFuture)
    else if b.previous != "0" && b.previous in st.blocks && b.timestamp < st.blocks[b.previous].timestamp
      then Some(BeforePrevious)
    else None
  }

  /** The checks made before the duplicate test. */
  function BlockError(env: Env, b: Block): Option<LedgerError> {
    if !PowOk(env.digest(b)) then Some(InvalidPow)
    else if !env.signatureOk(b) then Some(InvalidSignature)
    else if NeedsOwner(b.blockType) then OwnerError(env, b)
    else None
  }

  // ---------------------------------------------------------------- what a block does

  function Credit(b: Block): u128 {
    if b.blockType.Mint? || b.blockType.Receive? then b.amount else 0
  }

  predicate PaysFee(b: Block) {
    b.blockType.Send? || b.blockType.ContractDeploy? || b.blockType.ContractCall?
  }

  function FeeOf(b: Block): u128 {
    if PaysFee(b) then b.fee else 0
  }

  function NewBalance(balance: u128, b: Block): u128 {
    if PaysFee(b) then SatSub(SatSub(balance, b.amount), b.fee)
    else if b.blockType.Slash? then SatSub(balance, b.amount)
    else SatAdd(balance, Credit(b))
  }

  /** What an accepted block does to the mint supply and the fee pot. */
  function PotEffect(env: Env, st: State, b: Block): State {
    st.(
      remainingSupply := if b.blockType.Mint? then SatSub(st.remainingSupply, b.amount) else st.remainingSupply,
      totalBurnedUsd := if b.blockType.Mint? then WrapAdd(st.totalBurnedUsd, FiatPrice(env, b.link))
                        else st.totalBurnedUsd,
      accumulatedFees := SatAdd(st.accumulatedFees, FeeOf(b)))
  }

  /** The state change of an accepted block. */
  function Effect(env: Env, st: State, b: Block): State {
    var h := env.hash(b);
    var acc := AccountOf(st, b.account);
    PotEffect(env, st, b).(
      accounts := st.accounts[b.account := Account(h, NewBalance(acc.balance, b), acc.blockCount + 1, acc.isValidator)],
      blocks := st.blocks[h := b],
      claimedSends := if b.blockType.Receive? then st.claimedSends + {b.link} else st.claimedSends)
  }

  /** Everything an accepted block has passed. */
  predicate Accepts(env: Env, st: State, b: Block, now: nat) {
    && BlockError(env, b).None?
    && env.hash(b) !in st.blocks
    && ChainError(st, b, now).None?
    && TypeError(env, st, b).None?
  }

  function Process(env: Env, st: State, b: Block, now: nat): (State, Outcome) {
    var e := BlockError(env, b);
    if e.Some? then (st, Rejected(e.value))
    else if env.hash(b) in st.blocks then (st, Duplicate(env.hash(b)))
    else
      var e := ChainError(st, b, now);
      if e.Some? then (st, Rejected(e.value))
      else
        var e := TypeError(env, st, b);
        if e.Some? then (st, Rejected(e.value))
        else (Effect(env, st, b), Applied(env.hash(b)))
  }

  /** The ledger as a node holds it, updated in place. */
  class Ledger {
    var accounts: map<string, Account>
    var blocks: map<string, Block>
    var remainingSupply: u128
    var totalBurnedUsd: u128
    var claimedSends: set<string>
    var accumulatedFees: u128

    ghost function Value(): State
      reads this
    {
      State(accounts, blocks, remainingSupply, totalBurnedUsd, claimedSends, accumulatedFees)
    }

    constructor ()
      ensures Genesis(Value())
      ensures accounts == map[] && totalBurnedUsd == 0
      ensures remainingSupply == 21_158_413 * 100_000_000_000
    {
      accounts := map[];
      blocks := map[];
      remainingSupply := PUBLIC_SUPPLY_CAP;
      totalBurnedUsd := 0;
      claimedSends := {};
      accumulatedFees := 0;
    }

    method ProcessBlock(env: Env, block: Block, now: nat) returns (r: Outcome)
      modifies this
      ensures (Value(), r) == Process(env, old(Value()), block, now)
    {
      // 1-2. Proof of work, signature
      var pow := VerifyPow(env.digest(block));
      if !pow {
        return Rejected(InvalidPow);
      }
      if !env.signatureOk(block) {
        return Rejected(InvalidSignature);
      }
      // 3. Account and public key belong together
      if NeedsOwner(block.blockType) {
        var e := OwnerError(env, block);
        if e.Some? {
          return Rejected(e.value);
        }
      }
      // 4. Duplicates
      var hash := env.hash(block);
      if hash in blocks {
        return Duplicate(hash);
      }
      // 5. Only Mint and Receive may create an account
      if !block.blockType.Mint? && !block.blockType.Receive? && block.account !in accounts {
        return Rejected(NoSuchAccount);
      }
      var state := if block.account in accounts then accounts[block.account] else NEW_ACCOUNT;
      // 6-7. Chain and clock
      if block.previous != state.head {
        return Rejected(WrongPrevious);
      }
      if block.timestamp > now + MAX_TIMESTAMP_DRIFT_SECS {
        return Rejected(TooFarInFuture);
      }
      if block.previous != "0" && block.previous in blocks && block.timestamp < blocks[block.previous].timestamp {
        return Rejected(BeforePrevious);
      }
      // 8. Logic of each block type
      var e, balance := Execute(env, block, state.balance);
      if e.Some? {
        return Rejected(e.value);
      }
      state := state.(head := hash, balance := balance, blockCount := state.blockCount + 1);
      accounts := accounts[block.account := state];
      blocks := blocks[hash := block];
      if block.blockType.Receive? {
        claimedSends := claimedSends + {block.link};
      }
      r := Applied(hash);
    }

    /** The branch of each block type: the new balance, and the shared pots updated in place. */
    method Execute(env: Env, block: Block, balance: u128) returns (e: Option<LedgerError>, newBalance: u128)
      requires balance == AccountOf(Value(), block.account).balance
      modifies this`remainingSupply, this`totalBurnedUsd, this`accumulatedFees
      ensures e == TypeError(env, old(Value()), block)
      ensures e.Some? ==> Value() == old(Value())
      ensures e.None? ==> newBalance == NewBalance(balance, block)
      ensures e.None? ==> Value() == PotEffect(env, old(Value()), block)
    {
      e, newBalance := None, balance;
      match block.blockType {
        case Mint =>
          if remainingSupply < block.amount {
            return Some(SupplyExhausted), balance;
          }
          if !MintLimitExempt(env, block.link) && block.amount > MAX_MINT_PER_BLOCK {
            return Some(MintTooLarge), balance;
          }
          newBalance := SatAdd(balance, block.amount);
          remainingSupply := SatSub(remainingSupply, block.amount);
          totalBurnedUsd := WrapAdd(totalBurnedUsd, FiatPrice(env, block.link));
        case Send =>
          e := DebitError(balance, block, MIN_TX_FEE_CIL);
          if e.None? {
            newBalance := balance - (block.amount + block.fee);
            accumulatedFees := SatAdd(accumulatedFees, block.fee);
          }
        case Receive =>
          if block.link !in blocks {
            return Some(LinkedBlockNotFound), balance;
          }
          var send := blocks[block.link];
          if !send.blockType.Send? {
            return Some(LinkedBlockNotSend), balance;
          }
          if send.link != block.account {
            return Some(WrongRecipient), balance;
          }
          if send.amount != block.amount {
            return Some(AmountMismatch), balance;
          }
          if block.link in claimedSends {
            return Some(AlreadyReceived), balance;
          }
          newBalance := SatAdd(balance, block.amount);
        case Change =>
          if block.link == "" {
            e := Some(EmptyLink);
          }
        case ContractDeploy =>
          e := DeployError(balance, block);
          if e.None? {
            newBalance := balance - (block.amount + block.fee);
            accumulatedFees := SatAdd(accumulatedFees, block.fee);
          }
        case ContractCall =>
          e := CallError(balance, block);
          if e.None? {
            newBalance := balance - (block.amount + block.fee);
            accumulatedFees := SatAdd(accumulatedFees, block.fee);
          }
        case Slash =>
          e := SlashError(env, accounts, block);
          if e.None? {
            newBalance := SatSub(balance, block.amount);
          }
      }
    }

    method ClaimAccumulatedFees() returns (fees: u128)
      modifies this
      ensures fees == old(accumulatedFees)
      ensures Value() == old(Value()).(accumulatedFees := 0)
    {
      fees := accumulatedFees;
      accumulatedFees := 0;
    }
  }
}
