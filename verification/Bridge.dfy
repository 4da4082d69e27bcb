/**
 What the bridge's messages do, each as one atomic step on the two ledgers and the
 registry (x/erc20/keeper/msg_server.go, x/erc20/keeper/mint.go).

 The step-by-step handlers with their balance checks are in module `Keepers`,
 proved to have exactly these effects.
 */
module Bridge {
  import opened TokenPairs
  import opened Hex
  import opened PairRegistry
  import opened Ledger
  import opened BasisPoints

  /** Accounts with a role: the module's own, the fee collector, and those that may not receive. */
  datatype Env = Env(erc20Module: Address, feeCollector: Address, blocked: set<Address>)

  datatype Params = Params(
    enableErc20: bool,
    enableEVMHook: bool,
    sendDisabled: set<Denom>,
    feeBasisPoints: nat,
    interopTokens: seq<GoString>)

  /** Bank metadata of a denomination; `details` stands for the fields compared but not used. */
  datatype Metadata = Metadata(base: Denom, name: GoString, details: GoString)

  datatype State = State(
    env: Env,
    params: Params,
    registry: Registry,
    bank: Bank,
    tokens: Tokens,
    metadata: map<Denom, Metadata>)

  /** A handler's result; a failed handler's writes are reverted. */
  datatype Outcome = Done(state: State) | Failed

  ghost predicate ValidEnv(e: Env)
  {
    && e.erc20Module in e.blocked
    && e.feeCollector in e.blocked
    && e.erc20Module != e.feeCollector
    && e.erc20Module != ZERO_ADDRESS
  }

  // ----- the guard ----------------------------------------------------------

  function MintingEnabled(st: State, sender: Address, receiver: Address, token: GoString): Option<TokenPair>
  {
    if !st.params.enableErc20 then None else
    match FindPair(st.registry, token)
    case None => None
    case Some(p) =>
      if !p.enabled then None
      else if receiver in st.env.blocked then None
      else if sender != receiver && p.denom in st.params.sendDisabled then None
      else Some(p)
  }

  // ----- the four conversions -----------------------------------------------

  /** convertCoinNativeCoin: coins into escrow, as many tokens minted. */
  function CoinToOwnToken(st: State, c: Address, sender: Address, receiver: Address, d: Denom, a: nat): Outcome
    requires c in st.tokens
  {
    var coins := Coins(st.bank, d);
    if 0 < a <= coins[sender] && receiver != ZERO_ADDRESS then
      Done(st.(bank := st.bank[d := Move(coins, sender, st.env.erc20Module, a)],
               tokens := st.tokens[c := Credit(st.tokens[c], receiver, a)]))
    else Failed
  }

  /** convertCoinNativeERC20: coins burnt, as many tokens released from escrow. */
  function CoinToForeignToken(st: State, c: Address, sender: Address, receiver: Address, d: Denom, a: nat): Outcome
    requires c in st.tokens
  {
    var coins, held, m := Coins(st.bank, d), st.tokens[c], st.env.erc20Module;
    if 0 < a <= coins[sender] && a <= held[m] && m != ZERO_ADDRESS && receiver != ZERO_ADDRESS && receiver != m then
      Done(st.(bank := st.bank[d := Debit(coins, sender, a)],
               tokens := st.tokens[c := Move(held, m, receiver, a)]))
    else Failed
  }

  /** convertERC20NativeCoin: tokens burnt, as many coins released from escrow. */
  function OwnTokenToCoin(st: State, c: Address, sender: Address, receiver: Address, d: Denom, a: nat): Outcome
    requires c in st.tokens
  {
    var coins, held, m := Coins(st.bank, d), st.tokens[c], st.env.erc20Module;
    if 0 < a <= held[sender] && a <= coins[m] && sender != ZERO_ADDRESS && receiver !in st.env.blocked && receiver != m then
      Done(st.(bank := st.bank[d := Move(coins, m, receiver, a)],
               tokens := st.tokens[c := Debit(held, sender, a)]))
    else Failed
  }

  /** What a call of an external contract's `transfer` came to. */
  datatype EvmCall = Reverted | Returned(value: bool, approvalLogged: bool, tokens: Tokens)

  /** The call made on a contract that conforms to EIP-20. */
  function ConformingTransfer(t: Tokens, c: Address, from: Address, to: Address, a: nat): EvmCall
  {
    match TransferToken(t, c, from, to, a)
    case None => Reverted
    case Some(t') => Returned(true, false, t')
  }

  /**
   convertERC20NativeToken, whatever the contract did to any token balance when
   asked to transfer: tokens into escrow, as many coins minted.
   */
  function ForeignTokenToCoinWith(st: State, c: Address, receiver: Address, d: Denom, a: nat, call: EvmCall): Outcome
    requires c in st.tokens
  {
    var coins, m := Coins(st.bank, d), st.env.erc20Module;
    if && call.Returned? && call.value && c in call.tokens
       && call.tokens[c][m] == st.tokens[c][m] + a
       && 0 < a && receiver !in st.env.blocked
       && !call.approvalLogged
    then
      Done(st.(bank := st.bank[d := Credit(coins, receiver, a)], tokens := call.tokens))
    else Failed
  }

  function ForeignTokenToCoin(st: State, c: Address, sender: Address, receiver: Address, d: Denom, a: nat): Outcome
    requires c in st.tokens
  {
    ForeignTokenToCoinWith(st, c, receiver, d, a, ConformingTransfer(st.tokens, c, sender, st.env.erc20Module, a))
  }

  // ----- the messages -------------------------------------------------------

  /** MsgConvertCoin.  A pair whose contract is gone is deleted instead. */
  function ConvertCoin(st: State, sender: Address, receiver: Address, d: Denom, a: nat): Outcome
  {
    match MintingEnabled(st, sender, receiver, d)
    case None => Failed
    case Some(p) =>
      var c := Contract(p);
      if c !in st.tokens then Done(st.(registry := DeleteTokenPair(st.registry, p)))
      else if p.contractOwner == OWNER_MODULE then CoinToOwnToken(st, c, sender, receiver, d, a)
      else if p.contractOwner == OWNER_EXTERNAL then CoinToForeignToken(st, c, sender, receiver, d, a)
      else Failed
  }

  /**
   The state a run of ConvertCoin leaves when nobody reverts it, as in the onboarding of coins
   received over IBC: a failing conversion may already have taken the coins into escrow.
   */
  function ConvertCoinUnreverted(st: State, sender: Address, receiver: Address, d: Denom, a: nat): State
  {
    match ConvertCoin(st, sender, receiver, d, a)
    case Done(st') => st'
    case Failed =>
      match MintingEnabled(st, sender, receiver, d)
      case None => st
      case Some(p) =>
        if p.contractOwner != OWNER_MODULE && p.contractOwner != OWNER_EXTERNAL then st else
        match SendCoins(st.bank, d, sender, st.env.erc20Module, a)
        case None => st
        case Some(b) => st.(bank := b)
  }

  /** MsgConvertERC20. */
  function ConvertERC20(st: State, sender: Address, receiver: Address, token: GoString, a: nat): Outcome
  {
    match MintingEnabled(st, sender, receiver, token)
    case None => Failed
    case Some(p) =>
      var c := Contract(p);
      if c !in st.tokens then Done(st.(registry := DeleteTokenPair(st.registry, p)))
      else if p.contractOwner == OWNER_MODULE then OwnTokenToCoin(st, c, sender, receiver, p.denom, a)
      else if p.contractOwner == OWNER_EXTERNAL then ForeignTokenToCoin(st, c, sender, receiver, p.denom, a)
      else Failed
  }

  // ----- the gas-free messages ----------------------------------------------

  function Lower(s: GoString): GoString
  {
    seq(|s|, i requires 0 <= i < |s| => if 65 <= s[i] <= 90 then s[i] + 32 else s[i])
  }

  predicate Matches(entry: GoString, p: TokenPair)
  {
    Lower(entry) == Lower(p.denom) || Lower(entry) == Lower(p.erc20Address)
  }

  /** validateGasfreeInteropToken. */
  predicate InteropAllowed(st: State, token: GoString)
  {
    && FindPair(st.registry, token).Some?
    && exists e :: e in st.params.interopTokens && Matches(e, FindPair(st.registry, token).value)
  }

  function Fee(st: State, a: nat): (f: nat)
  {
    FeeIsFloor(a, st.params.feeBasisPoints);
    CalculateBasisPointFee(a, st.params.feeBasisPoints)
  }

  /** DeductGasfreeErc20Fee. */
  function DeductFee(st: State, payer: Address, d: Denom, a: nat): Outcome
  {
    var f := Fee(st, a);
    if f == 0 then (if st.params.feeBasisPoints > 0 then Failed else Done(st))
    else match SendCoins(st.bank, d, payer, st.env.feeCollector, f)
         case None => Failed
         case Some(b) => Done(st.(bank := b))
  }

  /** MsgSendCoinToEVM. */
  function SendCoinToEVM(st: State, sender: Address, d: Denom, a: nat): Outcome
  {
    if !InteropAllowed(st, d) then Failed else
    match ConvertCoin(st, sender, sender, d, a)
    case Failed => Failed
    case Done(s) => DeductFee(s, sender, d, a)
  }

  /** MsgSendERC20ToCosmos. */
  function SendERC20ToCosmos(st: State, sender: Address, token: GoString, a: nat): Outcome
  {
    if !InteropAllowed(st, token) then Failed else
    match ConvertERC20(st, sender, sender, token, a + Fee(st, a))
    case Failed => Failed
    case Done(s) =>
      match FindPair(s.registry, token)
      case None => Failed
      case Some(p) => DeductFee(s, sender, p.denom, a)
  }

  /** How the IBC module takes coins: into a channel's escrow account, burnt, or not at all. */
  datatype IbcTransfer = Rejected | Escrowed(account: Address) | Burnt

  function IbcSend(b: Bank, d: Denom, from: Address, a: nat, ibc: IbcTransfer): Option<Bank>
  {
    match ibc
    case Rejected => None
    case Escrowed(x) => SendCoins(b, d, from, x, a)
    case Burnt => BurnCoins(b, d, from, a)
  }

  /** MsgSendERC20ToCosmosAndIBCTransfer. */
  function SendERC20ToCosmosAndIBCTransfer(st: State, sender: Address, token: GoString, a: nat, ibc: IbcTransfer): Outcome
  {
    if !InteropAllowed(st, token) then Failed else
    match ConvertERC20(st, sender, sender, token, a + Fee(st, a))
    case Failed => Failed
    case Done(s) =>
      match FindPair(s.registry, token)
      case None => Failed
      case Some(p) =>
        match IbcSend(s.bank, p.denom, sender, a, ibc)
        case None => Failed
        case Some(b) => DeductFee(s.(bank := b), sender, p.denom, a)
  }
}
