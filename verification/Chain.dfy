/** The bridge as a state machine: everything that can happen to the two ledgers. */
module Chain {
  import opened TokenPairs
  import opened Hex
  import opened PairRegistry
  import opened Ledger
  import opened Bridge
  import opened Proposals
  import opened Hook

  datatype Op =
    // messages of the module
    | MsgConvertCoin(sender: Address, receiver: Address, denom: Denom, amount: nat)
    | MsgConvertERC20(sender: Address, receiver: Address, token: GoString, amount: nat)
    | MsgSendCoinToEVM(sender: Address, denom: Denom, amount: nat)
    | MsgSendERC20ToCosmos(sender: Address, token: GoString, amount: nat)
    | MsgSendERC20ToCosmosAndIBCTransfer(sender: Address, token: GoString, amount: nat, ibc: IbcTransfer)
    // the onboarding of a coin received over IBC: a failed conversion is not reverted
    | Onboard(recipient: Address, denom: Denom, amount: nat)
    // an EVM transaction and the hook after it
    | EthereumTx(actions: seq<Action>)
    // governance
    | PropRegisterCoin(md: Metadata, text: GoString)
    | PropRegisterERC20(text: GoString, details: Option<GoString>)
    | PropToggle(token: GoString)
    | SetParams(params: Params)
    // the rest of the chain
    | BankSend(from: Address, to: Address, denom: Denom, amount: nat)
    | BankMint(to: Address, denom: Denom, amount: nat)
    | BankBurn(from: Address, denom: Denom, amount: nat)
    | Deploy(contract: Address, holdings: Holdings)
    | SelfDestruct(contract: Address)

  /** A failed handler's writes are reverted. */
  function After(st: State, o: Outcome): State
  {
    match o
    case Done(st') => st'
    case Failed => st
  }

  function AfterBank(st: State, b: Option<Bank>): State
  {
    match b
    case Some(b') => st.(bank := b')
    case None => st
  }

  function Step(st: State, op: Op): State
  {
    match op
    case MsgConvertCoin(s, r, d, a) => After(st, ConvertCoin(st, s, r, d, a))
    case MsgConvertERC20(s, r, t, a) => After(st, ConvertERC20(st, s, r, t, a))
    case MsgSendCoinToEVM(s, d, a) => After(st, SendCoinToEVM(st, s, d, a))
    case MsgSendERC20ToCosmos(s, t, a) => After(st, SendERC20ToCosmos(st, s, t, a))
    case MsgSendERC20ToCosmosAndIBCTransfer(s, t, a, ibc) => After(st, SendERC20ToCosmosAndIBCTransfer(st, s, t, a, ibc))
    case Onboard(x, d, a) => ConvertCoinUnreverted(st, x, BytesToAddress(x.bytes), d, a)
    case EthereumTx(xs) => EvmTx(st, xs)
    case PropRegisterCoin(md, text) => After(st, RegisterCoin(st, md, text))
    case PropRegisterERC20(text, details) => After(st, RegisterERC20(st, text, details))
    case PropToggle(token) => After(st, ToggleConversion(st, token))
    case SetParams(params) => st.(params := params)
    case BankSend(from, to, d, a) => AfterBank(st, SendCoins(st.bank, d, from, to, a))
    case BankMint(to, d, a) => AfterBank(st, MintCoins(st.bank, d, to, a))
    case BankBurn(from, d, a) => AfterBank(st, BurnCoins(st.bank, d, from, a))
    case Deploy(c, h) => st.(tokens := st.tokens[c := h])
    case SelfDestruct(c) => st.(tokens := st.tokens - {c})
  }

  /** The contract is registered with the given kind of owner. */
  predicate Registered(r: Registry, c: Address, owner: int)
  {
    c in r.byErc20 && r.byErc20[c] in r.pairs && r.pairs[r.byErc20[c]].contractOwner == owner
  }

  /**
   What an action of an EVM transaction never does: move the module's tokens, or mint
   tokens of a contract the module owns.  EVM addresses have 20 bytes.
   */
  ghost predicate MayAct(st: State, x: Action)
  {
    && |Target(x).bytes| == 20
    && Source(x) != st.env.erc20Module
    && (x.OwnerMint? ==> !Registered(st.registry, x.contract, OWNER_MODULE))
  }

  /**
   What the rest of the system guarantees.  Nobody signs for the module account.
   Coins named `erc20/...` are minted by this module alone and not proposed for
   registration, and addresses of newly deployed contracts are new.
   */
  ghost predicate Allowed(st: State, op: Op)
  {
    match op
    case MsgConvertCoin(s, _, _, _) => s != st.env.erc20Module
    case Onboard(x, _, _) => x != st.env.erc20Module
    case EthereumTx(xs) => forall x :: x in xs ==> MayAct(st, x)
    case PropRegisterCoin(md, text) =>
      !IsErc20Denom(md.base) && IsHexAddress(text) && HexToAddress(text) !in st.registry.byErc20
    case PropRegisterERC20(text, _) => IsHexAddress(text)
    case BankSend(from, _, _, _) => from != st.env.erc20Module
    case BankMint(_, d, _) => !IsErc20Denom(d)
    case BankBurn(from, _, _) => from != st.env.erc20Module
    case Deploy(c, _) => c !in st.tokens && c !in st.registry.byErc20
    case _ => true
  }

  ghost function Run(st: State, ops: seq<Op>): State
    decreases |ops|
  {
    if ops == [] then st else Run(Step(st, ops[0]), ops[1..])
  }

  ghost predicate AllowedRun(st: State, ops: seq<Op>)
    decreases |ops|
  {
    ops == [] || (Allowed(st, ops[0]) && AllowedRun(Step(st, ops[0]), ops[1..]))
  }
}
