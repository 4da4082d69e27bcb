/**
 The registry over whole runs, whatever happens to the ledgers: no index entry ever dangles,
 and when the three stores stay in bijection.
 */
module RegistryRuns {
  import opened TokenPairs
  import opened Hex
  import opened PairRegistry
  import opened Ledger
  import opened Bridge
  import opened Proposals
  import opened Hook
  import opened Chain

  /** Unchanged, or without one pair that was stored. */
  ghost predicate KeptOrDeleted(r: Registry, r': Registry)
  {
    r' == r || exists p :: GetID(p) in r.pairs && r.pairs[GetID(p)] == p && r' == DeleteTokenPair(r, p)
  }

  lemma ConvertRegistry(st: State, s: Address, x: Address, token: GoString, a: nat)
    requires Consistent(st.registry)
    ensures ConvertCoin(st, s, x, token, a).Done? ==> KeptOrDeleted(st.registry, ConvertCoin(st, s, x, token, a).state.registry)
    ensures ConvertERC20(st, s, x, token, a).Done? ==> KeptOrDeleted(st.registry, ConvertERC20(st, s, x, token, a).state.registry)
  {
    hide FindPair, Contract, GetID, DeleteTokenPair, Consistent;
    if FindPair(st.registry, token).Some? {
      FoundPair(st.registry, token);
    }
  }

  lemma GasfreeRegistry(st: State, s: Address, token: GoString, a: nat, ibc: IbcTransfer)
    requires Consistent(st.registry)
    ensures var o := SendCoinToEVM(st, s, token, a); o.Done? ==> KeptOrDeleted(st.registry, o.state.registry)
    ensures var o := SendERC20ToCosmos(st, s, token, a); o.Done? ==> KeptOrDeleted(st.registry, o.state.registry)
    ensures var o := SendERC20ToCosmosAndIBCTransfer(st, s, token, a, ibc); o.Done? ==> KeptOrDeleted(st.registry, o.state.registry)
  {
    hide ConvertCoin, ConvertERC20, FindPair, InteropAllowed, Fee, KeptOrDeleted, SendCoins, IbcSend, Consistent;
    ConvertRegistry(st, s, s, token, a);
    ConvertRegistry(st, s, s, token, a + Fee(st, a));
  }

  lemma {:induction false} HookLoopRegistry(st: State, logs: seq<Log>)
    ensures HookLoop(st, logs).registry == st.registry
    decreases |logs|
  {
    hide Requested, Serve;
    if logs != [] {
      var q := Requested(st, logs[0]);
      if q.Some? {
        ServeKeepsRest(st, logs[0].address, q.value);
      }
      HookLoopRegistry(HookStep(st, logs[0]), logs[1..]);
    }
  }

  /** What a step does to the registry. */
  lemma StepRegistry(st: State, op: Op)
    requires Consistent(st.registry)
    ensures var r, st' := st.registry, Step(st, op); var r' := st'.registry;
            || KeptOrDeleted(r, r')
            || (op.PropToggle? && Toggle(r, op.token) == Some(r'))
            || (op.PropRegisterCoin? && r' == Register(r, TokenPair(op.text, op.md.base, true, OWNER_MODULE)))
            || (op.PropRegisterERC20? && HexToAddress(op.text) !in r.byErc20 && CreateDenom(op.text) !in r.byDenom
                && CreateDenom(op.text) in st'.metadata
                && r' == Register(r, TokenPair(op.text, CreateDenom(op.text), true, OWNER_EXTERNAL)))
  {
    hide ConvertCoin, ConvertERC20, SendCoinToEVM, SendERC20ToCosmos, SendERC20ToCosmosAndIBCTransfer, HookLoop, ActAll, LogsOf,
         Toggle, SendCoins, MintCoins, BurnCoins, HexToAddress, Register, CreateDenom, Contains, DeleteTokenPair, GetID, MintingEnabled,
         Consistent, Supply;
    match op
    case MsgConvertCoin(s, x, d, a) => ConvertRegistry(st, s, x, d, a);
    case MsgConvertERC20(s, x, t, a) => ConvertRegistry(st, s, x, t, a);
    case MsgSendCoinToEVM(s, d, a) => GasfreeRegistry(st, s, d, a, Rejected);
    case MsgSendERC20ToCosmos(s, t, a) => GasfreeRegistry(st, s, t, a, Rejected);
    case MsgSendERC20ToCosmosAndIBCTransfer(s, t, a, ibc) => GasfreeRegistry(st, s, t, a, ibc);
    case Onboard(x, d, a) => ConvertRegistry(st, x, BytesToAddress(x.bytes), d, a);
    case EthereumTx(xs) =>
      if ActAll(st.tokens, xs).Some? {
        HookLoopRegistry(st.(tokens := ActAll(st.tokens, xs).value), LogsOf(xs));
      }
    case _ =>
  }

  /** Addresses are registered as texts that denote them. */
  predicate TextIsAddress(op: Op)
  {
    op.PropRegisterCoin? || op.PropRegisterERC20? ==> IsHexAddress(op.text)
  }

  /** The contract deployed for a coin is not registered. */
  predicate FreshContract(st: State, op: Op)
  {
    op.PropRegisterCoin? ==> HexToAddress(op.text) !in st.registry.byErc20
  }

  /** The base denomination of a coin is not registered. */
  predicate FreshBase(st: State, op: Op)
  {
    op.PropRegisterCoin? ==> op.md.base !in st.registry.byDenom
  }

  /** What each step keeps of the registry, and under which hypotheses. */
  lemma StepKeepsRegistry(st: State, op: Op)
    requires Consistent(st.registry) && TextIsAddress(op)
    ensures Consistent(Step(st, op).registry)
    ensures ContractsIndexed(st.registry) && FreshContract(st, op) ==> ContractsIndexed(Step(st, op).registry)
    ensures Bijective(st.registry) && FreshContract(st, op) && FreshBase(st, op) ==> Bijective(Step(st, op).registry)
  {
    hide Step, Register, Toggle, DeleteTokenPair, GetID, HexToAddress, IsHexAddress, CreateDenom, Consistent, ContractsIndexed,
         DenomsIndexed;
    StepRegistry(st, op);
    var r, r' := st.registry, Step(st, op).registry;
    if op.PropToggle? && Toggle(r, op.token) == Some(r') {
      ToggleKeeps(r, op.token);
    } else if op.PropRegisterCoin? && r' == Register(r, TokenPair(op.text, op.md.base, true, OWNER_MODULE)) {
      RegistersPair(r, TokenPair(op.text, op.md.base, true, OWNER_MODULE));
    } else if op.PropRegisterERC20? && r' == Register(r, TokenPair(op.text, CreateDenom(op.text), true, OWNER_EXTERNAL))
              && HexToAddress(op.text) !in r.byErc20 && CreateDenom(op.text) !in r.byDenom {
      RegistersPair(r, TokenPair(op.text, CreateDenom(op.text), true, OWNER_EXTERNAL));
    } else if r' != r {
      var p :| GetID(p) in r.pairs && r.pairs[GetID(p)] == p && r' == DeleteTokenPair(r, p);
      DeletesPair(r, p);
    }
  }

  lemma RegistersPair(r: Registry, p: TokenPair)
    requires Consistent(r) && IsHexAddress(p.erc20Address)
    ensures Consistent(Register(r, p))
    ensures ContractsIndexed(r) && Contract(p) !in r.byErc20 ==> ContractsIndexed(Register(r, p))
    ensures Bijective(r) && Contract(p) !in r.byErc20 && p.denom !in r.byDenom ==> Bijective(Register(r, p))
  {
    hide Register, IsHexAddress, Consistent, ContractsIndexed, DenomsIndexed;
    RegisterConsistent(r, p);
    if ContractsIndexed(r) && Contract(p) !in r.byErc20 {
      RegisterContractsIndexed(r, p);
      if DenomsIndexed(r) && p.denom !in r.byDenom {
        RegisterDenomsIndexed(r, p);
      }
    }
  }

  lemma DeletesPair(r: Registry, p: TokenPair)
    requires Consistent(r) && GetID(p) in r.pairs && r.pairs[GetID(p)] == p
    ensures Consistent(DeleteTokenPair(r, p))
    ensures ContractsIndexed(r) ==> ContractsIndexed(DeleteTokenPair(r, p))
    ensures Bijective(r) ==> Bijective(DeleteTokenPair(r, p))
  {
    hide DeleteTokenPair, GetID, Consistent, ContractsIndexed, DenomsIndexed;
    DeleteConsistent(r, p);
    if ContractsIndexed(r) {
      DeleteContractsIndexed(r, p);
      if DenomsIndexed(r) {
        DeleteBijective(r, p);
      }
    }
  }

  /** No index entry dangles after any run at all, whatever it did to the ledgers. */
  lemma {:induction false} ConsistentInEveryRun(st: State, ops: seq<Op>)
    requires Consistent(st.registry) && forall op :: op in ops ==> TextIsAddress(op)
    ensures Consistent(Run(st, ops).registry)
    decreases |ops|
  {
    hide Step, Consistent, TextIsAddress;
    if ops != [] {
      assert ops[0] in ops;
      StepKeepsRegistry(st, ops[0]);
      ConsistentInEveryRun(Step(st, ops[0]), ops[1..]);
    }
  }

  ghost predicate FreshContracts(st: State, ops: seq<Op>)
    decreases |ops|
  {
    ops == [] || (FreshContract(st, ops[0]) && FreshContracts(Step(st, ops[0]), ops[1..]))
  }

  ghost predicate FreshBases(st: State, ops: seq<Op>)
    decreases |ops|
  {
    ops == [] || (FreshBase(st, ops[0]) && FreshBases(Step(st, ops[0]), ops[1..]))
  }

  /** As long as every contract and every base denomination registered is new, the three stores stay in bijection. */
  lemma {:induction false} BijectiveInEveryRun(st: State, ops: seq<Op>)
    requires Bijective(st.registry) && (forall op :: op in ops ==> TextIsAddress(op))
    requires FreshContracts(st, ops) && FreshBases(st, ops)
    ensures Bijective(Run(st, ops).registry)
    decreases |ops|
  {
    hide Step, Consistent, ContractsIndexed, DenomsIndexed, TextIsAddress, FreshContract, FreshBase;
    if ops != [] {
      assert ops[0] in ops;
      StepKeepsRegistry(st, ops[0]);
      BijectiveInEveryRun(Step(st, ops[0]), ops[1..]);
    }
  }

  /**
   The hypothesis is needed: the code looks up the name, not the base.  Whenever the two
   differ, the same coin can be registered twice, and then its first pair is no longer
   found under its denomination.
   */
  lemma SameCoinTwice(st: State, md: Metadata, text: GoString, text': GoString)
    requires Bijective(st.registry) && st.params.enableErc20
    requires md.name != md.base && md.name !in st.registry.byDenom && !Contains(md.base, EVM_DENOM)
    requires Supply(st.bank, md.base) > 0 && (md.base in st.metadata ==> st.metadata[md.base] == md)
    requires IsHexAddress(text) && IsHexAddress(text') && HexToAddress(text) != HexToAddress(text')
    requires HexToAddress(text) !in st.tokens && HexToAddress(text) !in st.registry.byErc20
    requires HexToAddress(text') !in st.tokens && HexToAddress(text') !in st.registry.byErc20
    requires md.base !in st.registry.byDenom
    ensures var o := RegisterCoin(st, md, text);
            && o.Done?
            && RegisterCoin(o.state, md, text').Done?
            && !Bijective(RegisterCoin(o.state, md, text').state.registry)
  {
    hide IsHexAddress, HexToAddress, Contains, GetID, Consistent, ContractsIndexed, DenomsIndexed;
    var p, p' := TokenPair(text, md.base, true, OWNER_MODULE), TokenPair(text', md.base, true, OWNER_MODULE);
    RegisterBijective(st.registry, p);
    RegisterBijective(Register(st.registry, p), p');
  }

  /** A coin whose name is its base denomination cannot be registered over another. */
  lemma RegisterCoinBijective(st: State, md: Metadata, text: GoString)
    requires Bijective(st.registry) && IsHexAddress(text) && HexToAddress(text) !in st.registry.byErc20
    requires RegisterCoin(st, md, text).Done?
    ensures Bijective(RegisterCoin(st, md, text).state.registry) <==> md.base !in st.registry.byDenom
    ensures md.name == md.base ==> Bijective(RegisterCoin(st, md, text).state.registry)
    ensures Supply(st.bank, md.base) > 0 && !Contains(md.base, EVM_DENOM)
  {
    hide IsHexAddress, HexToAddress, Contains, Bijective, Register, Supply;
    RegisterBijective(st.registry, TokenPair(text, md.base, true, OWNER_MODULE));
  }

  // ----- an external contract is registered once and for all ----------------

  lemma StepMetadata(st: State, op: Op)
    ensures st.metadata.Keys <= Step(st, op).metadata.Keys
  {
    hide HookLoop, ActAll, LogsOf, MintingEnabled, FindPair, Contract, Fee, InteropAllowed, CoinToOwnToken, CoinToForeignToken,
         OwnTokenToCoin, ForeignTokenToCoin, HexToAddress, CreateDenom, Contains, Toggle, SendCoins, MintCoins, BurnCoins, IbcSend;
    match op
    case MsgConvertCoin(s, x, d, a) => ConvertMetadata(st, s, x, d, a);
    case MsgConvertERC20(s, x, t, a) => ConvertMetadata(st, s, x, t, a);
    case MsgSendCoinToEVM(s, d, a) => ConvertMetadata(st, s, s, d, a);
    case MsgSendERC20ToCosmos(s, t, a) => ConvertMetadata(st, s, s, t, a + Fee(st, a));
    case MsgSendERC20ToCosmosAndIBCTransfer(s, t, a, ibc) => ConvertMetadata(st, s, s, t, a + Fee(st, a));
    case Onboard(x, d, a) => ConvertMetadata(st, x, BytesToAddress(x.bytes), d, a);
    case EthereumTx(xs) =>
      if ActAll(st.tokens, xs).Some? {
        HookLoopMetadata(st.(tokens := ActAll(st.tokens, xs).value), LogsOf(xs));
      }
    case _ =>
  }

  lemma ConvertMetadata(st: State, s: Address, x: Address, token: GoString, a: nat)
    ensures ConvertCoin(st, s, x, token, a).Done? ==> ConvertCoin(st, s, x, token, a).state.metadata == st.metadata
    ensures ConvertERC20(st, s, x, token, a).Done? ==> ConvertERC20(st, s, x, token, a).state.metadata == st.metadata
  {
    hide FindPair, Contract;
  }

  lemma {:induction false} HookLoopMetadata(st: State, logs: seq<Log>)
    ensures HookLoop(st, logs).metadata == st.metadata
    decreases |logs|
  {
    hide Requested, Serve;
    if logs != [] {
      var q := Requested(st, logs[0]);
      if q.Some? {
        ServeKeepsRest(st, logs[0].address, q.value);
      }
      HookLoopMetadata(HookStep(st, logs[0]), logs[1..]);
    }
  }

  lemma {:induction false} RunMetadata(st: State, ops: seq<Op>)
    ensures st.metadata.Keys <= Run(st, ops).metadata.Keys
    decreases |ops|
  {
    hide Step;
    if ops != [] {
      StepMetadata(st, ops[0]);
      RunMetadata(Step(st, ops[0]), ops[1..]);
    }
  }

  /**
   Once an external contract has been registered, no later registration under the same
   text succeeds, whatever happens in between: not even after the contract destroyed itself
   and its pair was deleted.
   */
  lemma NeverRegisteredTwice(st: State, text: GoString, details: Option<GoString>, ops: seq<Op>, details': Option<GoString>)
    requires RegisterERC20(st, text, details).Done?
    ensures RegisterERC20(Run(RegisterERC20(st, text, details).state, ops), text, details').Failed?
  {
    hide HexToAddress, CreateDenom, Register, Run;
    RunMetadata(RegisterERC20(st, text, details).state, ops);
  }
}
