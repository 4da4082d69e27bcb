/** Solvency over whole runs: every step of the state machine keeps the invariant. */
module SolvencyRuns {
  import opened TokenPairs
  import opened Hex
  import opened PairRegistry
  import opened Ledger
  import opened Bridge
  import opened BridgeLaws
  import opened Proposals
  import opened Hook
  import opened Chain
  import opened Solvency
  import opened SolvencySteps
  import opened SolvencyHook
  import opened SolvencyMargins

  // ----- messages -----------------------------------------------------------

  lemma OwnToCoinKeeps(st: State, c: Address, s: Address, r: Address, d: Denom, a: nat, w: Debts)
    requires InvUpTo(st, w) && c in st.tokens && Owns(st.registry, c, d)
    requires OwnTokenToCoin(st, c, s, r, d, a).Done?
    ensures InvUpTo(OwnTokenToCoin(st, c, s, r, d, a).state, w)
  {
    hide InvUpTo, Owns;
    OwnConversionKeeps(st, d, Move(Coins(st.bank, d), st.env.erc20Module, r, a), c, Debit(st.tokens[c], s, a), w);
  }

  lemma ForeignToCoinKeeps(st: State, c: Address, s: Address, r: Address, d: Denom, a: nat, w: Debts)
    requires InvUpTo(st, w) && Foreign(st, c) && d == CoinOf(st.registry, c)
    requires ForeignTokenToCoin(st, c, s, r, d, a).Done?
    ensures InvUpTo(ForeignTokenToCoin(st, c, s, r, d, a).state, w)
  {
    assert Gap(st, c) + Due(w.tokens, c) >= 0;
    ForeignTokenToCoinClosed(st, c, s, r, d, a);
    hide InvUpTo, ForeignTokenToCoin;
    ForeignConversionKeeps(st, d, Credit(Coins(st.bank, d), r, a), c, Move(st.tokens[c], s, st.env.erc20Module, a), w);
  }

  /** A conversion of coins, charged for if it took another coin than the pair's. */
  lemma ConvertCoinKeeps(st: State, s: Address, r: Address, d: Denom, a: nat, w: Debts)
    requires InvUpTo(st, w) && s != st.env.erc20Module && ConvertCoin(st, s, r, d, a).Done?
    ensures InvUpTo(ConvertCoin(st, s, r, d, a).state, Charge(w, st, s, r, d, a))
  {
    hide IsHexAddress, HexToAddress, GetID, FindPair, Contract, CoinToForeignToken, CoinToOwnToken, Consistent, ContractsIndexed,
         Denominated, OwnSolvent, ForeignSolvent, CoinsNamed;
    var p := FindPair(st.registry, d).value;
    if Contract(p) in st.tokens {
      ConvertedKeeps(st, s, r, d, a, w);
    } else {
      FoundPair(st.registry, d);
      DeleteKeeps(st, p, w);
    }
  }

  lemma ConvertERC20Keeps(st: State, s: Address, r: Address, token: GoString, a: nat, w: Debts)
    requires InvUpTo(st, w) && ConvertERC20(st, s, r, token, a).Done?
    ensures InvUpTo(ConvertERC20(st, s, r, token, a).state, w)
  {
    hide IsHexAddress, HexToAddress, GetID, FindPair, Contract, ForeignTokenToCoin, OwnTokenToCoin, Consistent, ContractsIndexed,
         Denominated, OwnSolvent, ForeignSolvent, CoinsNamed;
    var p := FindPair(st.registry, token).value;
    var c := Contract(p);
    FoundRegistered(st.registry, token);
    if c !in st.tokens {
      FoundPair(st.registry, token);
      DeleteKeeps(st, p, w);
    } else if p.contractOwner == OWNER_MODULE {
      OwnToCoinKeeps(st, c, s, r, p.denom, a, w);
    } else {
      ForeignToCoinKeeps(st, c, s, r, p.denom, a, w);
    }
  }

  /** Coins that leave an account other than the module's owe nothing. */
  lemma SpendingKeeps(st: State, b: Bank, d: Denom, h: Holdings, w: Debts)
    requires InvUpTo(st, w) && b == st.bank[d := h]
    requires Coins(st.bank, d)[st.env.erc20Module] <= h[st.env.erc20Module] && |h| <= Supply(st.bank, d)
    ensures InvUpTo(st.(bank := b), w)
  {
    hide InvUpTo, IsErc20Denom, IsHexAddress;
    HarmlessKeeps(st, st.(bank := b), w);
  }

  lemma DeductFeeKeeps(st: State, payer: Address, d: Denom, a: nat, w: Debts)
    requires InvUpTo(st, w) && payer != st.env.erc20Module && DeductFee(st, payer, d, a).Done?
    ensures InvUpTo(DeductFee(st, payer, d, a).state, w)
  {
    hide InvUpTo, Fee;
    var f, coins := Fee(st, a), Coins(st.bank, d);
    if f > 0 {
      SpendingKeeps(st, DeductFee(st, payer, d, a).state.bank, d, Move(coins, payer, st.env.feeCollector, f), w);
    }
  }

  lemma IbcSendKeeps(st: State, from: Address, d: Denom, a: nat, ibc: IbcTransfer, w: Debts)
    requires InvUpTo(st, w) && from != st.env.erc20Module && IbcSend(st.bank, d, from, a, ibc).Some?
    ensures InvUpTo(st.(bank := IbcSend(st.bank, d, from, a, ibc).value), w)
  {
    hide InvUpTo;
    var coins, b := Coins(st.bank, d), IbcSend(st.bank, d, from, a, ibc).value;
    SpendingKeeps(st, b, d, if ibc.Escrowed? then Move(coins, from, ibc.account, a) else Debit(coins, from, a), w);
  }

  lemma ReceiverNotBlocked(st: State, s: Address, token: GoString, a: nat)
    requires ValidEnv(st.env)
    ensures ConvertCoin(st, s, s, token, a).Done? ==>
              s != st.env.erc20Module && ConvertCoin(st, s, s, token, a).state.env == st.env
    ensures ConvertERC20(st, s, s, token, a).Done? ==>
              s != st.env.erc20Module && ConvertERC20(st, s, s, token, a).state.env == st.env
  {
    hide FindPair, Contract;
  }

  lemma GasfreeKeeps(st: State, s: Address, token: GoString, a: nat, ibc: IbcTransfer, w: Debts)
    requires InvUpTo(st, w)
    ensures SendCoinToEVM(st, s, token, a).Done? ==>
              InvUpTo(SendCoinToEVM(st, s, token, a).state, Charge(w, st, s, s, token, a))
    ensures SendERC20ToCosmos(st, s, token, a).Done? ==> InvUpTo(SendERC20ToCosmos(st, s, token, a).state, w)
    ensures SendERC20ToCosmosAndIBCTransfer(st, s, token, a, ibc).Done? ==>
              InvUpTo(SendERC20ToCosmosAndIBCTransfer(st, s, token, a, ibc).state, w)
  {
    hide ConvertCoin, ConvertERC20, DeductFee, IbcSend, FindPair, Charge, InteropAllowed, Fee, Consistent, ContractsIndexed,
         Denominated, OwnSolvent, ForeignSolvent, CoinsNamed;
    var f := Fee(st, a);
    ReceiverNotBlocked(st, s, token, a);
    ReceiverNotBlocked(st, s, token, a + f);
    if SendCoinToEVM(st, s, token, a).Done? {
      ConvertCoinKeeps(st, s, s, token, a, w);
      DeductFeeKeeps(ConvertCoin(st, s, s, token, a).state, s, token, a, Charge(w, st, s, s, token, a));
    }
    var o := ConvertERC20(st, s, s, token, a + f);
    if o.Done? && FindPair(o.state.registry, token).Some? {
      ConvertERC20Keeps(st, s, s, token, a + f, w);
      var d := FindPair(o.state.registry, token).value.denom;
      if SendERC20ToCosmos(st, s, token, a).Done? {
        DeductFeeKeeps(o.state, s, d, a, w);
      }
      if SendERC20ToCosmosAndIBCTransfer(st, s, token, a, ibc).Done? {
        IbcSendKeeps(o.state, s, d, a, ibc, w);
        DeductFeeKeeps(o.state.(bank := IbcSend(o.state.bank, d, s, a, ibc).value), s, d, a, w);
      }
    }
  }

  /** A conversion that failed half way and was not reverted has only filled the escrow. */
  lemma UnrevertedKeeps(st: State, s: Address, r: Address, d: Denom, a: nat, w: Debts)
    requires InvUpTo(st, w) && s != st.env.erc20Module
    ensures InvUpTo(ConvertCoinUnreverted(st, s, r, d, a), Charge(w, st, s, r, d, a))
  {
    hide InvUpTo, ConvertCoin, MintingEnabled;
    if ConvertCoin(st, s, r, d, a).Done? {
      ConvertCoinKeeps(st, s, r, d, a, w);
    } else if SendCoins(st.bank, d, s, st.env.erc20Module, a).Some? {
      SpendingKeeps(st, SendCoins(st.bank, d, s, st.env.erc20Module, a).value, d, Move(Coins(st.bank, d), s, st.env.erc20Module, a), w);
    }
  }

  // ----- registration -------------------------------------------------------

  lemma FreshId(r: Registry, p: TokenPair)
    requires Consistent(r) && ContractsIndexed(r) && IsHexAddress(p.erc20Address) && Contract(p) !in r.byErc20
    ensures GetID(p) !in r.pairs
  {
    hide IsHexAddress, HexToAddress, GetID;
    if GetID(p) in r.pairs {
      SameId(r, p);
    }
  }

  lemma DeployKeeps(st: State, c: Address, h: Holdings, w: Debts)
    requires InvUpTo(st, w) && c !in st.tokens && c !in st.registry.byErc20
    ensures InvUpTo(st.(tokens := st.tokens[c := h]), w)
  {
    hide IsHexAddress, IsErc20Denom, Liability, Consistent, ContractsIndexed, Denominated, ValidEnv, Supply, Coins;
    var st' := st.(tokens := st.tokens[c := h]);
    forall d
      ensures Liability(st'.registry, st'.tokens, d) <= Coins(st'.bank, d)[st.env.erc20Module] + Due(w.coins, d)
    {
      LiabilityFresh(st.registry, st.tokens, c, h, d);
    }
    forall k | Foreign(st', k)
      ensures Gap(st', k) + Due(w.tokens, k) >= 0
    {
      assert Foreign(st, k) && Gap(st, k) == Gap(st', k);
    }
  }

  lemma RegisterDenominated(r: Registry, metadata: map<Denom, Metadata>, p: TokenPair, md: Metadata)
    requires Denominated(r, metadata)
    requires p.contractOwner == OWNER_MODULE ==> !IsErc20Denom(p.denom)
    requires p.contractOwner == OWNER_EXTERNAL ==> p.denom == CreateDenom(p.erc20Address)
    ensures Denominated(Register(r, p), metadata[p.denom := md])
  {
    hide HexToAddress, GetID, CreateDenom, IsErc20Denom;
  }

  /** Registering a fresh contract leaves the pairs of all other contracts as they were. */
  lemma RegisterOthers(r: Registry, p: TokenPair, c: Address)
    requires Consistent(r) && GetID(p) !in r.pairs && c != Contract(p) && c in Register(r, p).byErc20
    ensures var r' := Register(r, p);
            c in r.byErc20 && r.byErc20[c] == r'.byErc20[c] && r.byErc20[c] in r.pairs && r'.pairs[r'.byErc20[c]] == r.pairs[r.byErc20[c]]
  {
    hide HexToAddress, GetID, IsHexAddress;
  }

  lemma RegisterKeeps(st: State, p: TokenPair, md: Metadata, w: Debts)
    requires InvUpTo(st, w) && IsHexAddress(p.erc20Address) && Contract(p) in st.tokens && Contract(p) !in st.registry.byErc20
    requires p.contractOwner == OWNER_MODULE ==> !IsErc20Denom(p.denom) && |st.tokens[Contract(p)]| == 0
    requires p.contractOwner == OWNER_EXTERNAL ==>
               p.denom == CreateDenom(p.erc20Address) && Supply(st.bank, p.denom) <= st.tokens[Contract(p)][st.env.erc20Module]
    ensures InvUpTo(st.(registry := Register(st.registry, p), metadata := st.metadata[p.denom := md]), w)
  {
    hide IsHexAddress, HexToAddress, GetID, CreateDenom, IsErc20Denom, Supply, OwnSolvent, CoinsNamed, Denominated, Consistent,
         ContractsIndexed;
    FreshId(st.registry, p);
    RegisterConsistent(st.registry, p);
    RegisterContractsIndexed(st.registry, p);
    RegisterDenominated(st.registry, st.metadata, p, md);
    var r := Register(st.registry, p);
    forall c | c in r.byErc20 && c != Contract(p)
      ensures c in st.registry.byErc20 && r.byErc20[c] in st.registry.pairs
              && r.byErc20[c] == st.registry.byErc20[c] && r.pairs[r.byErc20[c]] == st.registry.pairs[r.byErc20[c]]
    {
      RegisterOthers(st.registry, p, c);
    }
    forall c | Registered(r, c, OWNER_EXTERNAL) && c in st.tokens
      ensures Supply(st.bank, CoinOf(r, c)) <= st.tokens[c][st.env.erc20Module] + Due(w.tokens, c)
    {
      assert c != Contract(p) ==> Foreign(st, c) && Gap(st, c) + Due(w.tokens, c) >= 0;
    }
    RegistryKeeps(st, r, st.metadata[p.denom := md], w);
  }

  lemma RegisterCoinKeeps(st: State, md: Metadata, text: GoString, w: Debts)
    requires InvUpTo(st, w) && Allowed(st, PropRegisterCoin(md, text)) && RegisterCoin(st, md, text).Done?
    ensures InvUpTo(RegisterCoin(st, md, text).state, w)
  {
    hide InvUpTo, IsErc20Denom, IsHexAddress, HexToAddress, Register, Contains;
    var c := HexToAddress(text);
    DeployKeeps(st, c, multiset{}, w);
    RegisterKeeps(st.(tokens := st.tokens[c := multiset{}]), TokenPair(text, md.base, true, OWNER_MODULE), md, w);
  }

  lemma RegisterERC20Keeps(st: State, text: GoString, details: Option<GoString>, w: Debts)
    requires InvUpTo(st, w) && IsHexAddress(text) && RegisterERC20(st, text, details).Done?
    ensures InvUpTo(RegisterERC20(st, text, details).state, w)
  {
    var d := CreateDenom(text);
    CreatedDenom(text);
    assert CoinsNamed(st);
    assert Supply(st.bank, d) == 0;
    hide InvUpTo, IsErc20Denom, IsHexAddress, HexToAddress, Register, CreateDenom;
    RegisterKeeps(st, TokenPair(text, d, true, OWNER_EXTERNAL), Metadata(d, d, details.value), w);
  }

  // ----- the rest of the chain ----------------------------------------------

  lemma BankSendKeeps(st: State, from: Address, to: Address, d: Denom, a: nat, w: Debts)
    requires InvUpTo(st, w) && from != st.env.erc20Module && SendCoins(st.bank, d, from, to, a).Some?
    ensures InvUpTo(st.(bank := SendCoins(st.bank, d, from, to, a).value), w)
  {
    hide InvUpTo;
    SpendingKeeps(st, SendCoins(st.bank, d, from, to, a).value, d, Move(Coins(st.bank, d), from, to, a), w);
  }

  lemma BankBurnKeeps(st: State, from: Address, d: Denom, a: nat, w: Debts)
    requires InvUpTo(st, w) && from != st.env.erc20Module && BurnCoins(st.bank, d, from, a).Some?
    ensures InvUpTo(st.(bank := BurnCoins(st.bank, d, from, a).value), w)
  {
    hide InvUpTo;
    SpendingKeeps(st, BurnCoins(st.bank, d, from, a).value, d, Debit(Coins(st.bank, d), from, a), w);
  }

  lemma BankMintKeeps(st: State, to: Address, d: Denom, a: nat, w: Debts)
    requires InvUpTo(st, w) && !IsErc20Denom(d) && MintCoins(st.bank, d, to, a).Some?
    ensures InvUpTo(st.(bank := MintCoins(st.bank, d, to, a).value), w)
  {
    hide InvUpTo, IsErc20Denom, IsHexAddress;
    HarmlessKeeps(st, st.(bank := MintCoins(st.bank, d, to, a).value), w);
  }

  lemma SelfDestructKeeps(st: State, c: Address, w: Debts)
    requires InvUpTo(st, w)
    ensures InvUpTo(st.(tokens := st.tokens - {c}), w)
  {
    hide InvUpTo, IsErc20Denom, IsHexAddress;
    HarmlessKeeps(st, st.(tokens := st.tokens - {c}), w);
  }

  lemma ParamsKeep(st: State, params: Params, w: Debts)
    requires InvUpTo(st, w)
    ensures InvUpTo(st.(params := params), w)
  {
    hide IsHexAddress, IsErc20Denom, Liability, Consistent, ContractsIndexed, Denominated, Coins, Supply;
    var st' := st.(params := params);
    forall c | Foreign(st', c)
      ensures Gap(st', c) + Due(w.tokens, c) >= 0
    {
      assert Foreign(st, c) && Gap(st, c) == Gap(st', c);
    }
  }

  // ----- the theorem --------------------------------------------------------

  /** The debts after a step. */
  ghost function Owing(w: Debts, st: State, op: Op): Debts
  {
    match op
    case MsgConvertCoin(s, r, d, a) => Charge(w, st, s, r, d, a)
    case MsgSendCoinToEVM(s, d, a) => if SendCoinToEVM(st, s, d, a).Done? then Charge(w, st, s, s, d, a) else w
    case Onboard(x, d, a) => Charge(w, st, x, BytesToAddress(x.bytes), d, a)
    case _ => w
  }

  /** The debts after a run: all that conversions took of other coins than the pair's. */
  ghost function DebtsOf(w: Debts, st: State, ops: seq<Op>): Debts
    decreases |ops|
  {
    if ops == [] then w else DebtsOf(Owing(w, st, ops[0]), Step(st, ops[0]), ops[1..])
  }

  lemma NotCharged(st: State, s: Address, r: Address, d: Denom, a: nat, w: Debts)
    requires ConvertCoin(st, s, r, d, a).Failed?
    ensures Charge(w, st, s, r, d, a) == w
  {
    hide ConvertCoin, FindPair;
  }

  /** No single step of the state machine makes the bridge short of more than it is charged for. */
  lemma StepKeeps(st: State, op: Op, w: Debts)
    requires InvUpTo(st, w) && Allowed(st, op)
    ensures InvUpTo(Step(st, op), Owing(w, st, op))
  {
    hide InvUpTo, ConvertCoin, ConvertCoinUnreverted, ConvertERC20, SendCoinToEVM, SendERC20ToCosmos, SendERC20ToCosmosAndIBCTransfer, EvmTx,
         RegisterCoin, RegisterERC20, Toggle, SendCoins, MintCoins, BurnCoins, IsHexAddress, HexToAddress, IsErc20Denom, MayAct, Charge;
    match op
    case MsgConvertCoin(s, r, d, a) => 
      if ConvertCoin(st, s, r, d, a).Done? { ConvertCoinKeeps(st, s, r, d, a, w); } else { NotCharged(st, s, r, d, a, w); }
    case MsgConvertERC20(s, r, t, a) => if ConvertERC20(st, s, r, t, a).Done? { ConvertERC20Keeps(st, s, r, t, a, w); }
    case MsgSendCoinToEVM(s, d, a) => GasfreeKeeps(st, s, d, a, Rejected, w);
    case MsgSendERC20ToCosmos(s, t, a) => GasfreeKeeps(st, s, t, a, Rejected, w);
    case MsgSendERC20ToCosmosAndIBCTransfer(s, t, a, ibc) => GasfreeKeeps(st, s, t, a, ibc, w);
    case Onboard(x, d, a) => UnrevertedKeeps(st, x, BytesToAddress(x.bytes), d, a, w);
    case EthereumTx(xs) => EvmTxKeeps(st, xs, w);
    case PropRegisterCoin(md, text) => if RegisterCoin(st, md, text).Done? { RegisterCoinKeeps(st, md, text, w); }
    case PropRegisterERC20(text, details) => if RegisterERC20(st, text, details).Done? { RegisterERC20Keeps(st, text, details, w); }
    case PropToggle(token) => if Toggle(st.registry, token).Some? { ToggleInv(st, token, w); }
    case SetParams(params) => ParamsKeep(st, params, w);
    case BankSend(from, to, d, a) => if SendCoins(st.bank, d, from, to, a).Some? { BankSendKeeps(st, from, to, d, a, w); }
    case BankMint(to, d, a) => if MintCoins(st.bank, d, to, a).Some? { BankMintKeeps(st, to, d, a, w); }
    case BankBurn(from, d, a) => if BurnCoins(st.bank, d, from, a).Some? { BankBurnKeeps(st, from, d, a, w); }
    case Deploy(c, h) => DeployKeeps(st, c, h, w);
    case SelfDestruct(c) => SelfDestructKeeps(st, c, w);
  }

  lemma {:induction false} RunKeeps(st: State, ops: seq<Op>, w: Debts)
    requires InvUpTo(st, w) && AllowedRun(st, ops)
    ensures InvUpTo(Run(st, ops), DebtsOf(w, st, ops))
    decreases |ops|
  {
    hide InvUpTo, Allowed, Step, Owing;
    if ops != [] {
      StepKeeps(st, ops[0], w);
      RunKeeps(Step(st, ops[0]), ops[1..], Owing(w, st, ops[0]));
    }
  }

  /** A chain on which nothing is registered yet is a start. */
  lemma NothingRegistered(st: State, w: Debts)
    requires ValidEnv(st.env) && st.registry == EMPTY_REGISTRY && CoinsNamed(st)
    ensures InvUpTo(st, w)
  {
    forall d
      ensures Liability(st.registry, st.tokens, d) == 0
    {
      AllZero(Owed(st.registry, st.tokens, d));
    }
  }

  lemma {:induction false} AllZero(m: map<Address, nat>)
    requires forall c :: c in m ==> m[c] == 0
    ensures Sums.Total(m) == 0
    decreases |m|
  {
    if m != map[] {
      var k :| k in m;
      Sums.TotalRemove(m, k);
      AllZero(m - {k});
    }
  }

  /**
   Solvency over every run.  After any sequence of messages, transactions with their hook
   runs, registrations, togglings, deletions, transfers and self-destructions, the coins the
   module holds of a denomination, and what conversions on pairs of that denomination took
   of other coins instead, cover the tokens of all its live contracts paired with it.
   Likewise the tokens it holds of a live external contract cover the supply of its coin.
   */
  lemma SolventInEveryRun(st: State, ops: seq<Op>, d: Denom, c: Address)
    requires ValidEnv(st.env) && st.registry == EMPTY_REGISTRY && CoinsNamed(st) && AllowedRun(st, ops)
    ensures var end, w := Run(st, ops), DebtsOf(NO_DEBTS, st, ops); var m := end.env.erc20Module;
            && Liability(end.registry, end.tokens, d) <= Coins(end.bank, d)[m] + Due(w.coins, d)
            && (Registered(end.registry, c, OWNER_EXTERNAL) && c in end.tokens ==>
                  Supply(end.bank, end.registry.pairs[end.registry.byErc20[c]].denom) <= end.tokens[c][m] + Due(w.tokens, c))
  {
    hide Step, Liability, Consistent, ContractsIndexed, Supply, CoinsNamed, Allowed;
    NothingRegistered(st, NO_DEBTS);
    RunKeeps(st, ops, NO_DEBTS);
    var end := Run(st, ops);
    if Foreign(end, c) {
      assert Gap(end, c) + Due(DebtsOf(NO_DEBTS, st, ops).tokens, c) >= 0;
    }
  }

  /** The step converts no coin that is mistaken for another. */
  predicate TakesOwnCoin(st: State, op: Op)
  {
    op.MsgConvertCoin? || op.MsgSendCoinToEVM? || op.Onboard? ==> !Mistaken(st.registry, op.denom)
  }

  ghost predicate TakesOwnCoins(st: State, ops: seq<Op>)
    decreases |ops|
  {
    ops == [] || (TakesOwnCoin(st, ops[0]) && TakesOwnCoins(Step(st, ops[0]), ops[1..]))
  }

  lemma {:induction false} NoDebts(w: Debts, st: State, ops: seq<Op>)
    requires TakesOwnCoins(st, ops)
    ensures DebtsOf(w, st, ops) == w
    decreases |ops|
  {
    hide Step, Mistaken, Converted, SendCoinToEVM;
    if ops != [] {
      assert Owing(w, st, ops[0]) == w;
      NoDebts(w, Step(st, ops[0]), ops[1..]);
    }
  }

  /** As long as no coin is converted that is mistaken for another, the bridge stays solvent outright. */
  lemma SolventWithoutMistakes(st: State, ops: seq<Op>)
    requires ValidEnv(st.env) && st.registry == EMPTY_REGISTRY && CoinsNamed(st) && AllowedRun(st, ops)
    requires TakesOwnCoins(st, ops)
    ensures Solvent(Run(st, ops))
  {
    hide Step, CoinsNamed, AllowedRun, TakesOwnCoins, OwnSolvent, ForeignSolvent, Denominated, WellRegistered;
    NothingRegistered(st, NO_DEBTS);
    RunKeeps(st, ops, NO_DEBTS);
    NoDebts(NO_DEBTS, st, ops);
  }
}
