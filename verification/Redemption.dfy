/** What solvency is for: in every reachable state, holders can convert back. */
module Redemption {
  import opened TokenPairs
  import opened Hex
  import opened PairRegistry
  import opened Ledger
  import opened Bridge
  import opened Proposals
  import opened Chain
  import opened Solvency
  import opened SolvencySteps
  import opened SolvencyHook
  import opened SolvencyRuns
  import opened RegistryRuns

  // ----- external pairs are found under their coin --------------------------

  /** Every pair has one of the two kinds of owner; external ones are found under their denomination. */
  ghost predicate ExternalIndexed(r: Registry)
  {
    forall id :: id in r.pairs ==>
      || r.pairs[id].contractOwner == OWNER_MODULE
      || (r.pairs[id].contractOwner == OWNER_EXTERNAL && r.pairs[id].denom in r.byDenom && r.byDenom[r.pairs[id].denom] == id)
  }

  /** What the names of coins say about the pairs, solvency apart. */
  ghost predicate WellNamed(st: State)
  {
    Consistent(st.registry) && Denominated(st.registry, st.metadata) && ExternalIndexed(st.registry)
  }

  lemma DeleteNamed(r: Registry, metadata: map<Denom, Metadata>, p: TokenPair)
    requires Consistent(r) && Denominated(r, metadata) && ExternalIndexed(r)
    requires GetID(p) in r.pairs && r.pairs[GetID(p)] == p
    ensures Denominated(DeleteTokenPair(r, p), metadata) && ExternalIndexed(DeleteTokenPair(r, p))
  {
    hide HexToAddress, IsHexAddress, IsErc20Denom, CreateDenom;
    var r' := DeleteTokenPair(r, p);
    forall id | id in r'.pairs && r.pairs[id].contractOwner == OWNER_EXTERNAL
      ensures r.pairs[id].denom in r'.byDenom
    {
      CreatedDenom(r.pairs[id].erc20Address);
    }
  }

  lemma ToggleNamed(r: Registry, metadata: map<Denom, Metadata>, token: GoString)
    requires Consistent(r) && Denominated(r, metadata) && ExternalIndexed(r) && Toggle(r, token).Some?
    ensures Denominated(Toggle(r, token).value, metadata) && ExternalIndexed(Toggle(r, token).value)
  {
    hide HexToAddress, IsHexAddress, GetID, FindPair, SetTokenPair, Denominated, ExternalIndexed, Consistent;
    ToggleEffect(r, token);
    var p := FindPair(r, token).value;
    SetNamed(r, metadata, p.(enabled := !p.enabled));
  }

  /** A stored pair replaced by one that differs in its flag only. */
  lemma SetNamed(r: Registry, metadata: map<Denom, Metadata>, q: TokenPair)
    requires Denominated(r, metadata) && ExternalIndexed(r) && GetID(q) in r.pairs
    requires r.pairs[GetID(q)] == q.(enabled := !q.enabled)
    ensures Denominated(SetTokenPair(r, q), metadata) && ExternalIndexed(SetTokenPair(r, q))
  {
    hide GetID, IsErc20Denom, CreateDenom;
  }

  /** Neither kind of registration takes the coin of an external pair. */
  lemma RegisterNamed(r: Registry, metadata: map<Denom, Metadata>, p: TokenPair)
    requires Denominated(r, metadata) && ExternalIndexed(r)
    requires || (p.contractOwner == OWNER_MODULE && !IsErc20Denom(p.denom))
             || (p.contractOwner == OWNER_EXTERNAL && p.denom !in r.byDenom && p.denom == CreateDenom(p.erc20Address) && p.denom in metadata)
    ensures Denominated(Register(r, p), metadata) && ExternalIndexed(Register(r, p))
  {
    hide HexToAddress, GetID, IsErc20Denom, CreateDenom;
    forall id | id in r.pairs
      ensures r.pairs[id].contractOwner == OWNER_EXTERNAL ==> IsErc20Denom(r.pairs[id].denom)
    {
      CreatedDenom(r.pairs[id].erc20Address);
    }
  }

  lemma MoreMetadata(r: Registry, m: map<Denom, Metadata>, m': map<Denom, Metadata>)
    requires Denominated(r, m) && m.Keys <= m'.Keys
    ensures Denominated(r, m')
  {
    hide IsErc20Denom, CreateDenom;
  }

  /** A coin proposed for registration is not named like those of external contracts. */
  predicate PlainBase(op: Op)
  {
    op.PropRegisterCoin? ==> !IsErc20Denom(op.md.base)
  }

  /** External pairs stay found under their coin, whatever happens to the ledgers. */
  lemma StepNamed(st: State, op: Op)
    requires WellNamed(st) && TextIsAddress(op) && PlainBase(op)
    ensures WellNamed(Step(st, op))
  {
    hide Step, Register, Toggle, DeleteTokenPair, GetID, HexToAddress, IsHexAddress, CreateDenom, IsErc20Denom,
         Consistent, ContractsIndexed, DenomsIndexed, Denominated, ExternalIndexed;
    StepRegistry(st, op);
    StepKeepsRegistry(st, op);
    StepMetadata(st, op);
    var r, r', metadata := st.registry, Step(st, op).registry, Step(st, op).metadata;
    MoreMetadata(r, st.metadata, metadata);
    if op.PropToggle? && Toggle(r, op.token) == Some(r') {
      ToggleNamed(r, metadata, op.token);
    } else if op.PropRegisterCoin? && r' == Register(r, TokenPair(op.text, op.md.base, true, OWNER_MODULE)) {
      RegisterNamed(r, metadata, TokenPair(op.text, op.md.base, true, OWNER_MODULE));
    } else if op.PropRegisterERC20? && r' == Register(r, TokenPair(op.text, CreateDenom(op.text), true, OWNER_EXTERNAL))
              && CreateDenom(op.text) !in r.byDenom && CreateDenom(op.text) in metadata {
      RegisterNamed(r, metadata, TokenPair(op.text, CreateDenom(op.text), true, OWNER_EXTERNAL));
    } else if r' != r {
      var p :| GetID(p) in r.pairs && r.pairs[GetID(p)] == p && r' == DeleteTokenPair(r, p);
      DeleteNamed(r, metadata, p);
    }
  }

  lemma {:induction false} RunNamed(st: State, ops: seq<Op>)
    requires WellNamed(st) && forall op :: op in ops ==> TextIsAddress(op) && PlainBase(op)
    ensures WellNamed(Run(st, ops))
    decreases |ops|
  {
    hide Step, WellNamed, TextIsAddress, PlainBase;
    if ops != [] {
      assert ops[0] in ops;
      StepNamed(st, ops[0]);
      RunNamed(Step(st, ops[0]), ops[1..]);
    }
  }

  lemma {:induction false} AllowedNames(st: State, ops: seq<Op>)
    requires AllowedRun(st, ops)
    ensures forall op :: op in ops ==> TextIsAddress(op) && PlainBase(op)
    decreases |ops|
  {
    hide Step, IsHexAddress, IsErc20Denom, HexToAddress, MayAct;
    if ops != [] {
      AllowedNames(Step(st, ops[0]), ops[1..]);
      forall op | op in ops
        ensures TextIsAddress(op) && PlainBase(op)
      {
        assert op == ops[0] || op in ops[1..];
      }
    }
  }

  // ----- converting back ----------------------------------------------------

  /** Tokens of a module contract can be turned back into coins: the escrow does not run dry. */
  lemma TokensRedeemable(st: State, x: Address, c: Address, a: nat, w: Debts)
    requires InvUpTo(st, w) && st.params.enableErc20 && c in st.tokens && Registered(st.registry, c, OWNER_MODULE)
    requires st.registry.pairs[st.registry.byErc20[c]].enabled && Due(w.coins, st.registry.pairs[st.registry.byErc20[c]].denom) == 0
    requires x !in st.env.blocked && x != ZERO_ADDRESS && 0 < a <= st.tokens[c][x]
    ensures ConvertERC20(st, x, x, st.registry.pairs[st.registry.byErc20[c]].erc20Address, a).Done?
  {
    hide IsHexAddress, HexToAddress, GetID, Denominated, CoinsNamed, OwnSolvent, ForeignSolvent, ContractsIndexed;
    var p := st.registry.pairs[st.registry.byErc20[c]];
    assert FindPair(st.registry, p.erc20Address) == Some(p) && Contract(p) == c;
    OwnsPair(st.registry, c);
    CoveredAlone(st, c, p.denom, w);
    assert |Debit(st.tokens[c], x, a)| == |st.tokens[c]| - a;
  }

  /** An escrow that covers the supply covers every holder. */
  lemma ReleaseAdmitted(st: State, x: Address, c: Address, d: Denom, a: nat)
    requires ValidEnv(st.env) && c in st.tokens && Supply(st.bank, d) <= st.tokens[c][st.env.erc20Module]
    requires x !in st.env.blocked && x != ZERO_ADDRESS && 0 < a <= Coins(st.bank, d)[x]
    ensures CoinToForeignToken(st, c, x, x, d, a).Done?
  {
    assert |Debit(Coins(st.bank, d), x, a)| == Supply(st.bank, d) - a;
  }

  /** Coins of an external pair can be turned back into tokens. */
  lemma CoinsRedeemable(st: State, x: Address, c: Address, a: nat, w: Debts)
    requires InvUpTo(st, w) && ExternalIndexed(st.registry) && st.params.enableErc20 && Foreign(st, c)
    requires st.registry.pairs[st.registry.byErc20[c]].enabled && Due(w.tokens, c) == 0
    requires x !in st.env.blocked && x != ZERO_ADDRESS && 0 < a <= Coins(st.bank, CoinOf(st.registry, c))[x]
    ensures ConvertCoin(st, x, x, CoinOf(st.registry, c), a).Done?
  {
    hide IsHexAddress, HexToAddress, GetID, Denominated, CoinsNamed, OwnSolvent, ContractsIndexed,
         IsErc20Denom, CoinToForeignToken, CoinToOwnToken, DeleteTokenPair;
    assert Gap(st, c) + Due(w.tokens, c) >= 0;
    ForeignCoin(st.registry, st.metadata, c);
    var p := st.registry.pairs[st.registry.byErc20[c]];
    assert FindPair(st.registry, p.denom) == Some(p) && Contract(p) == c;
    ReleaseAdmitted(st, x, c, p.denom, a);
  }

  /**
   Nobody is ever stranded.  In every state a run can reach, while the module and the pair
   are switched on and the contract lives, an account that may receive can convert all it
   holds of a module contract's tokens into coins, and all it holds of an external
   contract's coins into tokens, unless conversions on that pair took other coins.
   */
  lemma RedeemableInEveryRun(st: State, ops: seq<Op>, x: Address, c: Address, a: nat)
    requires ValidEnv(st.env) && st.registry == EMPTY_REGISTRY && CoinsNamed(st) && AllowedRun(st, ops)
    requires var end := Run(st, ops);
             && end.params.enableErc20 && x !in end.env.blocked && x != ZERO_ADDRESS && a > 0
             && c in end.tokens && c in end.registry.byErc20 && end.registry.byErc20[c] in end.registry.pairs
             && end.registry.pairs[end.registry.byErc20[c]].enabled
    ensures var end, w := Run(st, ops), DebtsOf(NO_DEBTS, st, ops); var p := end.registry.pairs[end.registry.byErc20[c]];
            && (p.contractOwner == OWNER_MODULE && Due(w.coins, p.denom) == 0 && a <= end.tokens[c][x] ==>
                  ConvertERC20(end, x, x, p.erc20Address, a).Done?)
            && (p.contractOwner == OWNER_EXTERNAL && Due(w.tokens, c) == 0 && a <= Coins(end.bank, p.denom)[x] ==>
                  ConvertCoin(end, x, x, p.denom, a).Done?)
            && (p.contractOwner == OWNER_MODULE || p.contractOwner == OWNER_EXTERNAL)
  {
    hide Step, Allowed, InvUpTo, CoinsNamed, ConvertCoin, ConvertERC20, AllowedRun, DebtsOf, Consistent, Denominated;
    NothingRegistered(st, NO_DEBTS);
    RunKeeps(st, ops, NO_DEBTS);
    AllowedNames(st, ops);
    assert WellNamed(st) by { NothingNamed(st); }
    RunNamed(st, ops);
    var end, w := Run(st, ops), DebtsOf(NO_DEBTS, st, ops);
    var p := end.registry.pairs[end.registry.byErc20[c]];
    if p.contractOwner == OWNER_MODULE && Due(w.coins, p.denom) == 0 && a <= end.tokens[c][x] {
      TokensRedeemable(end, x, c, a, w);
    }
    if p.contractOwner == OWNER_EXTERNAL && Due(w.tokens, c) == 0 && a <= Coins(end.bank, p.denom)[x] {
      CoinsRedeemable(end, x, c, a, w);
    }
  }

  lemma NothingNamed(st: State)
    requires st.registry == EMPTY_REGISTRY
    ensures WellNamed(st)
  {
  }
}
