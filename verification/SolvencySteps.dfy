/** Each kind of change to the ledgers and the registry keeps the solvency invariant. */
module SolvencySteps {
  import opened TokenPairs
  import opened Hex
  import opened PairRegistry
  import opened Ledger
  import opened Bridge
  import opened BridgeLaws
  import opened Proposals
  import opened Chain
  import opened Sums
  import opened Solvency

  // ----- names --------------------------------------------------------------

  lemma Erc20DenomIsNotHex(d: Denom)
    requires IsErc20Denom(d)
    ensures !IsHexAddress(d)
  {
    assert d[1] == 114;
    assert d[0] == 101;
    assert d[1] in d;
  }

  lemma CreatedDenom(text: GoString)
    ensures IsErc20Denom(CreateDenom(text)) && CreateDenom(text)[6..] == text
  {
  }

  /** Two registered external contracts never share a coin. */
  lemma ForeignCoinsDiffer(r: Registry, metadata: map<Denom, Metadata>, c: Address, c': Address)
    requires Consistent(r) && Denominated(r, metadata)
    requires Registered(r, c, OWNER_EXTERNAL) && Registered(r, c', OWNER_EXTERNAL) && c != c'
    ensures CoinOf(r, c) != CoinOf(r, c') && IsErc20Denom(CoinOf(r, c))
  {
    hide IsHexAddress, HexToAddress, GetID, CreateDenom, IsErc20Denom;
    var p, p' := r.pairs[r.byErc20[c]], r.pairs[r.byErc20[c']];
    CreatedDenom(p.erc20Address);
    CreatedDenom(p'.erc20Address);
  }

  lemma ForeignCoin(r: Registry, metadata: map<Denom, Metadata>, c: Address)
    requires Consistent(r) && Denominated(r, metadata) && Registered(r, c, OWNER_EXTERNAL)
    ensures var d := CoinOf(r, c); IsErc20Denom(d) && !IsHexAddress(d) && d in metadata
  {
    hide IsHexAddress, HexToAddress, GetID, CreateDenom, IsErc20Denom;
    CreatedDenom(r.pairs[r.byErc20[c]].erc20Address);
    Erc20DenomIsNotHex(CoinOf(r, c));
  }

  // ----- changes that owe nothing -------------------------------------------

  /** Neither escrow shrinks, no module contract grows, no coin of the bridge is minted. */
  ghost predicate Harmless(st: State, st': State)
  {
    var m := st.env.erc20Module;
    && st' == st.(bank := st'.bank, tokens := st'.tokens)
    && (forall d :: Coins(st.bank, d)[m] <= Coins(st'.bank, d)[m])
    && (forall d :: IsErc20Denom(d) ==> Supply(st'.bank, d) <= Supply(st.bank, d))
    && st'.tokens.Keys <= st.tokens.Keys
    && (forall c :: c in st'.tokens && Registered(st.registry, c, OWNER_MODULE) ==> |st'.tokens[c]| <= |st.tokens[c]|)
    && (forall c :: c in st'.tokens && Registered(st.registry, c, OWNER_EXTERNAL) ==> st.tokens[c][m] <= st'.tokens[c][m])
  }

  lemma HarmlessSound(st: State, st': State, w: Debts)
    requires Sound(st, w) && Harmless(st, st')
    ensures Sound(st', w)
  {
    hide IsHexAddress, IsErc20Denom, Liability, Consistent, ContractsIndexed, Denominated, ValidEnv, Coins, Supply;
    forall d
      ensures Liability(st'.registry, st'.tokens, d) <= Coins(st'.bank, d)[st.env.erc20Module] + Due(w.coins, d)
    {
      LiabilityMonotone(st.registry, st.tokens, st'.registry, st'.tokens, d);
    }
  }

  lemma HarmlessGap(st: State, st': State, c: Address, w: Debts)
    requires Sound(st, w) && Harmless(st, st') && Foreign(st', c)
    ensures Foreign(st, c) && Gap(st', c) >= Gap(st, c)
  {
    hide IsHexAddress, IsErc20Denom, Consistent, ContractsIndexed, Denominated, ValidEnv, Coins, OwnSolvent, CoinsNamed;
    ForeignCoin(st.registry, st.metadata, c);
  }

  lemma HarmlessKeeps(st: State, st': State, w: Debts)
    requires InvUpTo(st, w) && Harmless(st, st')
    ensures InvUpTo(st', w)
  {
    hide Sound, Harmless, Gap, Foreign;
    HarmlessSound(st, st', w);
    forall c | Foreign(st', c)
      ensures Gap(st', c) + Due(w.tokens, c) >= 0
    {
      HarmlessGap(st, st', c, w);
    }
  }

  // ----- conversions --------------------------------------------------------

  /** A module contract's tokens and the escrow of its coin change together. */
  lemma OwnConversionSound(st: State, d: Denom, coins: Holdings, c: Address, held: Holdings, w: Debts)
    requires Sound(st, w) && c in st.tokens && Owns(st.registry, c, d)
    requires |coins| == Supply(st.bank, d)
    requires var m := st.env.erc20Module; coins[m] - |held| >= Coins(st.bank, d)[m] - |st.tokens[c]|
    ensures Sound(WithHoldings(st, d, coins, c, held), w)
  {
    hide IsHexAddress, IsErc20Denom, Liability, Consistent, ContractsIndexed, Denominated, ValidEnv;
    var st' := WithHoldings(st, d, coins, c, held);
    forall e
      ensures Liability(st'.registry, st'.tokens, e) <= Coins(st'.bank, e)[st.env.erc20Module] + Due(w.coins, e)
    {
      LiabilityUpdate(st.registry, st.tokens, c, held, e);
    }
  }

  lemma OwnConversionGap(st: State, d: Denom, coins: Holdings, c: Address, held: Holdings, k: Address)
    requires c in st.tokens && Owns(st.registry, c, d)
    requires |coins| == Supply(st.bank, d)
    requires Foreign(WithHoldings(st, d, coins, c, held), k)
    ensures Foreign(st, k) && Gap(WithHoldings(st, d, coins, c, held), k) == Gap(st, k)
  {
  }

  /** An external contract's tokens and its coin change together. */
  lemma ForeignConversionSound(st: State, d: Denom, coins: Holdings, c: Address, held: Holdings, w: Debts)
    requires Sound(st, w) && Foreign(st, c) && d == CoinOf(st.registry, c)
    requires var m := st.env.erc20Module; coins[m] >= Coins(st.bank, d)[m]
    ensures Sound(WithHoldings(st, d, coins, c, held), w)
  {
    hide IsHexAddress, IsErc20Denom, Liability, Consistent, ContractsIndexed, Denominated, ValidEnv;
    ForeignCoin(st.registry, st.metadata, c);
    var st' := WithHoldings(st, d, coins, c, held);
    forall e
      ensures Liability(st'.registry, st'.tokens, e) <= Coins(st'.bank, e)[st.env.erc20Module] + Due(w.coins, e)
    {
      LiabilityUpdate(st.registry, st.tokens, c, held, e);
    }
  }

  lemma ForeignConversionGap(st: State, d: Denom, coins: Holdings, c: Address, held: Holdings, k: Address, w: Debts)
    requires Sound(st, w) && Foreign(st, c) && d == CoinOf(st.registry, c)
    requires Foreign(WithHoldings(st, d, coins, c, held), k)
    ensures Foreign(st, k)
    ensures Gap(WithHoldings(st, d, coins, c, held), k)
            == if k == c then held[st.env.erc20Module] - |coins| else Gap(st, k)
  {
    hide IsHexAddress, IsErc20Denom, Consistent, ContractsIndexed, Denominated, ValidEnv, OwnSolvent, CoinsNamed;
    if k != c {
      ForeignCoinsDiffer(st.registry, st.metadata, k, c);
    }
  }

  lemma OwnConversionKeeps(st: State, d: Denom, coins: Holdings, c: Address, held: Holdings, w: Debts)
    requires InvUpTo(st, w) && c in st.tokens && Owns(st.registry, c, d)
    requires |coins| == Supply(st.bank, d)
    requires var m := st.env.erc20Module; coins[m] - |held| >= Coins(st.bank, d)[m] - |st.tokens[c]|
    ensures InvUpTo(WithHoldings(st, d, coins, c, held), w)
  {
    hide Sound, Gap, Foreign, Owns, WithHoldings;
    OwnConversionSound(st, d, coins, c, held, w);
    forall k | Foreign(WithHoldings(st, d, coins, c, held), k)
      ensures Gap(WithHoldings(st, d, coins, c, held), k) + Due(w.tokens, k) >= 0
    {
      OwnConversionGap(st, d, coins, c, held, k);
    }
  }

  lemma ForeignConversionKeeps(st: State, d: Denom, coins: Holdings, c: Address, held: Holdings, w: Debts)
    requires InvUpTo(st, w) && Foreign(st, c) && d == CoinOf(st.registry, c)
    requires var m := st.env.erc20Module; coins[m] >= Coins(st.bank, d)[m] && |coins| <= held[m] + Due(w.tokens, c)
    ensures InvUpTo(WithHoldings(st, d, coins, c, held), w)
  {
    hide Sound, Gap, WithHoldings;
    ForeignConversionSound(st, d, coins, c, held, w);
    forall k | Foreign(WithHoldings(st, d, coins, c, held), k)
      ensures Gap(WithHoldings(st, d, coins, c, held), k) + Due(w.tokens, k) >= 0
    {
      ForeignConversionGap(st, d, coins, c, held, k, w);
    }
  }

  // ----- the registry -------------------------------------------------------

  /** A found pair is the one its contract is registered with. */
  lemma FoundRegistered(r: Registry, token: GoString)
    requires Consistent(r) && ContractsIndexed(r) && FindPair(r, token).Some?
    ensures var p := FindPair(r, token).value;
            && Contract(p) in r.byErc20 && r.byErc20[Contract(p)] in r.pairs
            && r.pairs[r.byErc20[Contract(p)]] == p
            && (!IsHexAddress(token) ==> p.denom == token)
  {
    hide IsHexAddress, HexToAddress, GetID;
    FoundPair(r, token);
  }

  /** A change of the registry that adds no liability and no external pair. */
  lemma RegistryKeeps(st: State, r: Registry, metadata: map<Denom, Metadata>, w: Debts)
    requires InvUpTo(st, w) && st.metadata.Keys <= metadata.Keys
    requires Consistent(r) && ContractsIndexed(r) && Denominated(r, metadata)
    requires forall c :: Registered(r, c, OWNER_MODULE) && c in st.tokens && |st.tokens[c]| > 0 ==>
               Registered(st.registry, c, OWNER_MODULE) && r.pairs[r.byErc20[c]].denom == st.registry.pairs[st.registry.byErc20[c]].denom
    requires forall c :: Registered(r, c, OWNER_EXTERNAL) && c in st.tokens ==>
               Supply(st.bank, CoinOf(r, c)) <= st.tokens[c][st.env.erc20Module] + Due(w.tokens, c)
    ensures InvUpTo(st.(registry := r, metadata := metadata), w)
  {
    hide IsHexAddress, IsErc20Denom, Consistent, ContractsIndexed, Denominated, ValidEnv, Supply, Coins;
    var st' := st.(registry := r, metadata := metadata);
    forall d
      ensures Liability(r, st.tokens, d) <= Coins(st.bank, d)[st.env.erc20Module] + Due(w.coins, d)
    {
      TotalMonotone(Owed(st.registry, st.tokens, d), Owed(r, st.tokens, d));
    }
  }

  lemma DeleteKeeps(st: State, p: TokenPair, w: Debts)
    requires InvUpTo(st, w) && GetID(p) in st.registry.pairs && st.registry.pairs[GetID(p)] == p
    ensures InvUpTo(st.(registry := DeleteTokenPair(st.registry, p)), w)
  {
    hide IsHexAddress, HexToAddress, GetID, CreateDenom, IsErc20Denom, Supply, OwnSolvent;
    DeleteConsistent(st.registry, p);
    DeleteContractsIndexed(st.registry, p);
    var r := DeleteTokenPair(st.registry, p);
    forall c | Registered(r, c, OWNER_EXTERNAL) && c in st.tokens
      ensures Supply(st.bank, CoinOf(r, c)) <= st.tokens[c][st.env.erc20Module] + Due(w.tokens, c)
    {
      assert Foreign(st, c) && Gap(st, c) + Due(w.tokens, c) >= 0;
    }
    RegistryKeeps(st, r, st.metadata, w);
  }

  lemma ToggleInv(st: State, token: GoString, w: Debts)
    requires InvUpTo(st, w) && Toggle(st.registry, token).Some?
    ensures InvUpTo(st.(registry := Toggle(st.registry, token).value), w)
  {
    hide IsHexAddress, HexToAddress, CreateDenom, IsErc20Denom, Supply, OwnSolvent, FindPair, GetID, Consistent, ContractsIndexed, CoinsNamed;
    ToggleEffect(st.registry, token);
    ToggleKeeps(st.registry, token);
    var r := Toggle(st.registry, token).value;
    forall c | Registered(r, c, OWNER_EXTERNAL) && c in st.tokens
      ensures Supply(st.bank, CoinOf(r, c)) <= st.tokens[c][st.env.erc20Module] + Due(w.tokens, c)
    {
      assert Foreign(st, c) && Gap(st, c) + Due(w.tokens, c) >= 0;
    }
    RegistryKeeps(st, r, st.metadata, w);
  }
}
